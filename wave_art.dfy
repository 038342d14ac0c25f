/**
  The waveform engine: scaling, the per-row fullness classifier and the
  assembly of the text lines at standard (SD) and high (HD) density.

  Printing is replaced by returning the lines, in the order they would be
  printed.
*/
module WaveArt {
  import opened Float
  import opened Charset

  // ----- Scaling -----

  /** The largest magnitude of a non-empty sequence. */
  ghost function Peak(mags: seq<real>): (m: real)
    requires |mags| > 0
    ensures m in mags
    ensures forall i :: 0 <= i < |mags| ==> mags[i] <= m
  {
    PeakExists(mags);
    var j :| 0 <= j < |mags| && forall i :: 0 <= i < |mags| ==> mags[i] <= mags[j];
    mags[j]
  }

  /** Every non-empty sequence of magnitudes has a largest element. */
  lemma {:induction false} PeakExists(mags: seq<real>)
    requires |mags| > 0
    ensures exists j :: 0 <= j < |mags| && forall i :: 0 <= i < |mags| ==> mags[i] <= mags[j]
  {
    var n := |mags|;
    if n == 1 {
      assert forall i :: 0 <= i < n ==> mags[i] <= mags[0];
    } else {
      var pre := mags[..n - 1];
      PeakExists(pre);
      var j :| 0 <= j < n - 1 && forall i :: 0 <= i < n - 1 ==> pre[i] <= pre[j];
      var w := if mags[j] <= mags[n - 1] then n - 1 else j;
      forall i | 0 <= i < n
        ensures mags[i] <= mags[w]
      {
        if i < n - 1 {
          assert pre[i] <= pre[j];
        }
      }
    }
  }

  /** The largest element is unique. */
  lemma PeakUnique(mags: seq<real>, m: real)
    requires |mags| > 0 && m in mags
    requires forall i :: 0 <= i < |mags| ==> mags[i] <= m
    ensures m == Peak(mags)
  {
  }

  /** The largest magnitude, by a left-to-right scan (`max_by` over the slice). */
  method PeakMagnitude(mags: seq<real>) returns (m: real)
    requires |mags| > 0
    ensures m == Peak(mags)
  {
    m := mags[0];
    for i := 1 to |mags|
      invariant m in mags[..i]
      invariant forall j :: 0 <= j < i ==> mags[j] <= m
    {
      if m <= mags[i] {
        m := mags[i];
      }
    }
    PeakUnique(mags, m);
  }

  /**
    The factor every magnitude is divided by. When scaling, the loudest
    magnitude maps to `h - 0.5`, except that a peak of exactly 0 gives the
    factor 0; without scaling, magnitude 1 maps to `h`.
  */
  function ScalingFactor(h: nat, maxMag: real, scale: bool): (f: real)
    requires h >= 1
    ensures scale ==> (f == 0.0 <==> maxMag == 0.0)
    ensures scale ==> (f > 0.0 <==> maxMag > 0.0)
    ensures !scale ==> f > 0.0
  {
    if scale then
      if maxMag == 0.0 then 0.0 else maxMag / (h as real - 0.5)
    else
      1.0 / h as real
  }

  /**
    The meaning of the factor: when scaling, it maps a non-zero peak to
    `h - 0.5` and is zero for a zero peak; without scaling it maps 1 to `h`.
  */
  lemma ScalingFactorMaps(h: nat, maxMag: real, scale: bool)
    requires h >= 1
    ensures scale && maxMag != 0.0 ==>
              ScalingFactor(h, maxMag, scale) != 0.0 &&
              ScalingFactor(h, maxMag, scale) * (h as real - 0.5) == maxMag
    ensures scale && maxMag > 0.0 ==> ScalingFactor(h, maxMag, scale) > 0.0
    ensures scale && maxMag == 0.0 ==> ScalingFactor(h, maxMag, scale) == 0.0
    ensures !scale ==> ScalingFactor(h, maxMag, scale) * h as real == 1.0
  {
  }

  // ----- Classifier -----

  /**
    The fullness of row `y` for a column whose scaled magnitude is `mag`.
    Row 0 (the centre line) is empty up to 0 and full from 0.5, with twice
    the magnitude classified in between; row `y >= 1` looks at the window
    `mag - 0.5 - y`, empty up to 0 and full from 1.
  */
  function Cell(c: WaveCharset, y: nat, mag: Scaled): (r: BlockFullness)
    ensures InDomain(c, r)
  {
    if y == 0 then
      if AtMost(mag, 0.0) then Empty
      else if AtLeast(mag, 0.5) then Full
      else Partial(c, Times(mag, 2.0))
    else
      var w := Minus(mag, 0.5 + y as real);
      if AtMost(w, 0.0) then Empty
      else if AtLeast(w, 1.0) then Full
      else Partial(c, w)
  }

  /** Row `y` of the classified grid: one level per magnitude, in input order. */
  function GridRow(c: WaveCharset, y: nat, factor: real, mags: seq<real>): (row: seq<BlockFullness>)
    ensures |row| == |mags|
    ensures forall i :: 0 <= i < |row| ==> InDomain(c, row[i])
  {
    seq(|mags|, i requires 0 <= i < |mags| => Cell(c, y, Divide(mags[i], factor)))
  }

  /** The classified grid: `h` rows, row 0 being the centre line. */
  function Grid(c: WaveCharset, h: nat, factor: real, mags: seq<real>): (rows: seq<seq<BlockFullness>>)
    ensures |rows| == h
    ensures forall y :: 0 <= y < h ==> |rows[y]| == |mags|
    ensures Renderable(c, rows) && RenderableHd(c, rows)
  {
    var rows := seq(h, y requires 0 <= y < h => GridRow(c, y, factor, mags));
    RenderableIsRenderableHd(c, rows);
    rows
  }

  /** Every level in `rows` is one the single-column table of `c` handles. */
  predicate Renderable(c: WaveCharset, rows: seq<seq<BlockFullness>>)
  {
    forall y, i :: 0 <= y < |rows| && 0 <= i < |rows[y]| ==> InDomain(c, rows[y][i])
  }

  /** Builds the row grid the way the source does: row 0 first, then rows 1 to h - 1. */
  method ClassifyRows(h: nat, mags: seq<real>, factor: real, c: WaveCharset)
    returns (rows: seq<seq<BlockFullness>>)
    requires h >= 1
    ensures |rows| == h
    ensures forall y :: 0 <= y < h ==> |rows[y]| == |mags|
    ensures forall y, i :: 0 <= y < h && 0 <= i < |mags| ==>
              rows[y][i] == Cell(c, y, Divide(mags[i], factor))
  {
    rows := seq(h, _ => []);
    for i := 0 to |mags|
      invariant |rows| == h
      invariant |rows[0]| == i
      invariant forall j :: 0 <= j < i ==> rows[0][j] == Cell(c, 0, Divide(mags[j], factor))
      invariant forall y :: 1 <= y < h ==> rows[y] == []
    {
      var mag := Divide(mags[i], factor);
      var f: BlockFullness;
      if AtMost(mag, 0.0) {
        f := Empty;
      } else if AtLeast(mag, 0.5) {
        f := Full;
      } else {
        f := Partial(c, Times(mag, 2.0));
      }
      rows := rows[0 := rows[0] + [f]];
    }
    for y := 1 to h
      invariant |rows| == h
      invariant forall y' :: 0 <= y' < y ==> |rows[y']| == |mags|
      invariant forall y', i :: 0 <= y' < y && 0 <= i < |mags| ==>
                  rows[y'][i] == Cell(c, y', Divide(mags[i], factor))
      invariant forall y' :: y <= y' < h ==> rows[y'] == []
    {
      for i := 0 to |mags|
        invariant |rows| == h
        invariant forall y' :: 0 <= y' < y ==> |rows[y']| == |mags|
        invariant forall y', j :: 0 <= y' < y && 0 <= j < |mags| ==>
                    rows[y'][j] == Cell(c, y', Divide(mags[j], factor))
        invariant |rows[y]| == i
        invariant forall j :: 0 <= j < i ==> rows[y][j] == Cell(c, y, Divide(mags[j], factor))
        invariant forall y' :: y < y' < h ==> rows[y'] == []
      {
        var w := Minus(Divide(mags[i], factor), 0.5 + y as real);
        var f: BlockFullness;
        if AtMost(w, 0.0) {
          f := Empty;
        } else if AtLeast(w, 1.0) {
          f := Full;
        } else {
          f := Partial(c, w);
        }
        rows := rows[y := rows[y] + [f]];
      }
    }
  }

  // ----- Assembly -----

  /** The grid row printed on line `k` of a waveform of `h` rows. */
  function LineRow(h: nat, k: nat): nat
    requires k < 2 * h - 1
  {
    if k < h - 1 then h - 1 - k else k - (h - 1)
  }

  /** The position line `k` of a waveform of `h` rows is rendered with. */
  function LinePosition(h: nat, k: nat): Position
    requires k < 2 * h - 1
  {
    if k < h - 1 then Upper else if k == h - 1 then Middle else Lower
  }

  /** The reverse of `s` (`.iter().rev()`). */
  function Reversed<T>(s: seq<T>): (r: seq<T>)
    ensures |r| == |s|
    ensures forall k :: 0 <= k < |s| ==> r[k] == s[|s| - 1 - k]
  {
    if s == [] then [] else Reversed(s[1..]) + [s[0]]
  }

  /** One row at standard density: one glyph per level. */
  function RenderRowSd(c: WaveCharset, pos: Position, row: seq<BlockFullness>): (line: string)
    requires forall i :: 0 <= i < |row| ==> InDomain(c, row[i])
    ensures |line| == |row|
    ensures forall i :: 0 <= i < |row| ==> line[i] == RenderSingle(c, pos, row[i])
  {
    if row == [] then "" else [RenderSingle(c, pos, row[0])] + RenderRowSd(c, pos, row[1..])
  }

  /** The pair of levels `2i`, `2i + 1` of `row` is one `RenderDouble` handles. */
  predicate HandlesPairAt(c: WaveCharset, row: seq<BlockFullness>, i: nat)
    requires i < |row| / 2
  {
    HandlesPair(c, row[2 * i], row[2 * i + 1])
  }

  /** Every pair `chunks_exact(2)` takes from `row` is one `RenderDouble` handles. */
  predicate PairsHandled(c: WaveCharset, row: seq<BlockFullness>)
  {
    forall i :: 0 <= i < |row| / 2 ==> HandlesPairAt(c, row, i)
  }

  /** Every row of `rows` can be rendered at high density. */
  predicate RenderableHd(c: WaveCharset, rows: seq<seq<BlockFullness>>)
  {
    forall y, i :: 0 <= y < |rows| && 0 <= i < |rows[y]| / 2 ==> HandlesPairAt(c, rows[y], i)
  }

  /** A grid the single-column table handles can also be rendered at high density. */
  lemma RenderableIsRenderableHd(c: WaveCharset, rows: seq<seq<BlockFullness>>)
    requires Renderable(c, rows)
    ensures RenderableHd(c, rows)
  {
    forall y, i | 0 <= y < |rows| && 0 <= i < |rows[y]| / 2
      ensures HandlesPairAt(c, rows[y], i)
    {
      DomainPairsHandled(c, rows[y][2 * i], rows[y][2 * i + 1]);
    }
  }

  /**
    One row at high density: one glyph per pair of adjacent levels
    (`chunks_exact(2)`), a trailing odd level being dropped.
  */
  function RenderRowHd(c: WaveCharset, pos: Position, row: seq<BlockFullness>): (line: string)
    requires PairsHandled(c, row)
    ensures |line| == |row| / 2
    ensures forall i :: 0 <= i < |row| / 2 ==>
              HandlesPairAt(c, row, i) && line[i] == RenderDouble(c, pos, row[2 * i], row[2 * i + 1])
  {
    if |row| < 2 then ""
    else
      assert HandlesPairAt(c, row, 0);
      assert PairsHandled(c, row[2..]) by {
        forall i | 0 <= i < |row[2..]| / 2
          ensures HandlesPairAt(c, row[2..], i)
        {
          assert HandlesPairAt(c, row, i + 1);
        }
      }
      [RenderDouble(c, pos, row[0], row[1])] + RenderRowHd(c, pos, row[2..])
  }

  /** Each of `rows` rendered at standard density with the same position. */
  function LinesSd(c: WaveCharset, pos: Position, rows: seq<seq<BlockFullness>>): (lines: seq<string>)
    requires Renderable(c, rows)
    ensures |lines| == |rows|
    ensures forall k :: 0 <= k < |rows| ==> lines[k] == RenderRowSd(c, pos, rows[k])
  {
    if rows == [] then [] else [RenderRowSd(c, pos, rows[0])] + LinesSd(c, pos, rows[1..])
  }

  /** Each of `rows` rendered at high density with the same position. */
  function LinesHd(c: WaveCharset, pos: Position, rows: seq<seq<BlockFullness>>): (lines: seq<string>)
    requires RenderableHd(c, rows)
    ensures |lines| == |rows|
    ensures forall k :: 0 <= k < |rows| ==> lines[k] == RenderRowHd(c, pos, rows[k])
  {
    if rows == [] then [] else [RenderRowHd(c, pos, rows[0])] + LinesHd(c, pos, rows[1..])
  }

  /**
    The standard-density waveform: rows h-1 down to 1 above the centre line,
    then row 0, then rows 1 up to h-1 below the centre line.
  */
  function RenderSd(rows: seq<seq<BlockFullness>>, c: WaveCharset): (lines: seq<string>)
    requires |rows| >= 1 && Renderable(c, rows)
    ensures |lines| == 2 * |rows| - 1
    ensures forall k :: 0 <= k < |lines| ==>
              LineRow(|rows|, k) < |rows| &&
              lines[k] == RenderRowSd(c, LinePosition(|rows|, k), rows[LineRow(|rows|, k)])
    ensures (forall y :: 0 <= y < |rows| ==> |rows[y]| == |rows[0]|) ==>
              forall k :: 0 <= k < |lines| ==> |lines[k]| == |rows[0]|
  {
    var h := |rows|;
    var upper := LinesSd(c, Upper, rows[1..]);
    var lower := LinesSd(c, Lower, rows[1..]);
    var lines := Reversed(upper) + [RenderRowSd(c, Middle, rows[0])] + lower;
    assert forall k :: 0 <= k < |lines| ==>
             lines[k] == RenderRowSd(c, LinePosition(h, k), rows[LineRow(h, k)]) by {
      forall k | 0 <= k < |lines|
        ensures lines[k] == RenderRowSd(c, LinePosition(h, k), rows[LineRow(h, k)])
      {
        if k < h - 1 {
          assert lines[k] == upper[h - 2 - k] && rows[1..][h - 2 - k] == rows[h - 1 - k];
        } else if k > h - 1 {
          assert lines[k] == lower[k - h] && rows[1..][k - h] == rows[k - h + 1];
        }
      }
    }
    lines
  }

  /** The high-density waveform, in the same row order as `RenderSd`. */
  function RenderHd(rows: seq<seq<BlockFullness>>, c: WaveCharset): (lines: seq<string>)
    requires |rows| >= 1 && RenderableHd(c, rows)
    ensures |lines| == 2 * |rows| - 1
    ensures forall k :: 0 <= k < |lines| ==>
              LineRow(|rows|, k) < |rows| &&
              lines[k] == RenderRowHd(c, LinePosition(|rows|, k), rows[LineRow(|rows|, k)])
    ensures (forall y :: 0 <= y < |rows| ==> |rows[y]| == |rows[0]|) ==>
              forall k :: 0 <= k < |lines| ==> |lines[k]| == |rows[0]| / 2
  {
    assert RenderableHd(c, rows[1..]) by {
      forall y, i | 0 <= y < |rows| - 1 && 0 <= i < |rows[1..][y]| / 2
        ensures HandlesPairAt(c, rows[1..][y], i)
      {
        assert rows[1..][y] == rows[y + 1];
      }
    }
    Reversed(LinesHd(c, Upper, rows[1..])) + [RenderRowHd(c, Middle, rows[0])] + LinesHd(c, Lower, rows[1..])
  }

  // ----- The whole engine -----

  /** What `draw_waves` prints, line by line; nothing for an empty input. */
  ghost function Waveform(h: nat, mags: seq<real>, scale: bool, c: WaveCharset, hd: bool): (lines: seq<string>)
    requires |mags| > 0 ==> h >= 1
    ensures |mags| == 0 ==> lines == []
    ensures |mags| > 0 ==> |lines| == 2 * h - 1
    ensures forall k :: 0 <= k < |lines| ==> |lines[k]| == if hd then |mags| / 2 else |mags|
  {
    if |mags| == 0 then []
    else
      var rows := Grid(c, h, ScalingFactor(h, Peak(mags), scale), mags);
      assert forall y :: 0 <= y < h ==> |rows[y]| == |rows[0]| == |mags|;
      if hd then RenderableIsRenderableHd(c, rows); RenderHd(rows, c) else RenderSd(rows, c)
  }

  /** Scales the magnitudes, classifies every cell and renders the lines. */
  method DrawWaves(h: nat, mags: seq<real>, scale: bool, c: WaveCharset, hd: bool)
    returns (lines: seq<string>)
    requires |mags| > 0 ==> h >= 1
    ensures lines == Waveform(h, mags, scale, c, hd)
  {
    if |mags| == 0 {
      return [];
    }
    var peak := PeakMagnitude(mags);
    var factor := ScalingFactor(h, peak, scale);
    var rows := ClassifyRows(h, mags, factor, c);
    assert rows == Grid(c, h, factor, mags) by {
      forall y | 0 <= y < h
        ensures rows[y] == GridRow(c, y, factor, mags)
      {
      }
    }
    if hd {
      RenderableIsRenderableHd(c, rows);
      lines := RenderHd(rows, c);
    } else {
      lines := RenderSd(rows, c);
    }
  }
}
