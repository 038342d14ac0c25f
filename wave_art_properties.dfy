/**
  What the waveform engine guarantees: the shape and order of its output,
  the monotone fill of every column, what scaling does to the outermost
  row, invariance under a common scale, and the behaviour of an all-zero
  input.
*/
module WaveArtProperties {
  import opened Float
  import opened Charset
  import opened WaveArt

  /** The scaled magnitude of column `i`. */
  ghost function ScaledAt(h: nat, mags: seq<real>, scale: bool, i: nat): Scaled
    requires h >= 1 && i < |mags|
  {
    Divide(mags[i], ScalingFactor(h, Peak(mags), scale))
  }

  // ----- Output shape and order -----

  /**
    At standard density, glyph `i` of line `k` is the single-column glyph of
    column `i`'s level in row `LineRow(h, k)`, drawn at `LinePosition(h, k)`.
  */
  lemma WaveformSdGlyphs(h: nat, mags: seq<real>, scale: bool, c: WaveCharset, k: nat, i: nat)
    requires h >= 1 && k < 2 * h - 1 && i < |mags|
    ensures LineRow(h, k) < h
    ensures Waveform(h, mags, scale, c, false)[k][i] ==
            RenderSingle(c, LinePosition(h, k), Cell(c, LineRow(h, k), ScaledAt(h, mags, scale, i)))
  {
    GridGlyphSd(c, h, ScalingFactor(h, Peak(mags), scale), mags, k, i);
  }

  /** `WaveformSdGlyphs` for any factor. */
  lemma GridGlyphSd(c: WaveCharset, h: nat, factor: real, mags: seq<real>, k: nat, i: nat)
    requires h >= 1 && k < 2 * h - 1 && i < |mags|
    ensures LineRow(h, k) < h && i < |RenderSd(Grid(c, h, factor, mags), c)[k]|
    ensures RenderSd(Grid(c, h, factor, mags), c)[k][i] ==
            RenderSingle(c, LinePosition(h, k), Cell(c, LineRow(h, k), Divide(mags[i], factor)))
  {
    var rows := Grid(c, h, factor, mags);
    assert rows[LineRow(h, k)][i] == Cell(c, LineRow(h, k), Divide(mags[i], factor));
  }

  /**
    At high density, glyph `i` of line `k` is the pair glyph of columns
    `2i` and `2i + 1` in row `LineRow(h, k)`, drawn at `LinePosition(h, k)`.
  */
  lemma WaveformHdGlyphs(h: nat, mags: seq<real>, scale: bool, c: WaveCharset, k: nat, i: nat)
    requires h >= 1 && k < 2 * h - 1 && i < |mags| / 2
    ensures LineRow(h, k) < h
    ensures HandlesPair(c, Cell(c, LineRow(h, k), ScaledAt(h, mags, scale, 2 * i)),
                           Cell(c, LineRow(h, k), ScaledAt(h, mags, scale, 2 * i + 1)))
    ensures Waveform(h, mags, scale, c, true)[k][i] ==
            RenderDouble(c, LinePosition(h, k),
                         Cell(c, LineRow(h, k), ScaledAt(h, mags, scale, 2 * i)),
                         Cell(c, LineRow(h, k), ScaledAt(h, mags, scale, 2 * i + 1)))
  {
    GridGlyphHd(c, h, ScalingFactor(h, Peak(mags), scale), mags, k, i);
  }

  /** `WaveformHdGlyphs` for any factor. */
  lemma GridGlyphHd(c: WaveCharset, h: nat, factor: real, mags: seq<real>, k: nat, i: nat)
    requires h >= 1 && k < 2 * h - 1 && i < |mags| / 2
    ensures LineRow(h, k) < h && i < |RenderHd(Grid(c, h, factor, mags), c)[k]|
    ensures HandlesPair(c, Cell(c, LineRow(h, k), Divide(mags[2 * i], factor)),
                           Cell(c, LineRow(h, k), Divide(mags[2 * i + 1], factor)))
    ensures RenderHd(Grid(c, h, factor, mags), c)[k][i] ==
            RenderDouble(c, LinePosition(h, k),
                         Cell(c, LineRow(h, k), Divide(mags[2 * i], factor)),
                         Cell(c, LineRow(h, k), Divide(mags[2 * i + 1], factor)))
  {
    var rows := Grid(c, h, factor, mags);
    assert rows[LineRow(h, k)][2 * i] == Cell(c, LineRow(h, k), Divide(mags[2 * i], factor));
    assert rows[LineRow(h, k)][2 * i + 1] == Cell(c, LineRow(h, k), Divide(mags[2 * i + 1], factor));
  }

  // ----- Monotone columns -----

  /** Within one column, fullness never increases from the centre line outwards. */
  lemma {:induction false} ColumnNonIncreasing(c: WaveCharset, mag: Scaled, y: nat, y': nat)
    requires y <= y'
    ensures Rank(Cell(c, y', mag)) <= Rank(Cell(c, y, mag))
  {
    if y < y' {
      ColumnNonIncreasing(c, mag, y, y' - 1);
      OneRowOut(c, mag, y' - 1);
    }
  }

  /** Moving one row out never increases fullness. */
  lemma OneRowOut(c: WaveCharset, mag: Scaled, y: nat)
    ensures Rank(Cell(c, y + 1, mag)) <= Rank(Cell(c, y, mag))
    ensures !mag.NaN? && Cell(c, y + 1, mag) != Empty ==> Cell(c, y, mag) == Full
  {
  }

  /**
    For a finite or infinite magnitude, every row beyond a row that is not
    Full is Empty: no cell floats detached from the centre line.
  */
  lemma {:induction false} EmptyBeyondPartial(c: WaveCharset, mag: Scaled, y: nat, y': nat)
    requires !mag.NaN? && y < y'
    requires Cell(c, y, mag) != Full
    ensures Cell(c, y', mag) == Empty
    decreases y' - y
  {
    OneRowOut(c, mag, y);
    if y + 1 < y' {
      EmptyBeyondPartial(c, mag, y + 1, y');
    }
  }

  /**
    A NaN magnitude (a zero divided by the zero factor) is classified by the
    partial rule in every row: Half for Ascii and Blocks, Third for Dots.
  */
  lemma NaNColumn(c: WaveCharset, y: nat)
    ensures Cell(c, y, NaN) == if c == Dots then Third else Half
  {
  }

  // ----- Scaling -----

  /**
    With scaling and a positive peak, every column is finite and no scaled
    magnitude exceeds `h - 0.5`; the loudest reaches it exactly.
  */
  lemma ScaledWithinHeight(h: nat, mags: seq<real>, i: nat)
    requires h >= 1 && i < |mags| && Peak(mags) > 0.0
    ensures ScaledAt(h, mags, true, i).Finite?
    ensures ScaledAt(h, mags, true, i).value <= h as real - 0.5
    ensures mags[i] == Peak(mags) ==> ScaledAt(h, mags, true, i).value == h as real - 0.5
  {
    var m := Peak(mags);
    var f := ScalingFactor(h, m, true);
    ScalingFactorMaps(h, m, true);
    assert A: f > 0.0;
    assert B: mags[i] <= m;
    assert C: f * (h as real - 0.5) == m;
    DivideAtMost(mags[i], m, f, h as real - 0.5);
  }

  /** Hence, with scaling, a positive peak and `h >= 2`, the outermost row is empty in every column. */
  lemma OutermostRowEmpty(h: nat, mags: seq<real>, c: WaveCharset, i: nat)
    requires h >= 2 && i < |mags| && Peak(mags) > 0.0
    ensures Cell(c, h - 1, ScaledAt(h, mags, true, i)) == Empty
  {
    ScaledWithinHeight(h, mags, i);
  }

  /**
    With scaling, the loudest column is Full in every row but the outermost,
    which stays empty once `h >= 2`.
  */
  lemma LoudestColumn(h: nat, mags: seq<real>, c: WaveCharset, i: nat, y: nat)
    requires h >= 1 && i < |mags| && y < h
    requires Peak(mags) > 0.0 && mags[i] == Peak(mags)
    ensures Cell(c, y, ScaledAt(h, mags, true, i)) == if h >= 2 && y == h - 1 then Empty else Full
  {
    ScaledWithinHeight(h, mags, i);
  }

  /**
    Without scaling, a magnitude of at least `h` is Full in every row out to
    the edge: the fill saturates.
  */
  lemma UnscaledSaturation(h: nat, m: real, c: WaveCharset, y: nat)
    requires h >= 1 && y < h && m >= h as real
    ensures Cell(c, y, Divide(m, ScalingFactor(h, m, false))) == Full
  {
    ScalingFactorMaps(h, m, false);
    DivideByReciprocal(m, ScalingFactor(h, m, false), h as real);
    var v := m * h as real;
    assert v >= h as real * h as real by {
      assert (m - h as real) * h as real >= 0.0;
    }
    if h >= 2 {
      assert h as real * h as real >= 2.0 * h as real;
      FullFrom(c, y, v);
    }
  }

  /** A scaled magnitude of at least `y + 1.5` fills row `y`. */
  lemma FullFrom(c: WaveCharset, y: nat, v: real)
    requires v >= y as real + 1.5
    ensures Cell(c, y, Finite(v)) == Full
  {
  }

  /**
    Without scaling, magnitude 1 fills every row but the outermost, whose
    window is 0.5: Half for Ascii and Blocks, Third for Dots.
  */
  lemma UnscaledUnitMagnitude(h: nat, c: WaveCharset, y: nat)
    requires h >= 1 && y < h
    ensures Cell(c, y, Divide(1.0, ScalingFactor(h, 1.0, false))) ==
            if y < h - 1 || h == 1 then Full else if c == Dots then Third else Half
  {
    ScalingFactorMaps(h, 1.0, false);
    DivideByReciprocal(1.0, ScalingFactor(h, 1.0, false), h as real);
  }

  /** `mags` with every magnitude multiplied by `k`. */
  function ScaleAll(mags: seq<real>, k: real): seq<real>
  {
    seq(|mags|, i requires 0 <= i < |mags| => k * mags[i])
  }

  /** Multiplying every magnitude by `k > 0` multiplies the peak by `k`. */
  lemma PeakOfScaled(mags: seq<real>, k: real)
    requires |mags| > 0 && k > 0.0
    ensures Peak(ScaleAll(mags, k)) == k * Peak(mags)
  {
    var s := ScaleAll(mags, k);
    var p := Peak(mags);
    var j :| 0 <= j < |mags| && mags[j] == p;
    assert s[j] == k * p;
    forall i | 0 <= i < |s|
      ensures s[i] <= k * p
    {
      assert mags[i] <= p;
    }
    PeakUnique(s, k * p);
  }

  /** With scaling, the scaled magnitudes do not change when every magnitude is multiplied by `k > 0`. */
  lemma ScaledAtInvariant(h: nat, mags: seq<real>, k: real, i: nat)
    requires h >= 1 && i < |mags| && k > 0.0
    ensures ScaledAt(h, ScaleAll(mags, k), true, i) == ScaledAt(h, mags, true, i)
  {
    var mags' := ScaleAll(mags, k);
    PeakOfScaled(mags, k);
    assert mags'[i] == k * mags[i];
    ScaledQuotient(h, mags[i], Peak(mags), k);
  }

  /** A magnitude and the peak multiplied by the same `k > 0` give the same scaled value. */
  lemma ScaledQuotient(h: nat, x: real, m: real, k: real)
    requires h >= 1 && k > 0.0
    ensures Divide(k * x, ScalingFactor(h, k * m, true)) == Divide(x, ScalingFactor(h, m, true))
  {
    FactorOfScaled(h, m, k);
    DivideCancel(x, ScalingFactor(h, m, true), k);
  }

  /** Multiplying the peak by `k > 0` multiplies the scaling factor by `k`. */
  lemma FactorOfScaled(h: nat, m: real, k: real)
    requires h >= 1 && k > 0.0
    ensures ScalingFactor(h, k * m, true) == k * ScalingFactor(h, m, true)
  {
    ScalingFactorMaps(h, m, true);
    ScalingFactorMaps(h, k * m, true);
    var f := ScalingFactor(h, m, true);
    var f' := ScalingFactor(h, k * m, true);
    if m != 0.0 {
      assert (f' - k * f) * (h as real - 0.5) == 0.0;
    }
  }

  /**
    With scaling, the rendered waveform is the same when every magnitude is
    multiplied by the same positive constant.
  */
  lemma ScaleInvariance(h: nat, mags: seq<real>, k: real, c: WaveCharset, hd: bool)
    requires h >= 1 && k > 0.0
    ensures Waveform(h, ScaleAll(mags, k), true, c, hd) == Waveform(h, mags, true, c, hd)
  {
    if |mags| > 0 {
      var mags' := ScaleAll(mags, k);
      var f := ScalingFactor(h, Peak(mags), true);
      var f' := ScalingFactor(h, Peak(mags'), true);
      forall y | 0 <= y < h
        ensures GridRow(c, y, f', mags') == GridRow(c, y, f, mags)
      {
        forall i | 0 <= i < |mags|
          ensures Divide(mags'[i], f') == Divide(mags[i], f)
        {
          ScaledAtInvariant(h, mags, k, i);
        }
      }
      assert Grid(c, h, f', mags') == Grid(c, h, f, mags);
    }
  }

  // ----- All-zero input -----

  /**
    With scaling, an all-zero input is not rendered blank: the zero factor
    turns every magnitude into 0 / 0 = NaN, so every cell gets the partial
    level (Half for Ascii and Blocks, Third for Dots).
  */
  lemma ZeroInputCells(h: nat, mags: seq<real>, c: WaveCharset, y: nat, i: nat)
    requires h >= 1 && y < h && i < |mags|
    requires forall j :: 0 <= j < |mags| ==> mags[j] == 0.0
    ensures Cell(c, y, ScaledAt(h, mags, true, i)) == if c == Dots then Third else Half
  {
    ScalingFactorMaps(h, Peak(mags), true);
    NaNColumn(c, y);
  }

  /** So, in Blocks at standard density, the centre line of an all-zero input is solid. */
  lemma ZeroInputCentreLine(h: nat, mags: seq<real>, i: nat)
    requires h >= 1 && i < |mags|
    requires forall j :: 0 <= j < |mags| ==> mags[j] == 0.0
    ensures Waveform(h, mags, true, Blocks, false)[h - 1][i] == '█'
  {
    WaveformSdGlyphs(h, mags, true, Blocks, h - 1, i);
    ZeroInputCells(h, mags, Blocks, 0, i);
  }

  // ----- A worked example -----

  /**
    Magnitudes 0, 0.5 and 1 at half-height 2, unscaled, in Blocks at standard
    density: the factor is 0.5, so the scaled magnitudes are 0, 1 and 2.
  */
  lemma SmallBlocksExample()
    ensures Waveform(2, [0.0, 0.5, 1.0], false, Blocks, false) == ["  ▄", " ██", "  ▀"]
  {
    var mags := [0.0, 0.5, 1.0];
    PeakUnique(mags, 1.0);
    assert ScalingFactor(2, 1.0, false) == 0.5;
    assert Divide(0.5, 0.5) == Finite(1.0) && Divide(1.0, 0.5) == Finite(2.0);
    var rows := Grid(Blocks, 2, 0.5, mags);
    assert rows[0] == GridRow(Blocks, 0, 0.5, mags) == [Empty, Full, Full];
    assert rows[1] == GridRow(Blocks, 1, 0.5, mags) == [Empty, Empty, Half];
    assert rows == [[Empty, Full, Full], [Empty, Empty, Half]];
    var lines := RenderSd(rows, Blocks);
    assert lines[0] == RenderRowSd(Blocks, Upper, rows[1]) == "  ▄";
    assert lines[1] == RenderRowSd(Blocks, Middle, rows[0]) == " ██";
    assert lines[2] == RenderRowSd(Blocks, Lower, rows[1]) == "  ▀";
  }
}
