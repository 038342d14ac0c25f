/**
  Character sets of the waveform renderer: the fullness levels a cell can
  have, the partial-fullness rule of each character set, and the glyph
  tables for one column (standard density) and for a pair of columns
  (high density).

  Every table is total over the levels its character set can be handed;
  the levels the source marks unreachable are excluded by the tables'
  preconditions (`InDomain`, `HandlesPair`).
*/
module Charset {
  import opened Float

  /** The glyph palette used for rendering. */
  datatype WaveCharset = Ascii | Blocks | Dots

  /** Approximate vertical fill of one character cell, ordered Empty < ... < Full. */
  datatype BlockFullness = Empty | Third | Half | TwoThird | Full

  /** Whether a row lies above the centre line, below it, or is the centre line. */
  datatype Position = Upper | Lower | Middle

  /** The place of a level in the derived ordering of `BlockFullness`. */
  function Rank(f: BlockFullness): (r: nat)
    ensures r <= 4
    ensures r == 0 <==> f == Empty
    ensures r == 4 <==> f == Full
  {
    match f
    case Empty => 0
    case Third => 1
    case Half => 2
    case TwoThird => 3
    case Full => 4
  }

  /** The larger of two levels (`Ord::max`, which returns `b` on a tie). */
  function Max(a: BlockFullness, b: BlockFullness): (r: BlockFullness)
    ensures r == a || r == b
    ensures Rank(a) <= Rank(r) && Rank(b) <= Rank(r)
  {
    if Rank(a) <= Rank(b) then b else a
  }

  /** The levels character set `c` produces and its single-column table handles. */
  predicate InDomain(c: WaveCharset, f: BlockFullness)
  {
    match c
    case Ascii => f == Empty || f == Half || f == Full
    case Blocks => f == Empty || f == Half || f == Full
    case Dots => f != Half
  }

  /** The pairs on which `RenderDouble` for `c` reaches no unreachable arm. */
  predicate HandlesPair(c: WaveCharset, a: BlockFullness, b: BlockFullness)
  {
    match c
    case Ascii => InDomain(Ascii, Max(a, b))
    case Blocks => a == b ==> InDomain(Blocks, a)
    case Dots => InDomain(Dots, a) && InDomain(Dots, b)
  }

  /** The glyph of an empty cell. */
  function Blank(c: WaveCharset): char
  {
    if c == Dots then '⠀' else ' '
  }

  /**
    The level of a cell whose windowed magnitude lies strictly between empty
    and full. Ascii and Blocks have two levels (above 0.66 is Full, otherwise
    Half); Dots has three (above 0.75 Full, above 0.5 TwoThird, otherwise
    Third). A NaN window compares false with every threshold.
  */
  function Partial(c: WaveCharset, x: Scaled): (r: BlockFullness)
    ensures InDomain(c, r) && r != Empty
    ensures c != Dots ==> (r == Half || r == Full) && (r == Full <==> Above(x, 0.66))
    ensures c == Dots ==> r != Half
    ensures c == Dots ==> (r == Full <==> Above(x, 0.75))
    ensures c == Dots ==> (r == Third <==> !Above(x, 0.5))
  {
    match c
    case Ascii | Blocks =>
      if Above(x, 0.66) then Full else Half
    case Dots =>
      if Above(x, 0.75) then Full
      else if Above(x, 0.5) then TwoThird
      else Third
  }

  /** The glyph of one cell at standard density. */
  function RenderSingle(c: WaveCharset, pos: Position, f: BlockFullness): (r: char)
    requires InDomain(c, f)
    ensures r == Blank(c) <==> f == Empty
  {
    match c
    case Ascii =>
      (match f
       case Empty => ' '
       case Half => (match pos case Upper => ',' case Lower => '\'' case Middle => '*')
       case Full => '#'
       case _ => assert false; ' ')
    case Blocks =>
      (match f
       case Empty => ' '
       case Half => (match pos case Upper => '▄' case Lower => '▀' case Middle => '█')
       case Full => '█'
       case _ => assert false; ' ')
    case Dots =>
      (match f
       case Empty => '⠀'
       case Third => (match pos case Upper => '⠤' case Lower => '⠉' case Middle => '⠒')
       case TwoThird => (match pos case Upper => '⠶' case Lower => '⠛' case Middle => '⠿')
       case Full => '⠿'
       case Half => assert false; '⠀')
  }

  /**
    The glyph of a pair of adjacent cells at high density: `a` is the left
    column, `b` the right one.
  */
  function RenderDouble(c: WaveCharset, pos: Position, a: BlockFullness, b: BlockFullness): (r: char)
    requires HandlesPair(c, a, b)
    ensures a == b ==> InDomain(c, a) && r == RenderSingle(c, pos, a)
    ensures c == Ascii ==> r == RenderSingle(Ascii, pos, Max(a, b))
    ensures r == Blank(c) <==> a == Empty && b == Empty
  {
    match c
    case Ascii =>
      // No half-width ASCII glyphs: the pair shows its fuller column.
      (match Max(a, b)
       case Empty => ' '
       case Half => (match pos case Upper => ',' case Lower => '\'' case Middle => '*')
       case Full => '#'
       case _ => assert false; ' ')
    case Blocks =>
      if a == b then RenderSingle(c, pos, a)
      else if a == Empty then '▐'
      else if b == Empty then '▌'
      else '█'
    case Dots =>
      if a == b then RenderSingle(c, pos, a)
      else
        match (a, b)
        case (Empty, Third) => (match pos case Upper => '⠠' case Lower => '⠈' case Middle => '⠐')
        case (Empty, TwoThird) => (match pos case Upper => '⠰' case Lower => '⠘' case Middle => '⠸')
        case (Empty, Full) => '⠸'
        case (Third, Empty) => (match pos case Upper => '⠄' case Lower => '⠁' case Middle => '⠇')
        case (Third, TwoThird) => (match pos case Upper => '⠴' case Lower => '⠙' case Middle => '⠿')
        case (Third, Full) => (match pos case Upper => '⠼' case Lower => '⠹' case Middle => '⠿')
        case (TwoThird, Empty) => (match pos case Upper => '⠆' case Lower => '⠃' case Middle => '⠇')
        case (TwoThird, Third) => (match pos case Upper => '⠦' case Lower => '⠙' case Middle => '⠿')
        case (TwoThird, Full) => (match pos case Upper => '⠾' case Lower => '⠻' case Middle => '⠿')
        case (Full, Empty) => '⠇'
        case (Full, Third) => (match pos case Upper => '⠧' case Lower => '⠏' case Middle => '⠿')
        case (Full, TwoThird) => (match pos case Upper => '⠷' case Lower => '⠟' case Middle => '⠿')
        case _ => assert false; '⠀'
  }

  /** Every pair of levels that `c` produces is one `RenderDouble` handles. */
  lemma DomainPairsHandled(c: WaveCharset, a: BlockFullness, b: BlockFullness)
    requires InDomain(c, a) && InDomain(c, b)
    ensures HandlesPair(c, a, b)
  {
  }

  /** Partial fullness never decreases as the window value grows. */
  lemma PartialMonotone(c: WaveCharset, x: real, y: real)
    requires x <= y
    ensures Rank(Partial(c, Finite(x))) <= Rank(Partial(c, Finite(y)))
  {
  }

  // ----- Reference definitions the glyph tables are checked against -----

  /** The half-block glyph whose lit halves are `left` and `right`. */
  function HalfBlocks(left: bool, right: bool): char
  {
    if left && right then '█'
    else if left then '▌'
    else if right then '▐'
    else ' '
  }

  /**
    For an unequal pair, the Blocks table only asks which columns hold
    anything: the pair renders as the half-block lit on those sides.
  */
  lemma BlocksPairByLitColumns(pos: Position, a: BlockFullness, b: BlockFullness)
    requires a != b
    ensures RenderDouble(Blocks, pos, a, b) == HalfBlocks(a != Empty, b != Empty)
  {
  }

  /**
    The dots of one column of a 2x3 Braille cell (bit 0 top, bit 2 bottom)
    that show level `f`: above the centre line the dots sit at the bottom
    of the cell, below it at the top, so they always touch the centre line.
  */
  function ColumnDots(pos: Position, f: BlockFullness): (bits: nat)
    requires pos != Middle && InDomain(Dots, f)
    ensures bits < 8
  {
    match f
    case Empty => 0
    case Third => if pos == Upper then 4 else 1
    case TwoThird => if pos == Upper then 6 else 3
    case Full => 7
  }

  /** The Braille pattern with the given left-column and right-column dots. */
  function Braille(left: nat, right: nat): char
    requires left < 8 && right < 8
  {
    (0x2800 + left + 8 * right) as char
  }

  /** Above and below the centre line, a Dots cell fills both of its columns to its level. */
  lemma DotsSingleByColumns(pos: Position, f: BlockFullness)
    requires pos != Middle && InDomain(Dots, f)
    ensures RenderSingle(Dots, pos, f) == Braille(ColumnDots(pos, f), ColumnDots(pos, f))
  {
  }

  /**
    Above the centre line, every Dots pair renders as the Braille cell whose
    left column shows `a` and whose right column shows `b`.
  */
  lemma DotsUpperPairByColumns(a: BlockFullness, b: BlockFullness)
    requires InDomain(Dots, a) && InDomain(Dots, b)
    ensures RenderDouble(Dots, Upper, a, b) == Braille(ColumnDots(Upper, a), ColumnDots(Upper, b))
  {
  }

  /**
    Below the centre line the same holds for every pair except
    (TwoThird, Third), whose glyph is the one of (Third, TwoThird).
  */
  lemma DotsLowerPairByColumns(a: BlockFullness, b: BlockFullness)
    requires InDomain(Dots, a) && InDomain(Dots, b)
    ensures (a, b) != (TwoThird, Third) <==>
            RenderDouble(Dots, Lower, a, b) == Braille(ColumnDots(Lower, a), ColumnDots(Lower, b))
    ensures RenderDouble(Dots, Lower, TwoThird, Third) == RenderDouble(Dots, Lower, Third, TwoThird)
  {
  }
}
