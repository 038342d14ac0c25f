# Waveform renderer of audiotools-rs, modelled in Dafny

This project models the magnitude-to-glyph engine of `src/wave_art.rs`. The
engine turns a sequence of audio magnitudes into a terminal waveform.

- **Scaling.** `draw_waves` finds the peak magnitude and picks a scaling factor.
  With scaling on, the factor is `peak / (wave_height - 0.5)`; a zero peak gives
  the factor 0. With scaling off, the factor is `1 / wave_height`.
- **Classifier.** Each magnitude is divided by the factor. The classifier then
  gives it a fullness level (`Empty`, `Third`, `Half`, `TwoThird`, `Full`) in
  each of `wave_height` rows. Row 0 is the centre line.
- **Character sets.** `Ascii`, `Blocks` and `Dots` each have a partial-fullness
  rule, a one-column glyph table and a two-column glyph table.
- **Assembly.** `render_sd` and `render_hd` print the upper rows from the
  farthest to the nearest, then the centre line, then the lower rows. At high
  density, columns are taken in pairs and an odd last column is dropped.

The Dafny modules follow that structure:

- `Float` (`float.dfy`) models the IEEE-754 outcomes of dividing a magnitude by
  the factor. When the factor is 0, `0 / 0` is NaN and a negative magnitude
  over 0 is −∞. NaN compares false with every threshold.
- `Charset` (`charset.dfy`) holds the three enums, the fullness rank, `partial`,
  `render_single` and `render_double`. The tables are transcribed verbatim. The
  arms the source marks `unreachable!()` are excluded by preconditions:
  `InDomain` for one column, and `HandlesPair` for a pair, which follows exactly
  where the pair table would panic.
- `WaveArt` (`wave_art.dfy`) holds the peak, the scaling factor and the per-cell
  rule `Cell`. `ClassifyRows` is an imperative method that builds the row grid
  with the same loops as the source. The SD/HD assembly functions return the
  printed lines as a `seq<string>`. `DrawWaves` is the whole engine as a method,
  proved equal to the specification function `Waveform`.
- `WaveArtProperties` (`wave_art_properties.dfy`) holds the properties of the
  engine: output order, monotone columns, scaling, scale invariance, all-zero
  input, and a worked example.

Three places where the code differs from what one might expect from its
design. The model follows the code in each case.

- Row `y >= 1` looks at the window `mag - 0.5 - y`, not `mag - 0.5 - (y - 1)`.
  So with scaling and a positive peak, in exact arithmetic, the loudest column
  fills every row except the outermost, and the outermost row is always empty
  when `wave_height >= 2`. See `OutermostRowEmpty` and `LoudestColumn`. Without
  scaling and for `wave_height >= 2`, magnitude 1 leaves the outermost row only
  partly filled (`UnscaledUnitMagnitude`).
- An all-zero input with scaling on does not render blank. The factor is 0,
  every magnitude becomes NaN, and every cell gets the partial level: `Half`
  for Ascii and Blocks, `Third` for Dots. In Blocks the centre line is solid
  `█` (`ZeroInputCells`, `ZeroInputCentreLine`).
- Above the centre line, each Dots pair glyph is the Braille cell whose left
  and right columns show the two levels. Below the centre line the same holds
  for every pair except `(TwoThird, Third)`, whose glyph is the same as that of
  `(Third, TwoThird)` (`DotsLowerPairByColumns`). The table is kept as written.

## Model

| member | source | states |
|---|---|---|
| `Charset.Rank` | src/wave_art.rs:13-20 | the derived order of the levels: ranks run from 0 to 4, rank 0 is exactly Empty and rank 4 is exactly Full |
| `Charset.Max` | src/wave_art.rs:229 | the larger of two levels under the derived order is one of them and ranks at least as high as both |
| `Charset.Partial` | src/wave_art.rs:159-179 | never Empty and always in the charset's domain; Ascii/Blocks give only Half or Full, Full exactly when the window is above 0.66; Dots never gives Half, gives Full exactly above 0.75 and Third exactly when not above 0.5; a NaN window gets the lowest partial level |
| `Charset.PartialMonotone` | src/wave_art.rs:160-178 | a larger window never gets a lower partial level |
| `Charset.RenderSingle` | src/wave_art.rs:181-220 | defined on exactly the levels the charset produces (the unreachable arms are excluded); a cell renders as the charset's blank glyph exactly when it is Empty |
| `Charset.RenderDouble` | src/wave_art.rs:222-309 | defined on exactly the pairs that reach no unreachable arm; an equal pair renders as the single-column glyph of that level; an Ascii pair renders as the single glyph of the fuller level; a pair renders blank exactly when both levels are Empty |
| `Charset.DomainPairsHandled` | src/wave_art.rs:224-307 | any two levels the charset produces form a pair its two-column table handles |
| `Charset.BlocksPairByLitColumns` | src/wave_art.rs:239-245 | an unequal Blocks pair renders as the half block lit on the non-empty sides: left half, right half or full block |
| `Charset.DotsSingleByColumns` | src/wave_art.rs:204-218 | above and below the centre line, a Dots cell is the Braille cell with both columns filled to its level, anchored at the centre line |
| `Charset.DotsUpperPairByColumns` | src/wave_art.rs:246-307 | above the centre line, every Dots pair is the Braille cell whose left column shows the first level and whose right column shows the second |
| `Charset.DotsLowerPairByColumns` | src/wave_art.rs:246-307 | below the centre line, the same holds for exactly the pairs other than (TwoThird, Third), which renders like (Third, TwoThird) |
| `Float.Divide` | src/wave_art.rs:71 | dividing by a non-zero factor gives a finite value; dividing by zero gives NaN exactly for a zero magnitude, +∞ for a positive one and −∞ for a negative one |
| `WaveArt.Peak` | src/wave_art.rs:49-56 | the peak is one of the magnitudes and no magnitude exceeds it |
| `WaveArt.PeakExists` | src/wave_art.rs:49-56 | every non-empty magnitude sequence has a largest element, the value `max_by` returns |
| `WaveArt.PeakMagnitude` | src/wave_art.rs:49-56 | the left-to-right scan returns the peak |
| `WaveArt.ScalingFactor` | src/wave_art.rs:57-65 | with scaling, the factor is 0 exactly for a zero peak and positive exactly for a positive peak; without scaling it is positive |
| `WaveArt.ScalingFactorMaps` | src/wave_art.rs:57-65 | with scaling, the factor maps a non-zero peak to `wave_height - 0.5`, is positive for a positive peak and is 0 for a zero peak; without scaling, it maps magnitude 1 to `wave_height` |
| `WaveArt.Cell` | src/wave_art.rs:70-94 | every level the classifier emits lies in the domain of the active charset's tables, so no unreachable arm is reached |
| `WaveArt.GridRow` | src/wave_art.rs:66-94 | a grid row has one level per magnitude, each in the domain of the active charset's tables |
| `WaveArt.Grid` | src/wave_art.rs:66-94 | the grid has `wave_height` rows of one level per magnitude, and every row can be rendered at both densities without reaching an unreachable arm |
| `WaveArt.ClassifyRows` | src/wave_art.rs:66-94 | the grid has exactly `wave_height` rows of one level per magnitude, in input order, each level being the classification of that magnitude in that row |
| `WaveArt.Reversed` | src/wave_art.rs:105 | the reversed sequence holds element `n-1-k` at position `k` |
| `WaveArt.RenderRowSd` | src/wave_art.rs:108-110 | an SD line has one glyph per level: the single-column glyph of that level |
| `WaveArt.RenderRowHd` | src/wave_art.rs:136-138 | defined whenever every pair `(2i, 2i+1)` avoids the unreachable arms; an HD line has `n/2` glyphs, glyph `i` being the pair glyph of levels `2i` and `2i+1`; an odd last level is dropped |
| `WaveArt.RenderableIsRenderableHd` | src/wave_art.rs:133-155 | a grid whose every level is in the charset's domain has no row pair that reaches an unreachable arm of the two-column table |
| `WaveArt.LinesSd` | src/wave_art.rs:105-127 | each row rendered at SD with the same position, in order |
| `WaveArt.LinesHd` | src/wave_art.rs:133-155 | each row rendered at HD with the same position, in order |
| `WaveArt.RenderSd` | src/wave_art.rs:104-128 | `2h-1` lines; line `k` is row `LineRow(h,k)` rendered at `LinePosition(h,k)`: rows h-1..1 Upper, then row 0 Middle, then rows 1..h-1 Lower; on a rectangular grid every line is as long as a row |
| `WaveArt.RenderHd` | src/wave_art.rs:130-156 | the same line order as SD, every line `n/2` glyphs long |
| `WaveArt.Waveform` | src/wave_art.rs:38-101 | no lines for an empty input; otherwise `2*wave_height - 1` lines of `n` glyphs (SD) or `n/2` glyphs (HD) |
| `WaveArt.DrawWaves` | src/wave_art.rs:38-101 | the imperative engine produces exactly the lines of `Waveform` |
| `WaveArtProperties.WaveformSdGlyphs` | src/wave_art.rs:104-127 | at SD, glyph `i` of line `k` is the single glyph of column `i`'s level in row `LineRow(h,k)` at `LinePosition(h,k)` |
| `WaveArtProperties.GridGlyphSd` | src/wave_art.rs:104-127 | the same for any scaling factor |
| `WaveArtProperties.WaveformHdGlyphs` | src/wave_art.rs:130-156 | at HD, glyph `i` of line `k` is the pair glyph of columns `2i` and `2i+1`, and that pair never reaches an unreachable arm |
| `WaveArtProperties.GridGlyphHd` | src/wave_art.rs:130-156 | the same for any scaling factor |
| `WaveArtProperties.ColumnNonIncreasing` | src/wave_art.rs:70-94 | within a column, fullness rank never increases from the centre line outwards |
| `WaveArtProperties.OneRowOut` | src/wave_art.rs:72-92 | one row further out is never fuller; unless the magnitude is NaN, a non-empty cell has a Full cell just inside it |
| `WaveArtProperties.EmptyBeyondPartial` | src/wave_art.rs:82-94 | for a scaled magnitude that is finite or infinite, if row `y` is not Full then every row `y' > y` is Empty |
| `WaveArtProperties.NaNColumn` | src/wave_art.rs:73-91 | a NaN magnitude gets Half (Ascii, Blocks) or Third (Dots) in every row |
| `WaveArtProperties.ScaledWithinHeight` | src/wave_art.rs:57-71 | with scaling and a positive peak, every scaled magnitude is finite and at most `wave_height - 0.5`; the peak reaches it exactly |
| `WaveArtProperties.OutermostRowEmpty` | src/wave_art.rs:61-94 | with scaling, a positive peak and `wave_height >= 2`, row `wave_height - 1` is Empty in every column |
| `WaveArtProperties.LoudestColumn` | src/wave_art.rs:61-94 | with scaling, the loudest column is Full in every row but the outermost, which is Empty once `wave_height >= 2` |
| `WaveArtProperties.UnscaledSaturation` | src/wave_art.rs:63-94 | without scaling, a magnitude of at least `wave_height` is Full in every row |
| `WaveArtProperties.FullFrom` | src/wave_art.rs:70-94 | a scaled magnitude of at least `y + 1.5` fills row `y` |
| `WaveArtProperties.UnscaledUnitMagnitude` | src/wave_art.rs:32-94 | without scaling, magnitude 1 fills every row but the outermost; for `wave_height >= 2` the outermost row is Half (Ascii, Blocks) or Third (Dots), and for `wave_height == 1` the only row is Full |
| `WaveArtProperties.PeakOfScaled` | src/wave_art.rs:49-56 | multiplying every magnitude by `k > 0` multiplies the peak by `k` |
| `WaveArtProperties.FactorOfScaled` | src/wave_art.rs:57-62 | multiplying the peak by `k > 0` multiplies the scaling factor by `k` |
| `WaveArtProperties.ScaledQuotient` | src/wave_art.rs:57-71 | with scaling, a magnitude and the peak multiplied by the same `k > 0` give the same scaled value, including NaN and the infinities |
| `WaveArtProperties.ScaledAtInvariant` | src/wave_art.rs:49-71 | with scaling, the scaled magnitudes are unchanged when every magnitude is multiplied by `k > 0` |
| `WaveArtProperties.ScaleInvariance` | src/wave_art.rs:38-101 | with scaling, the rendered lines are identical when every magnitude is multiplied by the same `k > 0` |
| `WaveArtProperties.ZeroInputCells` | src/wave_art.rs:57-91 | with scaling, an all-zero input gets Half (Ascii, Blocks) or Third (Dots) in every cell, not Empty |
| `WaveArtProperties.ZeroInputCentreLine` | src/wave_art.rs:113-119 | so, in Blocks at SD, the centre line of an all-zero input is all `█` |
| `WaveArtProperties.SmallBlocksExample` | src/wave_art.rs:38-127 | magnitudes 0, 0.5 and 1 at `wave_height` 2, unscaled, Blocks, SD, print the lines `"  ▄"`, `" ██"` and `"  ▀"` |

## Left out

- `src/main.rs` is not part of this model. It covers MP3 decoding, CLI parsing, terminal geometry and the RMS aggregation of samples into magnitudes. Those are I/O and foreign code.
- Printing: each `println!` of `render_sd`/`render_hd` becomes one element of the returned sequence of lines.
- Floating point: magnitudes, the factor and the thresholds are exact reals. f32 rounding of the division and of the constants 0.66, 0.75 and 0.5 is not modelled. The only IEEE-754 behaviour modelled is division by the zero factor (NaN, ±∞) and NaN comparing false.
- NaN or infinite input magnitudes are not modelled, so neither is the `expect` panic in `max_by` on a NaN comparison. Negative magnitudes are allowed, as the source's `f32` allows them.
- `wave_height` is a `nat` and `wave_height as f32` is modelled as exact; an f32 represents every integer only up to 2^24. A non-empty input with `wave_height == 0` indexes `rows[0]` of an empty vector, so `DrawWaves` requires `wave_height >= 1` whenever the input is non-empty. An empty input returns no lines for any height.
- The `let &[a, b] = fullness else panic!` destructuring in `render_double`: `chunks_exact(2)` always yields two elements, so `RenderDouble` takes the two levels as separate arguments.
- The `clap::ValueEnum` derive on `WaveCharset` is library glue.
- EmptyBeyondPartial: does not cover a NaN scaled magnitude (a zero magnitude over the zero factor). There every row is partial, not Empty; `NaNColumn` states that case.
- Dots glyphs on the centre line follow no column rule, so they have no reference lemma. They are covered only by the verbatim table and by the contracts of `RenderSingle`/`RenderDouble`.
