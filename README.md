# esp-display in Dafny

A model of the core of esp-display. This is a 128×160 ST7735 screen that shows the track currently playing on Spotify:

- the album cover at the top;
- the title and artist lines below it, which scroll as a marquee when too wide;
- a progress bar at the bottom.

The model covers three parts of the repository:

- The graphics crate (`graphics/src/lib.rs`):
  - cell indexing of canvases (`point_to_index`);
  - the batched background-filling blit (`draw_canvas_with_background`);
  - the RGB888 to RGB565 repacking of album art (`rgb8_to_rgb565`);
  - the katakana half-width normaliser (`full_katakana_to_half_katakana`);
  - the circular pixel shift and shift reset of the marquee (`draw_current_name_and_artist`);
  - the segment arithmetic of the progress bar (`draw_current_progress`).
- The firmware's main loop (`src/main.rs`):
  - the render loop as a class `Device.Engine` whose `HandleEvent(msg, now)` updates the scroll state, the cooldown timestamp and the progress offset, and logs every redraw;
  - the polling producer as `Device.Producer`, with its change detection and image-cache decisions.
- The desktop simulator's main loop (`sim/src/main.rs`): the same two pieces as `Simulator.Engine` and `Simulator.Producer`. They differ from the firmware in these ways:
  - progress ticks carry their offset, and the render loop stores none;
  - finishing a scroll does not restart the cooldown, which runs from the last track change only;
  - the producer sends the progress ticks itself, UpdateProgress(1) to UpdateProgress(5) after each track;
  - a track without an image URL keeps the cached image, where the firmware drops it;
  - an unreachable server or a failed image fetch ends the producer thread. The firmware's producer skips a round only when `get_playing` sees a status outside 2xx; its transport, JSON and image errors panic instead (see Left out).

Modules, one per file:

- `Common`: option type, bytes, exact rounding, track data.
- `Compositor`: geometry, canvases, `point_to_index`, the background blit.
- `ColorConvert`: `rgb8_to_rgb565`.
- `Katakana`: the normaliser and the grapheme segmentation of its tables.
- `Scroll`: the pure marquee state machine.
- `Marquee`: the pixel remap and the field draws of `draw_current_name_and_artist`.
- `Progress`: the bar arithmetic.
- `RenderLoop`: what both main loops share (redraw log, cooldown, producer decisions).
- `Device` and `Simulator`.

Modelling choices:

- Time is a `nat` count of nanoseconds passed to each event. `Instant::elapsed` saturates at 0.
- Text rendering is a `Marquee.Typesetter` value with two fields:
  - an abstract grapheme segmenter, which must partition its input;
  - an abstract rasteriser, whose canvas for a line is `|text| * char width` by the char height. This is 7×14 for the title font and 6×13 for the artist font, both monospaced JIS X 0201 fonts.
- The per-pixel RGB565 packing of the `rgb565` crate is an abstract function parameter.
- The two RGB888 colours of the bar are kept as their components.
- The render loop's redraws are recorded in a ghost log of `RenderLoop.Redraw` values, each carrying the arguments of the graphics call.

Facts about the code that the model keeps:

- The katakana tables hold 63 characters each.
- The scroll state is one boolean "shifting title" flag with two shifts; there is no idle state. On a newly polled track the flag is set to title and both shifts to 0.
- `UpdateSong(None, ..)` clears only the current track. It leaves the scroll state, the progress offset and the producer's image cache alone.
- With the tables as the code segments them, the normaliser panics on ゛ and ゜ (see Findings). The drawn text uses the corrected tables (see Left out).
- A zero track duration needs no special case in the code. The float quotient is infinite, the saturating cast and the clamp then give the full bar, and `Progress.FilledWidth` returns `BAR_WIDTH`.

## Model

| member | source | states |
|---|---|---|
| Compositor.PointToIndex | graphics/src/lib.rs:405-414 | returns Some exactly when the point minus the offset lies in [0,w)×[0,h); the index is below w·h and is the row-major position of that point |
| Compositor.IndexOfPointAt | graphics/src/lib.rs:405-414 | enumerating a rectangle's points row by row and indexing them gives back each point's enumeration position |
| Compositor.AreasDisjoint | graphics/src/lib.rs:97-100 | the album (0..114, built at lib.rs:65), text (114..141, 124 wide) and progress (141..160, built at lib.rs:251-257) areas do not overlap and lie on the 128×160 screen |
| Compositor.DrawWithBackground | graphics/src/lib.rs:351-368 | one fill over the canvas's bounding box with exactly w·h colours in row-major order; colour i is pixel i if set, else the background |
| Compositor.DrawWithBackgroundAt | graphics/src/lib.rs:351-368 | the colour emitted for cell (x, y) is that cell's pixel, or the background where the cell is unset |
| ColorConvert.Rgb8ToRgb565 | graphics/src/lib.rs:35-47 | the output has round(2/3 · input length) = 2 bytes per pixel, and equals the pixel-by-pixel pair sequence Rgb565Bytes, with channels passed to the packer as (b, g, r) |
| ColorConvert.Rgb565Bytes | graphics/src/lib.rs:38-44 | the reference conversion, pixel by pixel: two output bytes for every three input bytes |
| ColorConvert.Rgb565BytesAt | graphics/src/lib.rs:38-44 | pixel k's pair lands at bytes 2k and 2k+1 |
| ColorConvert.PixelLocality | graphics/src/lib.rs:38-44 | bytes 2k and 2k+1 depend only on pixel k: images agreeing on pixel k agree there, whatever their other pixels |
| ColorConvert.Rgb565BytesAppend | graphics/src/lib.rs:38-44 | converting two concatenated pixel runs is converting each and concatenating |
| Katakana.FindIndex | graphics/src/lib.rs:389-393 | `find_map` over the table: None iff the grapheme is absent, otherwise the first position holding it |
| Katakana.LookupGrapheme | graphics/src/lib.rs:383-398 | ASCII is returned unchanged; a grapheme not in the full table is unchanged; one at full-table position k becomes half[k], and is a panic (None) when the half table has no position k; with tables of equal length it never panics |
| Katakana.NormalizeGraphemes | graphics/src/lib.rs:382-398 | for equal-length tables: one output grapheme per input grapheme, in order, each the lookup of its input |
| Katakana.FullToHalf | graphics/src/lib.rs:370-403 | the normaliser with the by-character tables: graphemes that are all ASCII come back unchanged, concatenated |
| Katakana.FullToHalfGrapheme | graphics/src/lib.rs:389-397 | one grapheme: a full-width table glyph becomes the half-width glyph at its position, any other grapheme is kept |
| Katakana.ConcatAppend | graphics/src/lib.rs:399-402 | the fold that pushes graphemes onto a string maps concatenation of grapheme runs to concatenation of strings |
| Katakana.FullToHalfAppend | graphics/src/lib.rs:382-402 | normalising two grapheme runs one after the other is normalising their concatenation, so with FullToHalfGrapheme the normaliser is fixed grapheme by grapheme |
| Katakana.Join | graphics/src/lib.rs:115-120 | `join`: no parts give the empty string, one part gives itself, several start with the first part and the separator |
| Katakana.JoinAppend | graphics/src/lib.rs:115-120 | joining two non-empty runs of parts is joining each with one separator between |
| Katakana.TablesAligned | graphics/src/lib.rs:372-380 | taken character by character, both tables have 63 entries |
| Katakana.FullTableNotAscii | graphics/src/lib.rs:379 | no full-table entry is ASCII, so none of them takes the fast path |
| Katakana.HalfTableDistinct | graphics/src/lib.rs:373 | half-width table entries are pairwise distinct |
| Katakana.RoundTrip | graphics/src/lib.rs:389-397 | for equal-length tables whose half side has no repeats, looking a non-ASCII full-table entry back up in the half table recovers it |
| Katakana.KatakanaRoundTrip | graphics/src/lib.rs:372-397 | every full-width katakana normalises to its half-width form, and the reverse lookup gives it back |
| Katakana.KatakanaLengthPreserved | graphics/src/lib.rs:382-402 | text made only of table glyphs keeps its length: one half-width character per glyph |
| Katakana.FullSegmentation | graphics/src/lib.rs:379 | `.graphemes(true)` on the full-width string gives its 63 characters, one per grapheme |
| Katakana.HalfSegmentation | graphics/src/lib.rs:373-376 | `.graphemes(true)` on the half-width string gives only 61 graphemes; the last is ﾝﾞﾟ and the first 60 are single characters |
| Katakana.SegmentedTablesMisalign | graphics/src/lib.rs:372-397 | with the tables as the code segments them, ン becomes ﾝﾞﾟ and ゛ indexes past the end of the half table |
| Scroll.Redrawn | graphics/src/lib.rs:139-173 | after a draw the shift is 0 when the unpadded width is at most 124; it is 0 when the shift equals the padded width; otherwise it is unchanged |
| Scroll.Tick | src/main.rs:256-282 | an accepted tick adds 1 to the active shift only; both fields are redrawn; the flag flips exactly when the active shift then reads 0 |
| Scroll.TicksAdd | src/main.rs:254-284 | a run of a + b ticks is a run of a ticks followed by a run of b ticks |
| Scroll.TickPreservesInPhase | src/main.rs:256-282 | ticks keep the inactive shift at 0 and the active shift in [0, period) |
| Scroll.TitlePhase | src/main.rs:256-268 | from a new track, k < period ticks shift the title by k; tick number `period` (the padded width, or 1 if the title fits) brings it to 0 and hands over to the artist line |
| Scroll.ComposerPhase | src/main.rs:269-282 | the artist line's phase: k < period ticks shift it by k; tick number `period` returns to the start state |
| Scroll.FullCycle | src/main.rs:256-282 | title period plus artist period ticks bring the marquee back to its start state |
| Marquee.IndexBijection | graphics/src/lib.rs:153-163 | the loop's write index ((x − shift) rem_euclid w, y) and the read index ((x + shift) mod w, y) are inverse bijections of the canvas cells |
| Marquee.RotateLeftAt | graphics/src/lib.rs:150-165 | the remapped canvas holds at (x, y) the old pixel at ((x + shift) mod W, y) |
| Marquee.RotateZero | graphics/src/lib.rs:150 | a zero shift leaves the canvas unchanged (the remap is skipped) |
| Marquee.RotateFullWidth | graphics/src/lib.rs:167-169 | a shift equal to the padded width is the identity, so resetting it to 0 changes nothing visible |
| Marquee.RotatePeriodic | graphics/src/lib.rs:154-155 | rotating by a shift equals rotating by that shift mod the width |
| Marquee.RotateCompose | graphics/src/lib.rs:150-165 | rotating by a and then by b is rotating by a + b |
| Marquee.RotateInverse | graphics/src/lib.rs:150-165 | rotating back by the rest of the width restores the canvas: no pixel is lost or duplicated |
| Marquee.RemappedStep | graphics/src/lib.rs:163 | writing source cell og_i to its destination extends the partly filled buffer by exactly that cell |
| Marquee.ShiftPixels | graphics/src/lib.rs:150-165 | the remap loop over a fresh buffer of unset cells yields exactly the canvas rotated left by the shift |
| Marquee.ResetInvisible | graphics/src/lib.rs:167-169 | drawing a field with the shift the draw leaves gives the same canvas as drawing it with the shift it was given |
| Marquee.FieldCanvasAt | graphics/src/lib.rs:139-165 | an overflowing field shows at (x, y) the padded text's pixel at ((x + shift) mod padded width, y) |
| Marquee.DrawField | graphics/src/lib.rs:136-173 | a field's draw: text of at most 124 columns is drawn as rendered and its shift becomes 0; wider text is rendered with a two-space gap, rotated by the shift, and a full-wrap shift is reset |
| Marquee.DrawNameAndArtist | graphics/src/lib.rs:87-222 | both lines are drawn from the normalised title and the ", "-joined normalised artists; each shift comes back as Redrawn of its field |
| Marquee.FieldOf | graphics/src/lib.rs:139-148 | the padded width is the unpadded width plus two glyph cells, so it is never smaller |
| Marquee.TitleText | graphics/src/lib.rs:114 | the title line is the normalised track name; when the name's graphemes spell only ASCII, it is that text exactly |
| Marquee.ComposerText | graphics/src/lib.rs:115-120 | the artist line: empty with no artists, the normalised name with one artist, and with several it starts with the first normalised name and ", " |
| Progress.SaturatingSub | graphics/src/lib.rs:264-267 | `saturating_sub`: never more than a, never negative, and a − b when that is not negative |
| Progress.FilledWidth | graphics/src/lib.rs:258-262 | at most the 108-column bar; below it, r is the nearest integer (halves up) to 108·(progress + 1)/duration, i.e. (2r − 1)·d ≤ 216·(p + 1) < (2r + 1)·d; the full bar once that quotient rounds to 108 or more; the full bar for a zero duration |
| Progress.PlayedWidth | graphics/src/lib.rs:264 | the filled width less the 4-pixel knob radius, or 0 when the filled width is at most 4; never more than 104 |
| Progress.RemainingWidth | graphics/src/lib.rs:265-267 | played width + remaining width = bar width − circle radius = 104, for every position and duration |
| Progress.SegmentOf | graphics/src/lib.rs:274-298 | a segment of computed width w is drawn 1 column wide when w is 0 and w wide otherwise, and is black exactly when w is 0 |
| Progress.ProgressBar | graphics/src/lib.rs:264-298 | with p the filled width: the played segment is 1 column and black when p ≤ 4, else p − 4 columns of green; the remaining segment is 1 column and black when p = 108, else 104 − (p − 4 saturating) columns of grey; the knob is 9 pixels of green; without a stand-in the two segments cover 104 columns |
| Progress.BarFits | graphics/src/lib.rs:258-299 | the drawn segments and the knob together fit the 128-column progress area |
| Progress.FilledWidthMonotonic | graphics/src/lib.rs:260-264 | more elapsed seconds never shorten the filled or the played width |
| Progress.FullAtEnd | graphics/src/lib.rs:260-298 | once progress + 1 reaches the duration the bar is full and the remaining segment is a black 1-column stand-in |
| Progress.EmptyAtStart | graphics/src/lib.rs:260-282 | at second 0 of a 300-second track the filled width is 0, the played segment is a black 1-column stand-in, and 104 columns remain |
| RenderLoop.NewTrackRedraws | src/main.rs:220-235 | a changed track redraws, in order, the album with the message's image, the text from shift 0, and the progress at the polled position |
| RenderLoop.Elapsed | src/main.rs:254 | `Instant::elapsed`: now − since, or 0 when now is earlier |
| RenderLoop.CooldownOver | src/main.rs:254 | a scroll tick is accepted exactly when now is more than 3 s past the cooldown's start |
| RenderLoop.CooldownStaysOver | src/main.rs:254 | once more than 3 s have elapsed, later ticks are accepted too until the cooldown restarts |
| RenderLoop.CooldownRestart | src/main.rs:254-267 | a cooldown restarted at now rejects ticks for the next 3 s |
| RenderLoop.Changed | src/main.rs:168-170 | `changed` is true iff the last polled name is not the current track's name |
| RenderLoop.ChangedAgainstLastPoll | src/main.rs:168-171 | after a poll remembers a name, the same name is not a change, any other name is, and the first poll always is |
| RenderLoop.Refetch | src/main.rs:152-160 | the image is fetched exactly when the track has an image URL and either nothing is cached or the last polled name is not this track's |
| RenderLoop.NoRefetchWhileCached | src/main.rs:152-160 | with an image cached, a repeated poll of the same track does not fetch |
| Device.Engine.constructor | src/main.rs:203-208 | title first, both shifts 0, no track, offset 0, cooldown from start-up, nothing drawn |
| Device.Engine.RedrawText | src/main.rs:223-228 | draws both lines with the current shifts, logs the draw, and keeps the shifts the draw resets |
| Device.Engine.ShowSong | src/main.rs:214-237 | a changed track: title first, shifts 0, cooldown restarted, album, text and progress redrawn; an unchanged one: only progress redrawn, scroll state and cooldown kept; both reset the offset and store the track |
| Device.Engine.AdvanceMarquee | src/main.rs:255-283 | the scroll state becomes Tick of the old one for the current track's fields; the cooldown restarts exactly when the flag flips |
| Device.Engine.AdvanceTitle | src/main.rs:256-268 | the title branch: Tick with the title active, the title drawn one column further, the cooldown restarted exactly when the artist line takes over |
| Device.Engine.AdvanceComposer | src/main.rs:269-282 | the artist branch: Tick with the artist line active, drawn one column further, the cooldown restarted exactly when the title takes over |
| Device.Engine.HandleEvent | src/main.rs:212-286 | full new state per message: UpdateSong as in ShowSong or showing the no-song screen; UpdateProgress adds 1 to the offset and redraws at progress_secs + offset; ScrollText after more than 3 s with a track advances the marquee; anything else changes nothing; the inactive shift stays 0 |
| Device.NextCache | src/main.rs:152-166 | no image URL clears the cache; a refetch replaces it by the fetched image; otherwise it is kept |
| Device.FetchOncePerTrack | src/main.rs:152-171 | polling the same track twice fetches at most once: the second poll keeps the cache the first one left |
| Device.Producer.constructor | src/main.rs:140-141 | the producer starts with no last song and no cached image |
| Device.Producer.Poll | src/main.rs:143-199 | a response with a status outside 2xx sends nothing and changes nothing; a track updates the cache, remembers the name and sends one UpdateSong with the cache and the changed flag; nothing playing sends UpdateSong(None, None, had a song) and forgets the name |
| Simulator.Engine.constructor | sim/src/main.rs:132-136 | title first, both shifts 0, no track, cooldown from start-up, nothing drawn |
| Simulator.Engine.RedrawText | sim/src/main.rs:151-156 | draws both lines with the current shifts, logs the draw, and keeps the shifts the draw resets |
| Simulator.Engine.ShowSong | sim/src/main.rs:142-164 | a changed track: title first, shifts 0, `changed_at` set, album, text and progress redrawn; an unchanged one: only progress redrawn |
| Simulator.Engine.AdvanceMarquee | sim/src/main.rs:181-207 | the scroll state becomes Tick of the old one; `changed_at` is not touched when a scroll completes |
| Simulator.Engine.AdvanceTitle | sim/src/main.rs:182-193 | the title branch: Tick with the title active and the title drawn one column further; `changed_at` kept |
| Simulator.Engine.AdvanceComposer | sim/src/main.rs:194-205 | the artist branch: Tick with the artist line active and drawn one column further; `changed_at` kept |
| Simulator.Engine.HandleEvent | sim/src/main.rs:140-210 | full new state per message; UpdateProgress(offset) redraws at progress_secs + offset and stores nothing; ScrollText is accepted only while more than 3 s have passed since the last track change |
| Simulator.NextCache | sim/src/main.rs:59-101 | fetches exactly when Refetch holds, and otherwise keeps the cache; None is a failed fetch |
| Simulator.NoUrlKeepsCache | sim/src/main.rs:59-100 | unlike the firmware, a track without an image URL keeps the previous image |
| Simulator.ProgressTicks | sim/src/main.rs:115-118 | the ticks after a track update are UpdateProgress(1) … UpdateProgress(k) in increasing order |
| Simulator.Producer.constructor | sim/src/main.rs:46-47 | the producer starts with no last song, no cached image, and running |
| Simulator.Producer.Poll | sim/src/main.rs:49-126 | an unreachable server or a failed image fetch stops the producer without sending; a track sends UpdateSong and then UpdateProgress(1..5); nothing playing sends UpdateSong(None, None, had a song) and forgets the name |

## Left out

- Wi-Fi and WPA2-Enterprise bring-up (`src/wifi.rs`): hardware and foreign calls.
- The SPI/ST7735 driver and the simulator window: hardware and UI.
- The HTTP requests of `get_playing`/`get_image` and `ureq`, JSON decoding, and JPEG/PNG decoding with Triangle resizing. These are I/O and foreign code. They are parameters: a `Response` value and a `fetch` function.
- Device.Producer.Poll: the firmware's panics are not modelled. These are the `unwrap`s on the HTTP transport, headers and body reads of `get_playing` and `get_image`, the JSON decoding, the JPEG decoding, and the panic on an image content type other than JPEG. `fetch` is total and `Response` has no transport-failure case.
- Threads, channels (`crossbeam_channel::bounded(16)`, `mpsc`), `delay_ms` and `sleep`: concurrency and timing. Each engine consumes one message at a time at a given `now`. The producers' progress tick threads are left out; so is the firmware producer's `for i in 1..=5` loop, which only sleeps and sends nothing.
- Glyph rasterisation, `LinearLayout` alignment, `TextBox`, `Image`, and the internals of `draw_album_cover` and `draw_no_song`: foreign library behaviour. The engines log these draws with their arguments.
- Common types: `SimpleArtist` and `SimpleTrack` keep only the fields the display reads.
- `OnceLock` lazy initialisation of the katakana tables: they are constants.
- Grapheme segmentation of arbitrary text is an abstract function. Only the two table strings are segmented concretely, using the one rule they need: an Extend character (U+FF9E, U+FF9F) joins the grapheme before it.
- Floating point: the progress width and the length of the converted image use exact integer rounding. The f32 error is not modelled.
- Integer widths: u32 and i32 wrap-around or panics are not modelled. Examples are `progress_secs + progress_offset`, `shift += 1`, and the `as i32` cast of the shift.
- Marquee.DrawNameAndArtist / Katakana.FullToHalf: the drawn text is normalised with the corrected by-character tables, so a title holding ン is drawn with ﾝ and one holding ゛ or ゜ is drawn without the panic of the code as written; the as-written behaviour is only stated, by Katakana.SegmentedTablesMisalign.
- Marquee.DrawNameAndArtist: stops at the two field canvases. Cropping them to 126 columns, placing them at (2, 0) and (2, 14) on the 124×27 text area, and the final blit are not modelled.
- Progress.ProgressBar: gives the widths and paints of the three shapes, not their centred positions in the 128×19 area.
- Marquee.Typesetter: assumes monospaced metrics (width = characters × glyph width, height = glyph height) and that segmentation partitions the string. Glyph pixels are arbitrary.
- Device.Engine.HandleEvent: the log records the arguments of each graphics call, not the pixels drawn. `Marquee` holds the text pixels and `Progress` the bar geometry.

## Findings

| source | as written | input that shows it | evidently intended | confidence | as-written member | corrected member |
|---|---|---|---|---|---|---|
| graphics/src/lib.rs:372-397 | The half-width table is split with `.graphemes(true)`. U+FF9E and U+FF9F are Grapheme_Extend, so they join ﾝ: the half table has 61 entries and the full table 63. | "ン" normalises to "ﾝﾞﾟ" and not "ﾝ". "゛" (or "゜") finds index 61 (62) and `katakana_half[index]` panics out of bounds | position-matched tables of 63 entries each, one character per entry, so that every full-width glyph maps to its own half-width glyph | high (segmentation rule GB9); not executed | Katakana.SegmentedTablesMisalign | Katakana.KatakanaRoundTrip |
