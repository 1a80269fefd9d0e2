# Music visualiser core in Dafny

A functional model of the deterministic logic in the p5.js music visualiser
(`sketch.js`). The rest of that file is drawing calls, DOM wiring and
p5.sound transport. The model covers:

- **Playback-time labels** (`TimeFormat`, `Decimal`). `formatTime` turns a
  playback position into an `m:ss` label. On a non-negative position the label
  depends only on the whole seconds elapsed. An independent reader
  (`ParseTime`) accepts exactly the strings the formatter produces, and reading
  a label gives back `60*m + ss`. The per-frame guard refreshes both labels
  only when the duration is known. A NaN duration is modelled as `None`.
- **The particle network** (`Network`). Points are immutable records over
  exact `real`s. Boundary reflection negates each velocity component on its own
  axis. The pulse target is `size * (1 + 2*level)`. The connection pass visits
  every pair `i < j` exactly once and in order, and it draws a line exactly
  when the two points are closer than `70 + level*200`. Distance is compared on
  squares, so no `sqrt` is needed, and a negative threshold joins nothing.
  `WithinIsDist` shows that this is the same test as `dist(a, b) < c` for
  every threshold. `DrawFrame` puts one frame
  together: it picks the level, updates the points and joins close pairs.
- **Resizing** (`Resize`). The new canvas is a square of side
  `min(0.9*innerWidth, 0.9*innerHeight)`. Each coordinate is mapped to
  `pos/old*new`. This keeps in-bounds points in bounds, and keeps point order
  and every field other than the position. In exact arithmetic it is also
  undone by resizing back.

The arithmetic uses Dafny's exact `real` in place of JavaScript doubles. This
is an idealisation: the round-trip lemmas of `Resize` hold only in exact
arithmetic (see "## Left out"). The connection threshold is exactly 70 at
level 0 (`BASE_CONNECT_DIST`, sketch.js:5 and 68). The reflection test is the
plain "outside `[0, width]`" test and ignores which way the point is moving
(sketch.js:77-78).

## Model

| member | source | states |
|---|---|---|
| Decimal.NatToString | sketch.js:189 | `${n}` of a whole number up to 2^53 is a canonical numeral: only digits, at least one, no leading zero; it is one character exactly when n < 10 |
| Decimal.ParseNatToString | sketch.js:189 | reading the printed numeral of n gives n back |
| Decimal.NatToStringParse | sketch.js:189 | printing the value of any canonical numeral gives that numeral back, so printing and reading are inverse |
| Decimal.NatToStringInjective | sketch.js:189 | different numbers print as different numerals |
| TimeFormat.FormatTime | sketch.js:186-190 | for a non-negative position, `formatTime` with JavaScript's floor and truncating `%` gives the same label as the whole-seconds formatter at floor(seconds) |
| TimeFormat.FloorFields | sketch.js:187-188 | `Math.floor(s/60)` is floor(s) div 60, and `Math.floor(s % 60)` (JS remainder) is floor(s) mod 60, for s >= 0 |
| TimeFormat.PadSecondsFields | sketch.js:188-189 | for a value below 60 the seconds field is exactly two digits that read back as the value, and its first digit is '0' exactly when the value is below 10 |
| TimeFormat.FormatFields | sketch.js:186-190 | the label is a canonical minutes numeral reading as n div 60, then a single ':' (the only colon), then two digits reading as n mod 60, which is in 0..59, with a leading '0' exactly when it is below 10 |
| TimeFormat.ParseFormat | sketch.js:186-190 | round trip: parsing the label of n gives n |
| TimeFormat.FormatParse | sketch.js:186-190 | a string parses to n if and only if it is the label of n |
| TimeFormat.FormatInjective | sketch.js:186-190 | two whole-second counts have the same label only if they are equal |
| TimeFormat.TimeLabels | sketch.js:59-65 | the labels are refreshed if and only if the duration is a number, and each label then reads back as the whole seconds of the current time and of the duration |
| Network.FrameLevel | sketch.js:53-56 | the level is the measured amplitude when audio is loaded, playing and a song exists, and 0 otherwise; a measured level in [0,1] gives a level in [0,1] |
| Network.Reflect | sketch.js:77-78 | vel.x is negated exactly when pos.x < 0 or pos.x > width, vel.y exactly when pos.y < 0 or pos.y > height, each axis on its own; position, size, filled and target size are unchanged |
| Network.ReflectInside | sketch.js:77-78 | a point inside the canvas is left exactly as it was |
| Network.ReflectInvolution | sketch.js:77-78 | reflection keeps the speed on each axis, and a second reflection at the same position undoes the first, so a component changes sign at most once per frame |
| Network.ReflectTurnsBack | sketch.js:77-78 | a point outside an edge and moving further out is turned back toward the canvas on that axis |
| Network.ReflectIgnoresDirection | sketch.js:77-78 | a point outside an edge but already moving back toward the canvas is turned away from it again, because the test ignores the direction of motion |
| Network.PulseTarget | sketch.js:81 | the target equals the size at level 0, is at least the size when size and level are non-negative, and at most three times the size when the level is at most 1 |
| Network.PulseTargetMonotone | sketch.js:81 | for a non-negative size, a higher level never gives a smaller pulse target |
| Network.UpdatePoint | sketch.js:75-81 | after the move, a point keeps its new position, its size and its filled flag, gets the reflected velocity at the new position, and gets the pulse target for the level |
| Network.UpdatePoints | sketch.js:71-89 | the update loop updates every point, in order, and nothing else |
| Network.ConnectDist | sketch.js:68 | the threshold is at least 70 for a non-negative level and at most 270 for a level in [0,1] |
| Network.SquaresOrdered | sketch.js:95-96 | for non-negative d and c, d < c if and only if d*d < c*c |
| Network.WithinIsDist | sketch.js:95-96 | for every threshold c, including a negative one, the squared test holds exactly when the Euclidean distance is below c, as `d < CONNECT_DIST` does |
| Network.RowPrefixFacts | sketch.js:93 | row i of the inner loop visits exactly the pairs (i, b) with i < b < n, n - i - 1 of them, each once and in increasing order |
| Network.RowsBelowFacts | sketch.js:92-93 | the first i rows visit exactly the pairs a < b < n with a < i, each once and in increasing order, and the count is the number of such pairs |
| Network.PairsBelowAll | sketch.js:92-93 | the nested loop over n points makes n(n-1)/2 visits |
| Network.DrawnMembers | sketch.js:96-104 | a pair is drawn if and only if it was visited and is within the threshold |
| Network.DrawnAscending | sketch.js:92-104 | lines are drawn in the order their pairs were visited, so no line is drawn twice |
| Network.DrawnAppend | sketch.js:92-106 | drawing over two stretches of visits one after the other gives the lines of the first followed by those of the second |
| Network.RowStep | sketch.js:93-104 | one more inner-loop step visits (i, j) and draws it exactly when it is within the threshold |
| Network.ConnectRow | sketch.js:93-105 | the inner loop appends the visits (i, i+1) .. (i, n-1) in order, and appends exactly the joined pairs among them |
| Network.PassFacts | sketch.js:92-106 | over the whole pass, the visits are exactly the pairs i < j < n, in strictly increasing order and n(n-1)/2 of them, and the lines are exactly the joined pairs, in order |
| Network.ConnectionPass | sketch.js:92-106 | the nested loop visits exactly the pairs i < j < n, never a point with itself, each once and in increasing order, n(n-1)/2 in all; it draws a pair if and only if the two points are closer than the threshold |
| Network.QuietLinesShort | sketch.js:92-96 | at level 0 every drawn line is shorter than 70 |
| Network.JoinedMonotone | sketch.js:68 | a pair joined at some level is joined at every higher level, since the threshold grows with the level |
| Network.DrawFrame | sketch.js:50-106 | one frame updates every point as UpdatePoint does at the frame's level (new position, reflected velocity, pulse target, size and filled flag kept), and draws a line between updated points exactly when they are within the frame's threshold, in visiting order; when nothing is playing, every drawn line is shorter than 70 |
| Resize.Rescale | sketch.js:200-201 | the new coordinate is proportional (r*old == x*new), and a coordinate in [0, old] lands in [0, new] |
| Resize.RescaleInverse | sketch.js:200-201 | resizing to a new side and back restores the coordinate |
| Resize.RescaleCompose | sketch.js:200-201 | two resizes in a row equal one resize from the first side to the last |
| Resize.CanvasSide | sketch.js:196 | the new side is the smaller of 0.9*innerWidth and 0.9*innerHeight |
| Resize.ResizePoint | sketch.js:199-202 | only the position changes; each axis is scaled proportionally; a point inside the old canvas is inside the new one |
| Resize.ResizePoints | sketch.js:199-202 | the resize loop keeps point order and count, rescales every point, and keeps in-bounds points in bounds |
| Resize.WindowResized | sketch.js:193-202 | the canvas becomes a non-negative square of the computed side, and every point inside the old canvas lands inside the new one |
| Resize.ResizeRoundTrip | sketch.js:199-202 | resizing a point to a canvas and back restores it exactly |

## Left out

- Position integration (sketch.js:73-75) goes through p5's `Vector.lerp` and `add`, which are library code not shown here. The moved position is an input (`moved`) to `UpdatePoint`, `UpdatePoints` and `DrawFrame`.
- Pulse smoothing and line opacity (sketch.js:82-83, 97-99) use p5's `lerp` and `map` and the `p.pulse || p.size` and `a.lineAlpha || 0` falsy fallbacks. Their results depend on library code and floating point. The `pulse`, `lineAlpha` and `mouseLineAlpha` fields are therefore not part of `Point`.
- The mouse overlay (sketch.js:109-130) depends on ambient mouse state and the global `window.mousePulse`.
- All drawing calls (`background`, `stroke`, `fill`, `ellipse`, `line`, `strokeWeight`) are rendering side effects.
- Setup (sketch.js:15-48) uses random initial positions, velocities, sizes and fill flags. It also does DOM lookups and registers event listeners. The number of points (`NUM_POINTS`, 35) only matters there, so the network is modelled for any number of points.
- `handleFile`, `togglePlay`, `scrubAudio` and `changeVolume` (sketch.js:135-184) are asynchronous file loading and p5.sound transport on objects whose code is not shown.
- The FFT analysis, `amp.getLevel()` and the progress-slider easing (sketch.js:55-62) are foreign audio analysis and a DOM update. The measured level is an input to `FrameLevel`.
- TimeFormat.FormatTime: only defined for non-negative input. The caller only passes `currentTime()` and a duration that is not NaN (sketch.js:61). JavaScript's results for negative or NaN input are not modelled.
- Decimal.NatToString: matches `${n}` only for n up to 2^53 (9007199254740992), where every integer is an exact double. Above 2^53 JavaScript prints the shortest digits that read back as the same double, padded with zeros (`${2**64}` is "18446744073709552000"), and from 10^21 on it uses exponent form (`1e+21`). So `formatTime` of a position of 60·2^53 seconds (about 5.4·10^17) or more is not modelled.
- TimeFormat.TimeLabels: the duration is a real or NaN (`None`). An infinite duration passes the `isNaN` guard at sketch.js:61 and prints as `Infinity:NaN`; this is not modelled.
- Resize.RescaleInverse: holds only in exact arithmetic. In doubles, `(x / 800) * 1403.1` and back maps 300 to 526.1624999999999 and then to 299.99999999999994.
- Resize.RescaleCompose: holds only in exact arithmetic; two rounded rescales can differ from one.
- Resize.ResizeRoundTrip: holds only in exact arithmetic, for the same reason as RescaleInverse. The in-bounds properties do not depend on this, because rounding is monotone.
- Resize.Rescale: requires a positive old side. On a zero-sized canvas (a window with no inner area) JavaScript would produce NaN or Infinity coordinates, which exact reals cannot represent.
- Grid and circle visual modes and the mode selector do not appear in `sketch.js` and are not part of this model.
