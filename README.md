# CryptoCAPTCHA hash preview in Dafny

This is a Dafny model of the client-side hash preview of the CryptoCAPTCHA widget. The user picks two number tiles. The page joins the two numbers, hashes the result and shows the digest with its last character highlighted. The digest counts as valid exactly when it ends in `f`. The modelled code is `src/static/script.js` and `src/static/hash-optimizer.js`; the block at `script.js:1-90` repeats `hash-optimizer.js` and is modelled once.

The modules follow the code:

- `JsNumber`: the 32-bit integer semantics of `<< 5` and `&`, `Math.abs`, and `Number.prototype.toString(radix)` with its inverse.
- `JsString`: `padStart`, `slice(0, -1)`, `slice(-1)` and `endsWith`.
- `Keys`: the cache keys `${i}${j}`.
- `SimpleHash`: the fallback digest `generateSimpleHash`. `Accumulate` is the reference fold (each character code c takes h to ToInt32(31h + c)). `Step` is the loop body as written, and `StepIsMul31` proves the two agree.
- `Digest`: `computeHash` and the byte-to-hex rendering. A `Platform` value carries the browser facilities (`crypto.subtle.digest` with its settlement, `TextEncoder`, `window.sha256`, `window.sha256Loaded` and `requestIdleCallback`). These facilities are functions and flags of that value.
- `Display`: `displayHashResult` and the other states of the `#hash-value` element, as the class `HashDisplay`.
- `Preview`: the two versions of `updateHashPreview`.
  - `DebouncedPreview` (script.js:160-305) has one pending-timer slot, digests still in flight, and `calculateHashWithFallback`.
  - `MemoPreview` (script.js:398-455) has the memo table `hashCache` and the idle-time warmer.
  - The timers and promise settlements are methods. A caller invokes them in any order.
- `Tiles`: the tile and input logic of the two click handlers, the reset handler and `clearSelection`. `TileBoard` owns both previews, because the page attaches both pipelines' click listeners to the same `.number-tile` elements (script.js:294-300 and 321-371).
- `HashOptimizer`: the placeholder table and the batch-wise populator, as the class `GradualPopulator`. A batch's 5 ms budget is the number of keys it visits.

The code behaves as follows, and the model follows it:

- The code has no stale-response guard. A digest that settles after the inputs have changed still overwrites the element (`Preview.StaleResponseShown`).
- The memoised version (script.js:426-455) neither debounces nor cancels anything. Each cache miss schedules its own computation.
- The debounced version never consults a cache.
- The warmer of script.js:409-424 covers a 50 x 50 window. The placeholder table of hash-optimizer.js covers 100 x 100. The two caches are distinct objects.

## Model

| member | source | states |
|---|---|---|
| JsNumber.ToInt32 | src/static/script.js:500-501 | the int32 conversion yields a value in [-2^31, 2^31) congruent to its argument modulo 2^32 |
| JsNumber.ToInt32Unique | src/static/script.js:500-501 | an int32 congruent to x modulo 2^32 is ToInt32(x) |
| JsNumber.ToInt32Congruent | src/static/script.js:500-501 | congruent arguments have the same int32 conversion |
| JsNumber.ShiftLeft5Congruent | src/static/script.js:500 | for an int32 h, `h << 5` is congruent to 32h modulo 2^32 |
| JsNumber.AndNatSelf | src/static/script.js:501 | the bitwise conjunction of a bit pattern with itself is that pattern |
| JsNumber.AndSelf | src/static/script.js:501 | `x & x` is the int32 conversion of x |
| JsNumber.ShiftLeft5 | src/static/script.js:500 | `x << 5`: the operand converted to int32, multiplied by 32 and converted again; the result is an int32 |
| JsNumber.BitwiseAnd | src/static/script.js:501 | `x & y`: both operands as 32-bit patterns, their bitwise conjunction read back as an int32 |
| JsNumber.Abs | src/static/script.js:505 | `Math.abs` returns x or -x and is never negative |
| JsNumber.DigitValue | src/static/script.js:505 | a character's digit value below 16 names the digit that renders as that character |
| JsNumber.ToStringRadix | src/static/script.js:505 | `n.toString(radix)` for a non-negative integer: most significant digit first, no leading zeros, lower-case letters (its properties are `ParseToString` and the two length lemmas) |
| JsNumber.ParseToString | src/static/script.js:505 | `n.toString(radix)` uses only digits of the radix and reads back as n |
| JsNumber.ParseAppend | src/static/hash-optimizer.js:28 | two digit strings joined read as a * base^|b| + b |
| JsNumber.ParseLeadingZeros | src/static/script.js:505 | zero padding on the left does not change a digit string's value |
| JsNumber.ToStringLengthAtMost | src/static/script.js:505 | n < base^k gives at most k digits |
| JsNumber.ToStringLengthAtLeast | src/static/hash-optimizer.js:28 | base^(k-1) <= n gives at least k digits |
| JsNumber.AllDigitsAppend | src/static/script.js:509 | joining two digit strings gives a digit string |
| JsNumber.AllDigitsPrefix | src/static/script.js:509 | a prefix of a digit string is a digit string |
| JsString.PadStart | src/static/script.js:505 | `s.padStart(len, fill)` with a one-character fill (its properties are `PadStartShape`) |
| JsString.DropLast | src/static/script.js:481 | `s.slice(0, -1)`: all but the last character, "" for "" |
| JsString.LastSlice | src/static/script.js:482 | `s.slice(-1)`: the last character, "" for "" |
| JsString.EndsWith | src/static/script.js:488 | `s.endsWith(suffix)` (its one-character case is `EndsWithChar`) |
| JsString.PadStartShape | src/static/script.js:505 | `padStart` gives max(len, |s|) characters: fill characters, then s |
| JsString.SlicesSplit | src/static/script.js:481-482 | `slice(0, -1)` and `slice(-1)` rejoin to the string, and the second is exactly its last character |
| JsString.EndsWithChar | src/static/script.js:488 | `endsWith(c)` holds iff the string is non-empty and its last character is c |
| Keys.PairKey | src/static/hash-optimizer.js:28 | `${i}${j}`: the decimal renderings of i and j joined (its properties are `PairKeyShape` and `PairKeyInjective`) |
| Keys.FourDigitRendering | src/static/hash-optimizer.js:28 | a four-digit number renders as four decimal digits that read back as the number |
| Keys.PairKeyShape | src/static/hash-optimizer.js:28 | `${i}${j}` for four-digit i, j has 8 decimal digits and reads as i * 10000 + j |
| Keys.PairKeyInjective | src/static/hash-optimizer.js:26-31 | distinct pairs of four-digit numbers give distinct keys |
| SimpleHash.Step | src/static/script.js:500-501 | one pass of the loop body leaves an int32 in the accumulator |
| SimpleHash.StepIsMul31 | src/static/script.js:500-501 | the shift, subtract, add and mask of the loop body equal ToInt32(31h + c) |
| SimpleHash.Accumulate | src/static/script.js:497-502 | the accumulator after every prefix stays within [-2^31, 2^31) |
| SimpleHash.AccumulatePrefix | src/static/script.js:498-502 | one more character takes the accumulator from h to ToInt32(31h + code) |
| SimpleHash.Finish | src/static/script.js:505-510 | what follows the loop: the absolute value in hex padded to 64 digits, the last digit replaced by `f` for an even length (its properties are `FinishShape`) |
| SimpleHash.SimpleHashOf | src/static/script.js:495-513 | the value `generateSimpleHash(text)` returns: `Finish` of the fold over the text and its length (its properties are `SimpleHashShape` and `SimpleHashOddValue`) |
| SimpleHash.UnforcedHexShape | src/static/script.js:505 | the padded hex of an int32's absolute value is 64 hex digits reading as that absolute value |
| SimpleHash.FinishShape | src/static/script.js:505-510 | 64 hex digits; an even length forces `f` last and keeps the first 63 of the padded hex; an odd length returns the padded hex unchanged |
| SimpleHash.SimpleHashShape | src/static/script.js:495-513 | the fallback digest of any text is 64 lower-case hex digits; even-length text ends in `f` after the padded hex's first 63 digits; odd-length text gives the padded hex |
| SimpleHash.SimpleHashOddValue | src/static/script.js:505-510 | for odd-length text the digest reads as the absolute value of the accumulator |
| SimpleHash.GenerateSimpleHash | src/static/script.js:495-513 | the loop keeps the accumulator equal to the reference fold of the prefix read; the result is the fallback digest, 64 hex digits, ending in `f` for even-length text |
| Digest.ByteToHexShape | src/static/script.js:466 | each byte becomes exactly two zero-padded lower-case hex digits that read back as the byte |
| Digest.BytesToHexRoundTrip | src/static/script.js:464-466 | the rendering of n bytes has 2n hex digits, and decoding it in pairs recovers the bytes |
| Digest.BytesToHex | src/static/script.js:464-466 | `hashArray.map(b => b.toString(16).padStart(2, '0')).join('')` |
| Digest.ComputeHash | src/static/script.js:457-477 | the value `computeHash` resolves to (its promise never rejects): the digest's bytes as hex when `crypto.subtle.digest` resolves, the fallback digest when `crypto.subtle` is missing or the digest rejects (its properties are `ComputeHashCrypto`, `ComputeHashFallback` and `ComputeHashShape`) |
| Digest.ComputeHashFallback | src/static/script.js:467-475 | without `crypto.subtle`, or when the digest rejects, `computeHash` yields the fallback digest, 64 hex digits |
| Digest.ComputeHashCrypto | src/static/script.js:459-466 | when the digest resolves, `computeHash` yields hex that decodes in pairs to exactly the digest's bytes |
| Digest.ComputeHashShape | src/static/script.js:457-477 | `computeHash` always yields a value, 64 lower-case hex digits for a 32-byte digest |
| Display.MarkupShape | src/static/script.js:481-482 | the markup is the digest without its last character, then a highlight span holding exactly that character |
| Display.ValidIffEndsInF | src/static/script.js:488-492 | the `valid-hash` test holds iff the last character is `f` |
| Display.UnmarkupMarkup | src/static/script.js:481-484 | the digest can be read back from its markup |
| Display.Markup | src/static/script.js:481-482 | the inner HTML `displayHashResult` writes: the digest without its last character, then that character in a highlight span (its property is `MarkupShape`) |
| Display.IsValidHash | src/static/script.js:488 | the test `hashHex.endsWith('f')` (its property is `ValidIffEndsInF`) |
| Display.ResultView | src/static/script.js:479-493 | the element after `displayHashResult`: the markup, no `calculating`, `valid-hash` iff the digest ends in `f` |
| Display.HashDisplay.constructor | src/static/script.js:164 | the element looked up here starts with no content and neither state class; that initial state is an assumption about the page markup, which is not part of this model |
| Display.HashDisplay.ShowResult | src/static/script.js:479-493 | the element shows the markup, loses `calculating`, and has `valid-hash` iff the digest ends in `f` |
| Display.HashDisplay.ShowComputing | src/static/script.js:179-181 | the element shows "Computing hash..." with `calculating`; `valid-hash` is untouched |
| Display.HashDisplay.ShowPlaceholder | src/static/script.js:202-203 | the element shows the placeholder with both state classes removed |
| Display.HashDisplay.ShowError | src/static/script.js:197-198 | the element shows the error text and loses `calculating`; `valid-hash` is untouched |
| Preview.SettledIsComputeHash | src/static/script.js:184-250 | before js-sha256 is loaded, the debounced pipeline shows computeHash's value on every path: the settled digest with `crypto.subtle`, the fallback digest without it |
| Preview.EvenFallbackIsValid | src/static/script.js:457-477 | computeHash's fallback value for an even-length text ends in `f` (script.js:508-510), so displaying it sets `valid-hash` |
| Preview.ResultValidity | src/static/script.js:488-492 | a displayed computeHash value is valid iff its 64th hex digit is `f` |
| Preview.FallbackDigest | src/static/script.js:228-250 | what `calculateHashWithFallback` leaves on the element when nothing throws: the library digest when js-sha256 is already loaded and returns, else the fallback digest |
| Preview.SettledDigest | src/static/script.js:208-225 | what a settled `crypto.subtle.digest` of the debounced pipeline puts on the element: the bytes as hex on resolution, `FallbackDigest` on rejection |
| Preview.DebouncedPreview.constructor | src/static/script.js:167 | no timer is pending and no digest is in flight |
| Preview.DebouncedPreview.CalculateWithFallback | src/static/script.js:228-250 | the element ends showing the library digest if the library is loaded and returns, else the fallback digest; the method reports whether the library threw |
| Preview.DebouncedPreview.Update | src/static/script.js:169-205 | the pending timer is always cleared; with both inputs filled the element shows the computing state and the timer holds their concatenation, otherwise the placeholder shows and no timer is pending |
| Preview.DebouncedPreview.FireTimer | src/static/script.js:184-200 | the timer is spent; with `crypto.subtle` its key goes in flight and the element is untouched; without it the fallback result shows, or the error text when the library throws |
| Preview.DebouncedPreview.Settle | src/static/script.js:208-225 | the settled request leaves the in-flight list, and its digest, or the fallback on rejection, is shown whatever the inputs are now |
| Preview.DebounceCollapses | src/static/script.js:169-200 | three input changes before the timer fires give one request, for the last pair |
| Preview.StaleResponseShown | src/static/script.js:208-225 | a digest for an older pair overwrites the element while a newer pair is pending |
| Preview.HitIffCached | src/static/script.js:439 | in a table whose entries are computeHash values, the truthiness test is plain key membership |
| Preview.MemoPreview.constructor | src/static/script.js:407 | the memo table starts empty, and nothing is scheduled |
| Preview.MemoPreview.Update | src/static/script.js:426-455 | the table is unchanged; a hit shows the memoised digest, which equals computeHash of the key, and schedules nothing; a miss shows the computing state and schedules the key; an empty input shows the placeholder |
| Preview.MemoPreview.RunPending | src/static/script.js:443-448 | the scheduled key is stored with its computeHash value and displayed; the table stays sound |
| Preview.MemoPreview.Store | src/static/script.js:418 | a write stores key k with computeHash(k) and keeps every other entry |
| Preview.MemoPreview.WarmRow | src/static/script.js:414-420 | every key of row i of the window is stored; nothing is removed and nothing outside the window is added |
| Preview.MemoPreview.PrecomputeCommonHashes | src/static/script.js:399-424 | with `crypto.subtle` and an idle callback every key of the 50 x 50 window is stored with its computeHash value; otherwise the table is unchanged; existing entries stay |
| Tiles.SelectPlacesValue | src/static/script.js:337-356 | a selected value always lands in an input, and the first input is never left empty |
| Tiles.SelectKeepsOthers | src/static/script.js:337-356 | a selection loses at most the old first value, and only when both inputs were filled, by shifting second into first |
| Tiles.DeselectChangesOne | src/static/script.js:357-366 | a deselection never clears both inputs; an input it changes held the value and becomes empty; otherwise nothing changes |
| Tiles.SelectDeselectRoundTrip | src/static/script.js:336-366 | deselecting a tile just selected without a shift restores the inputs when the first input does not already hold the value (if it does, the deselect branch clears the first input instead) |
| Tiles.ShiftMarksMatchSlots | src/static/script.js:343-355 | after a shift the clicked tile is selected and every selected tile's value is in an input |
| Tiles.NonShiftTogglesOnly | src/static/script.js:333-366 | a click that does not shift toggles only the clicked tile |
| Tiles.OnSelect | src/static/script.js:337-356 | a selection: fill the first input if empty, else the second, else shift the second into the first and put the value second |
| Tiles.OnDeselect | src/static/script.js:357-366 | a deselection: empty the first input if it holds the value, else the second if it does |
| Tiles.ClickSlots | src/static/script.js:336-366 | the inputs after a click: `OnDeselect` for a tile that was selected, `OnSelect` otherwise |
| Tiles.Prune | src/static/script.js:350-355 | the marks after the shift's forEach: a tile stays selected only if its value is in an input; the length is kept |
| Tiles.ClickMarks | src/static/script.js:333-356 | the marks after a click: the clicked tile toggles, and a selection that shifts prunes; the length is kept |
| Tiles.TileBoard.SelectOrDeselect | src/static/script.js:96-123 | the tile's mark toggles and the inputs follow the fill, shift and clear rules |
| Tiles.TileBoard.PruneMarks | src/static/script.js:350-355 | exactly the tiles whose value is in neither input lose their mark |
| Tiles.TileBoard.ApplyClick | src/static/script.js:333-366 | the inputs follow the select or deselect rule and the marks follow the toggle-and-prune rule |
| Tiles.TileBoard.ClickTileAsWritten | src/static/script.js:296-300 | a click as dispatched: the debounced preview is called with the inputs before the click, then the memoised one with the inputs after it |
| Tiles.TileBoard.ClickTile | src/static/script.js:325-369 | a click with both previews called after the inputs change: the pending timer holds exactly the pair the inputs show |
| Tiles.TileBoard.ResetTiles | src/static/script.js:126-130 | every tile is unselected |
| Tiles.TileBoard.ClearSelection | src/static/script.js:566-593 | with an input filled, both inputs empty, the placeholder shows and every tile is unselected; otherwise nothing changes |
| Tiles.StalePairAfterShift | src/static/script.js:296-300 | with 1000 and 1001 selected, clicking 1002 leaves "1000"+"1001" pending while the inputs read "1001"+"1002" |
| Tiles.CurrentPairAfterShift | src/static/script.js:296-300 | in the corrected order the same click leaves "1001"+"1002" pending |
| HashOptimizer.BuildPlaceholderTable | src/static/hash-optimizer.js:24-33 | 10000 keys, 8 decimal digits each, strictly ascending by value and hence distinct and in `Object.keys` order; the table holds exactly these keys, all `null`, including every `${i}${j}` of the window |
| HashOptimizer.FillOne | src/static/hash-optimizer.js:51-60 | one visit keeps the key set |
| HashOptimizer.FillRange | src/static/hash-optimizer.js:50-61 | the visits of keys[lo..hi] in order, each one `FillOne`; the key set is kept |
| HashOptimizer.FillRangeValues | src/static/hash-optimizer.js:50-61 | after visiting keys[lo..hi] each entry is the library digest if it was visited, was `null` and the present library returned, and otherwise is as it was |
| HashOptimizer.FillRangeOnlyNull | src/static/hash-optimizer.js:52-56 | only `null` entries change; entries that were set and the key set stay |
| HashOptimizer.FillRangeWrites | src/static/hash-optimizer.js:54-55 | a changed entry was `null`, was visited, the library was present, and holds `sha256` of that same key |
| HashOptimizer.FillRangeSkipsFailures | src/static/hash-optimizer.js:53-59 | every visited `null` entry whose digest the library returns is filled, whatever other keys threw |
| HashOptimizer.FillRangeCompose | src/static/hash-optimizer.js:44-51 | two consecutive ranges of visits are one range |
| HashOptimizer.NextIndex | src/static/hash-optimizer.js:50-51 | a batch moves the cursor forward by its budget, stopping at the last key |
| HashOptimizer.CursorAfter | src/static/hash-optimizer.js:45-66 | over any batches the cursor never decreases and never passes `keys.length` |
| HashOptimizer.CursorCompletes | src/static/hash-optimizer.js:50-66 | batches visiting at least one key each, as many as keys remain, bring the cursor to the end, so rescheduling stops |
| HashOptimizer.RunBatches | src/static/hash-optimizer.js:47-66 | the table after a sequence of batches, each visiting from the cursor to `NextIndex` with the library present throughout or absent throughout |
| HashOptimizer.RunBatchesIsOnePass | src/static/hash-optimizer.js:47-66 | successive batches together are one pass in order from the first cursor to the last, so each key is visited at most once |
| HashOptimizer.PopulationComplete | src/static/hash-optimizer.js:40-71 | with the library present and enough batches, every `null` entry whose digest the library returns is filled with it, and every other entry keeps its value |
| HashOptimizer.GradualPopulator.constructor | src/static/hash-optimizer.js:41-45 | the populator works on the given table and keys with its cursor at 0 |
| HashOptimizer.GradualPopulator.ComputeNextBatch | src/static/hash-optimizer.js:47-67 | the cursor advances to min(index + budget, keys.length); the table becomes the visits of exactly those keys; another batch is scheduled iff keys remain |
| HashOptimizer.Placeholders | src/static/hash-optimizer.js:24-33 | the finished placeholder table: its properties as listed for `BuildPlaceholderTable` |
| HashOptimizer.PrecomputeCommonHashes | src/static/hash-optimizer.js:20-37 | with an idle callback, a populator with the given library starts at key 0 on a fresh placeholder table: exactly the 10000 keys `${i}${j}` of the window, all `null`, in ascending `Object.keys` order; without one nothing starts |

## Left out

- SHA-256, `TextEncoder` and the js-sha256 library are not modelled. They are arbitrary functions carried by `Platform`. SHA-256's 32-byte output is a hypothesis (`Digest.DigestFits`) wherever it matters.
- Time is not modelled. The 10 ms, 100 ms, 1 s and 50 ms timers and the idle callback are explicit events, i.e. method calls. The 5 ms `Date.now()` budget of a batch is the number of keys the batch visits.
- `Tiles.TileBoard.ClearSelection`: the 150 ms delay before the clearing is not modelled. The clearing happens at the call.
- `Preview.MemoPreview.PrecomputeCommonHashes`: each warm-up write happens, in the source, when its own `computeHash` promise resolves. The model stores the values at once, in loop order. Interleavings with `Update` and `RunPending` are not modelled. The 1 s delay and the `crypto.subtle` test of `initializeHashPreview` are folded into the method's guard.
- `Preview.DebouncedPreview.CalculateWithFallback`: when js-sha256 is not yet loaded, the source inserts a script tag whose `onload` later sets `window.sha256Loaded` and redisplays (script.js:235-244). That later event is not modelled; the method shows the fallback digest only.
- Script loading (`loadScript`, hash-optimizer.js:14-17 and 74-82) is I/O and is left out.
- `HashOptimizer.RunBatchesIsOnePass` and `HashOptimizer.PopulationComplete` assume the library is present throughout, or absent throughout. `ComputeNextBatch` itself takes the library's presence per batch.
- `charCodeAt` is modelled as the character's code. Dafny characters are Unicode scalar values, so the model differs from UTF-16 code units only for characters outside the Basic Multilingual Plane. Tile values are decimal digits.
- The guard `if (!cache) return;` (hash-optimizer.js:42) is never taken, because the table is always an object. The model has no such branch.
- Running `precomputeCommonHashes` twice (script.js:1-90 repeats hash-optimizer.js) builds two independent tables and populators. The model describes one.
- `Tiles.TileBoard.ResetTiles`: the browser's own form reset of the input values after the handler is not modelled.
- `Tiles.TileBoard`: one board of `values` and `selected` marks stands for both the `.captcha-number` tiles of script.js:92-130 (`SelectOrDeselect`, `ResetTiles`) and the `.number-tile` tiles of script.js:321-371 and 586-588 (`ApplyClick`, `ClearSelection`). The page markup that would say whether these are the same elements is not part of this model. If they are, one click runs both toggles, and no member models that combined click.
- `Display.HashDisplay.constructor`: the initial content and classes of `#hash-value` come from the page markup, which is not part of this model. The constructor assumes an empty element with neither state class.
- The `console.log` and `console.error` calls (script.js:15, 58, 155, 196, 221, 469, 558; hash-optimizer.js:15, 58) are logging only and are left out.
- The input listeners (script.js:290-291) and the initial preview call (script.js:304) call `updateHashPreview` with whatever the inputs hold. `Update` covers them.
- `animateClick`, `announceChange`, `createAnnouncer`, the ripple effect, the slow-animation monitor and the injected CSS are presentation only and are left out.
- `refreshCaptcha` and `generateNewPuzzle` fetch `/refresh_captcha` over the network and are left out.
- `src/app.py` (Flask routes, session, `random`, hashlib), `src/utils/captcha.py` (image drawing) and `src/utils/crypto.py` (hashlib wrappers) are not part of this model.

## Findings

| source | as written | input that shows it | evidently intended | confidence | as-written member | corrected member |
|---|---|---|---|---|---|---|
| src/static/script.js:296-300 | Two click listeners sit on each `.number-tile`. The one at script.js:294-300 is added by the `DOMContentLoaded` handler of script.js:160, which is registered before the handler of script.js:309 that calls `setupNumberTiles`, so it runs first. It calls the debounced `updateHashPreview` with the inputs as they were before `setupNumberTiles`' handler (script.js:325-369) updates them. Its 10 ms timer then hashes the previous pair and overwrites the element. | Tiles 1000 and 1001 selected, then a click on tile 1002. The debounced preview schedules "10001001" while the inputs read "1001" and "1002". | The listener's own comment places the preview update after the click-handling logic, so the preview should use the pair after the click. | medium; not executed | Tiles.StalePairAfterShift | Tiles.TileBoard.ClickTile |
