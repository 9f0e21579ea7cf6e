# sdvx-score-handler, modelled in Dafny

This project models the discrete logic of a Discord bot that reads scores from photos of
a rhythm-game result screen. In `imgreader.py`, `get_image` picks an attachment and halves
it while it is too wide. `unwarp_image` accepts or rejects the alignment against the
result-screen template. `crop_image` pastes seven fixed regions into a 295 x 475 summary.
`read_score` cuts the score band into eight digit cells, rounds each template-match offset
to a digit, and accumulates the digits in base 10 with a wrap. `message_to_image` chains
these stages into one outcome. In `imghandler.py`, the cog filters and appends score
records, handles one submission, ignores messages outside the image channel, and is meant
to catch up on missed submissions at start-up (as written the catch-up raises before
handling any; see Findings).

Every OpenCV call stays opaque. Images are a type parameter `Img`. The width, the 0.5
resize, the final resize, SIFT + FLANN 2-nearest-neighbour matching, homography plus warp,
the template size, and the best digit-atlas offset for a cell are total functions
collected in `Pipeline.Vision`. Discord, the clock and the pickle file are also left out.
The bot's effects are a `Handler.Bot` value: records, summary posts, reactions and log
lines. `Handler.Host` supplies the two values the host gives while a message is handled:
`time.time()` and the summary post's jump URL.

Modules: `Wrappers` (Option), `Geometry` (numpy slices as intervals), `Layout`
(`crop_image`), `Score` (`read_score`), `Acquire` (`get_image`), `Align` (the
`unwarp_image` gate), `Pipeline` (`message_to_image`, `read_chains`), `Text` (`str` of an
integer), `Handler` (`imghandler.py`).

Four behaviours of the code are easy to misread:

- Attachment selection keeps the decode result of the LAST attachment that did not raise,
  not the first image that decodes. A later non-image attachment, which decodes to `None`,
  overwrites an earlier image.
- The wrap test is `score_val > 10_000_000`. Exactly 10,000,000 is therefore kept, so the
  score lies in [0, 10,000,000], not [0, 9,999,999].
- The digits 1..8 read as 2,345,678, not 12,345,678: 12,345,678 is above 10^7 and wraps.
- A successful outcome carries the chain totals `(None, None, None)`.

## Model

| member | source | states |
|---|---|---|
| Geometry.Slice | imgreader.py:79-95 | a numpy step-1 slice selects exactly [start, stop) when both bounds are in range, counts a negative start from the end, and never leaves the axis |
| Geometry.Crop | imgreader.py:79-85 | `img[r0:r1, c0:c1]` lies inside the image, and has size (r1-r0) x (c1-c0) when the bounds fit |
| Layout.CropImage | imgreader.py:72-97 | on a template-sized aligned image, the summary is built from that image and frame, and every array pasted into it has exactly its slot's shape |
| Layout.PiecesFitSlots | imgreader.py:79-95 | card name 25x269, title 29x475, artist 30x475 and details 142x360 are cut at their slot's size; score, jacket and difficulty are resized to their slots 69x475, 115x115 and 27x115 |
| Layout.SlotsDisjoint | imgreader.py:88-95 | the seven slots lie inside the 295x475 canvas and are pairwise disjoint |
| Layout.SlotOfPixelUnique | imgreader.py:88-95 | a canvas pixel belongs to at most one slot |
| Layout.SlotsCover | imgreader.py:88-95 | a canvas pixel lies in some slot iff it is outside rows 0-24 x columns 269-474 |
| Layout.BackgroundIsTopRightCorner | imgreader.py:88-95 | after all assignments, a canvas pixel keeps the zero background iff it is in rows 0-24 and columns 269-474 |
| Layout.FillInsideSlot | imgreader.py:88-95 | a canvas pixel inside a slot shows that slot's piece at its offset within the slot |
| Layout.AnyOrderLastCovering | imgreader.py:88-95 | in any paste order that includes a region, the last assignment covering a pixel of that region's slot is that region's, so the paste order does not matter |
| Layout.PieceShownInFull | imgreader.py:88-95 | every pixel of every pasted piece appears at its slot position, unoverwritten by later assignments |
| Score.CellRect | imgreader.py:111-117 | each digit cell lies inside the 69x475 band |
| Score.CellLayout | imgreader.py:111-119 | cells start at 0,72,...,432, are contiguous, are 72 or 48 wide, total 480 > 475 so the last is clipped to 43 columns, and take the bottom 69 or 46 rows |
| Score.BandIsScoreSlot | imgreader.py:88-103 | the band read_score takes is exactly the score slot crop_image wrote, its 475x69 resize keeps its size, and every cell pixel shows the score piece |
| Score.RoundDigit | imgreader.py:124 | `int(x/52 + 0.5)` is the index of the nearest multiple of 52, with halves rounding up, i.e. (x + 26) div 52 |
| Score.Step | imgreader.py:124-126 | one step keeps the running score in [0, 10^7], leaves values up to 10^7 unreduced, reduces values above 10^7 to exactly their remainder modulo 10^7, and is congruent to 10*acc + digit modulo 10^7 |
| Score.ScoreOf | imgreader.py:109-126 | the accumulated score is at most 10^7 and congruent modulo 10^7 to the plain decimal value of the digits |
| Score.CellDigits | imgreader.py:111-124 | eight digits, digit d being the rounded match offset of cell d |
| Score.ReadScore | imgreader.py:109-128 | the source loop, with its running cur_x, computes the accumulated score of the eight cell digits, at most 10^7 and congruent to their decimal value |
| Score.NoWrapWhileShort | imgreader.py:109-126 | with decimal digits, none of the first seven steps wraps: the score equals the decimal value, below 10^k |
| Score.EightDigitScore | imgreader.py:109-126 | for eight decimal digits of value V the score is V when V <= 10^7 and V mod 10^7 otherwise |
| Score.AllNinesExample | imgreader.py:109-126 | eight nines read as 9,999,999 |
| Score.OneToEightExample | imgreader.py:109-126 | the digits 1..8 read as 2,345,678 |
| Score.TenMillionExample | imgreader.py:109-126 | a one then seven zeros reads as 10,000,000, which the strict test keeps |
| Acquire.SelectImageIsLastReturned | imgreader.py:27-36 | no attachments or only raising ones give None; otherwise the decode result of the last non-raising attachment, None included |
| Acquire.LaterNonImageOverwrites | imgreader.py:29-33 | an image followed by a non-image gives None, and an image followed by a raising attachment keeps the image |
| Acquire.Halvings | imgreader.py:40-41 | the number of halvings is the least count after which the width is at most 2400 |
| Acquire.HalveWhileWide | imgreader.py:40-41 | the loop terminates at width <= 2400 after exactly the least such number of halvings, and runs zero times iff the width starts at most 2400 |
| Acquire.GetImage | imgreader.py:26-45 | no image iff selection found none; otherwise the final resize of the selection halved exactly the least number of times that brings its width to at most 2400 |
| Align.GoodPoints | imgreader.py:53-56 | every kept match is the best match of a pair passing the strict 0.7 ratio test, and every such best match is kept |
| Align.GoodPointsAppend | imgreader.py:53-56 | the filter keeps the original order: filtering a concatenation concatenates the filtered parts |
| Align.GoodPointsCount | imgreader.py:53-56 | exactly one match is kept per passing pair |
| Align.Unwarp | imgreader.py:48-69 | alignment fails iff fewer than 75 pairs pass, so exactly 75 passes; on success the warp receives the accepted matches |
| Align.AcceptanceMonotone | imgreader.py:53-59 | more candidate pairs never turn an accepted image into a rejected one |
| Align.RatioTestStrict | imgreader.py:55 | a best distance of exactly 0.7 times the runner-up is rejected, and one just below is accepted |
| Pipeline.ReadChains | imgreader.py:131-133 | all three chain totals are None |
| Pipeline.MessageToImage | imgreader.py:136-156 | no image yields "No image found."; the only other failure is "Cannot find score region in image."; success happens only when an image was found and 75 or more matches passed; it carries the summary of the warp through the accepted matches, the score `read_score` gives for that summary (at most 10^7), and totals (None, None, None) |
| Pipeline.AlignmentGate | imgreader.py:141-147 | once an image is found, the run fails with the region message iff fewer than 75 matches pass, and succeeds otherwise |
| Pipeline.FailureShortCircuits | imgreader.py:136-143 | a failed run is the same whatever the later stages compute: they do not run |
| Pipeline.SuccessScoreIsDecimal | imgreader.py:145-146 | with match offsets inside the ten-glyph atlas, the reported score is the cells' decimal value V, or V mod 10^7 above 10^7 |
| Text.Decimal | imghandler.py:74 | `str(n)` is a non-empty string of decimal digits, with no leading zero, that parses back to n |
| Handler.FilterAllowed | imghandler.py:35-36 | the filtered record keeps exactly the input's keys that are in ALLOWED_KEYS, with their values unchanged |
| Handler.FilterAllowedIdempotent | imghandler.py:36 | filtering is idempotent and leaves a record with only allowed keys unchanged |
| Handler.SaveData | imghandler.py:35-37 | the store grows by exactly one filtered record at the end, and earlier records are unchanged |
| Handler.NothingDropped | imghandler.py:83-91 | the record process_message builds has exactly the seven allowed keys, so filtering removes nothing |
| Handler.ProcessMessage | imghandler.py:65-93 | as intended, with the record-file write succeeding: on error, only an error line is logged and nothing is saved, posted or reacted. On success, the summary is posted, the built record is saved as built, and a check-mark reaction is added |
| Handler.ProcessMessageAsWritten | imghandler.py:35-39 | as written, every effect is the intended one except that no reaction is ever added, because the text-mode pickle dump raises first |
| Handler.AsWrittenNeverReacts | imghandler.py:37-39 | for a successfully read submission, the written version adds no check-mark reaction, while the intended one adds exactly one |
| Handler.OnMessage | imghandler.py:60-63 | messages outside the image channel leave the bot unchanged, and those inside are processed |
| Handler.UnreactedPrefix | imghandler.py:51-54 | the result is the longest prefix without the bot's reaction |
| Handler.MissedMessages | imghandler.py:50-54 | the stack is the longest prefix of the newest 100 history messages without the bot's own reaction |
| Handler.MissedStopsAtFirstReacted | imghandler.py:51-53 | the stack is a prefix of the messages newer than any reacted message, which excludes it and everything older |
| Handler.Reverse | imghandler.py:56 | the reversed stack holds element n-1-i at position i |
| Handler.ProcessAll | imghandler.py:56-57 | processing n messages adds n records or log lines in total, keeps earlier ones, and keeps the channel |
| Handler.ProcessAllAppend | imghandler.py:56-57 | messages are processed strictly one after another, in sequence order |
| Handler.CatchUpOldestFirst | imghandler.py:49-57 | exactly the missed messages are processed, with strictly increasing ids (oldest first), the oldest one first, one record or log line each |
| Handler.OnReady | imghandler.py:41-57 | the intended start-up records the image channel and handles every missed message |
| Handler.OnReadyAsWritten | imghandler.py:41-57 | as written, start-up records the channel and changes no record, post, reaction or log line |
| Handler.AsWrittenSkipsMissed | imghandler.py:56-57 | with one or more missed messages, the written start-up handles none while the intended one handles them |

## Left out

- OpenCV internals: decoding, SIFT/FLANN matching, `findHomography` with RANSAC, `warpPerspective`, `matchTemplate`, Otsu thresholding, Gaussian blur and Lanczos pixel values. These are float-heavy foreign calls, so they are opaque functions in `Pipeline.Vision`.
- Acquire.GetImage: does not state that the final resize gives width 1200. `fx = 1200/w` depends on float scale factors and OpenCV's rounding, so the final resize is the opaque `toCanonical`.
- Acquire.HalveWhileWide: does not state the halving count as floor(log2(w/2400)) + 1. The count depends on how the 0.5 resize rounds odd widths, so the halving step is abstract and only assumed to shrink widths above 2400.
- Concurrency: discord.py runs each `on_message` and `on_ready` listener as its own task. The model applies each handler as one atomic step on the bot state. Concurrent handlers interleave at their awaits (the attachment read, imgreader.py:31; the summary post, imghandler.py:79; the reaction, imghandler.py:93). So posts and records of two submissions may interleave, and the record order may differ from the message order. Those interleavings are not modelled. Neither is the race in which a message that arrives after the image channel is set (imghandler.py:44-45) but before the history read (imghandler.py:51) is handled twice, once by `on_message` and once by the catch-up.
- Score.RoundDigit: computes `x/52 + 0.5` in exact reals rather than IEEE doubles. For the small offsets template matching produces, the two agree.
- The ratio test compares distances as exact reals, rather than as Python doubles widened from the float32 distances.
- `knnMatch` returning fewer than two neighbours, or no descriptors at all, raises in the source. `findHomography` can return no matrix, which makes the warp raise. These exception paths are not modelled: every pair has two neighbours and the warp always returns an image.
- The template and digit-atlas assets are not visible. The template is assumed to be at least 625 x 878 (`Layout.TemplateFits`), so no source rectangle is clipped.
- The PNG encoding of the summary (imgreader.py:151-152) is not modelled: the outcome carries the summary itself.
- Discord I/O is not modelled: fetching attachments, posting, reactions, channel lookup by environment variable (imghandler.py:44-47), and message history. The image channel becomes a given id, and the history a given newest-first sequence.
- Pickle load and dump of the record file (imghandler.py:26-30, 38-39) are not modelled beyond the failing dump. The store is an in-memory sequence of records, and the file contents are not modelled.
- Handler.ProcessMessage: assumes the record-file write succeeds, so it adds the reaction. As written the write always raises. Handler.ProcessMessageAsWritten models that, and the Findings table records it.
- Dictionary insertion order of a record is not modelled: records are maps.
- Exceptions raised by Discord calls inside `process_message` are not modelled.
- `main.py`, the bootstrap, the reload command and the error-log file are out of scope. sheets.py is an older handler built on Google Sheets I/O and is not part of this model.

## Findings

| source | as written | input that shows it | evidently intended | confidence | as-written member | corrected member |
|---|---|---|---|---|---|---|
| imghandler.py:38-39 | the record file is opened with `'w'` (text mode), and `pickle.dump` writes bytes, so it raises `TypeError` after the in-memory append and before the reaction at line 93 | any submission the pipeline reads successfully | open the file in binary mode so the dump succeeds, then react to the submission | high, not executed | Handler.ProcessMessageAsWritten (with Handler.AsWrittenNeverReacts) | Handler.ProcessMessage |
| imghandler.py:56-57 | `async for` over `reversed(msg_stack)`, a plain iterator, raises `TypeError`; the body also never awaits `process_message` | a channel history whose newest message has no reaction from the bot | process the missed messages one by one, oldest first, awaiting each | high, not executed | Handler.OnReadyAsWritten (with Handler.AsWrittenSkipsMissed) | Handler.OnReady (with Handler.CatchUpOldestFirst) |
