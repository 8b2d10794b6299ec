# DataMatrix scanner core, modelled in Dafny

This project models the sequential core of a live-camera DataMatrix scanner.
Under the camera, GUI and threading code the scanner has:

- an **ROI admission filter** (`find_rois`). It keeps the bounding rectangles of
  the external contours with area at least 2000, both sides at least 40 pixels,
  and neither side above 0.9 of the frame's;
- a **decode cycle**. Each ROI crop is decoded and its results are tagged with
  the ROI's top-left corner. The whole frame is decoded as a fallback, tagged
  (0, 0), when the ROIs gave fewer than two results. Only a non-empty batch is
  published;
- **geometry resolution**. A result's polygon, or else its rectangle's four
  corners, is moved by the result's origin;
- a **code registry and tracker**. It holds the set of payloads seen since the
  last reset, the count of them, and per payload the last polygon and
  last-seen time. A first sighting is counted and announced. Every sighting
  overwrites the tracked entry. Entries older than 0.5 s are pruned. A reset
  clears everything;
- in main.py, a **one-slot decode queue** in which the newest frame wins, and a
  result queue.

Both source files hold this core. main.py runs decoding on a worker thread.
test.py is an older single-threaded variant: it decodes inline and allows the
whole-frame fallback only on every tenth frame. `find_rois` (test.py:106-131
is identical to main.py:131-156) and the result processing (test.py:169-198
is identical to main.py:219-248) are modelled once and shared by both
variants.

Files:

- `types.dfy` (module `ScanTypes`): frames, rectangles, contours, decoder
  results. The decoder is a function parameter `Region -> DecodeOutcome`,
  where `Raised` stands for a decoder exception. The lossy UTF-8 decoding is a
  function parameter `seq<byte> -> string`.
- `roi.dfy` (`RoiDetector`): the admission test, the filter as a specification
  function, and `FindRois`, the loop that builds the list.
- `geometry.dfy` (`Geometry`): polygon translation and rectangle corners.
- `decode_cycle.dfy` (`DecodeCycle`): the per-ROI decoding, the fallback and its
  gate, and `DecodeFrame`, the nested loops that build a batch.
- `registry.dfy` (`Registry`): the registry as a value (`RegistryState`) with
  specification functions and lemmas. `CodeRegistry` is the class whose fields
  the scanner updates in place.
- `scanner.dfy` (`Scanner`): `ThreadedScanner` (main.py, with the decode slot
  and result queue) and `SingleThreadScanner` (test.py, with its frame
  counter).

Inputs from outside become parameters:

- the contour extractor, as `extract: Frame -> seq<Contour>`;
- the decoder;
- the text decoder;
- the clock, as `now: real`.

The beep and the numbered print line are a ghost log, `announced`, of the
payloads announced since the last reset. Its k-th entry was printed with
ordinal k + 1.

Where main.py's comment and its code disagree, the model follows the code:

- main.py's comment over the fallback says the whole frame is scanned once
  every 10 frames. Its code instead runs the fallback on every cycle with fewer
  than two ROI results, which is what `DecodeFrame` with the gate open models.
  test.py's code does use the every-tenth-frame gate; `SingleThreadScanner.Tick`
  models that.

## Model

| member | source | states |
|---|---|---|
| `RoiDetector.FindRois` | main.py:131-156 | The returned list is exactly the filter of the contours by the admission test (area ≥ 2000, both sides ≥ 40, 10·cw ≤ 9·w and 10·ch ≤ 9·h), in contour order. |
| `RoiDetector.AdmittedRectsIsOrderedFilter` | test.py:115-131 | The ROIs are the admitted contours' rectangles, in order, each once. The k-th ROI is the rectangle of contour ix[k]. The indices strictly increase. An index occurs exactly when its contour passes the test (both directions). |
| `RoiDetector.AdmittedRectsWithinBounds` | main.py:142-154 | Every ROI has sides between 40 and 0.9 of the frame's, and is the rectangle of a contour of area ≥ 2000. |
| `RoiDetector.AreaThresholdIsInclusive` | main.py:143-145 | With passing sides, area 1999 is refused and area 2000 admitted. |
| `RoiDetector.SideThresholdsAreInclusive` | main.py:147-152 | In any frame, with a passing area and a passing other side, a side of exactly 40 is admitted and 39 refused. A side of exactly 0.9 of the frame's is admitted and a longer one refused. This holds for the width and for the height. |
| `Geometry.AbsolutePolygonCases` | main.py:222-229 | A non-empty polygon is shifted point by point by (ox, oy). Otherwise the outline is exactly (rx+ox, ry+oy), (rx+rw+ox, ry+oy), (rx+rw+ox, ry+rh+oy), (rx+ox, ry+rh+oy), in that order. |
| `Geometry.TranslateRoundTrip` | test.py:173 | Translating by the opposite offset undoes a translation. |
| `Geometry.AbsolutePolygonUndoesOrigin` | test.py:172-179 | Moving the frame polygon back by the origin gives the decoder's polygon, or its rectangle's corners. |
| `Geometry.AbsolutePolygonNonEmpty` | main.py:222-229 | A resolved polygon is never empty: a missing or empty decoder polygon falls back to the rectangle, and that fallback has exactly 4 points. |
| `Geometry.Translate` | main.py:223 | The translated polygon has as many points as the original. |
| `DecodeCycle.DecodeFrame` | main.py:163-179 | The nested loops build exactly `CycleResults`: ROI results tagged with their ROI's (x, y), then the whole-frame results tagged (0, 0) when the fallback runs. The result is None when a decoder call raised. `ranFull` is true iff every ROI decode returned, the gate is open and the ROI results number fewer than 2. |
| `DecodeCycle.RoiResultsAbandoned` | main.py:168-184 | Once a decoder call raises, the whole cycle yields nothing, whatever the later ROIs would give. |
| `DecodeCycle.RoiResultsSucceedIff` | main.py:168-173 | The ROI pass yields a list iff no ROI decode raised. |
| `DecodeCycle.RoiResultsOrigins` | main.py:172-173 | Every ROI result is one of the decoder's results for some ROI's crop, tagged with that ROI's (x, y). |
| `DecodeCycle.RoiResultsComplete` | test.py:156-161 | Every result the decoder returns for any ROI is in the batch, tagged with that ROI's origin. |
| `DecodeCycle.RoiResultsCount` | main.py:168-176 | The ROI pass holds exactly as many results as the decoder returned for all ROIs together. With the gate open, the fallback runs iff that total is below 2. |
| `DecodeCycle.CycleResultsLayout` | main.py:176-179 | The ROI results are a prefix of the batch. The fallback runs iff the gate is open and there are fewer than 2 ROI results. When it runs, the rest of the batch is exactly the whole-frame results tagged (0, 0). When it does not run, the batch is the ROI results. Everything after the ROI results has origin (0, 0). |
| `DecodeCycle.GatedBatchIsPrefix` | test.py:164-167 | With the gate closed, the batch is the ROI results, a prefix of the batch with the gate open. |
| `DecodeCycle.PeriodicGateOncePerTen` | test.py:164 | The `frame_counter % 10 == 0` gate opens on exactly one of any ten consecutive counter values. |
| `DecodeCycle.Published` | main.py:181-182 | At most one batch is published, and one is published iff the cycle gave a non-empty batch. That batch is published as itself. A cycle that raised publishes nothing, an empty batch publishes nothing, and nothing empty is ever published. |
| `Registry.ObservedCountsFirstSightOnly` | main.py:231-235 | A new payload joins the seen set, raises the counter by exactly 1 and is announced once. A seen payload changes neither. `counter == \|seen\|`, with every seen payload announced exactly once, is preserved. |
| `Registry.ObservedOverwritesOneEntry` | main.py:237-240 | After observing, `tracked[code]` is (new polygon, now), the keys gain only `code`, and every other entry is unchanged. |
| `Registry.ObservedAllCountsDistinctNewCodes` | test.py:181-185 | Over any sequence of observations the invariant holds, and the seen set gains exactly the sequence's payloads. Earlier announcements are kept. The counter grows by the number of distinct payloads not seen before. |
| `Registry.EachDistinctCodeAnnouncedOnce` | main.py:231-235 | From a reset state, the announcements are exactly the distinct payloads observed, without repetition, and the counter is their number. |
| `Registry.ObservedAllTracksLastObservation` | test.py:187-190 | After a batch, each observed payload is tracked with the polygon of its last observation and `now`. Other entries are untouched, and no unobserved key appears. |
| `Registry.ExpiryBoundary` | main.py:243-246 | An entry exactly 0.5 s old is kept. An older one is pruned. |
| `Registry.UnexpiredIsExact` | test.py:192-198 | Expiry keeps exactly the entries with now − last_seen ≤ 0.5, unchanged. Expiring twice at the same time changes nothing more. Expiring later keeps no entry that expiring earlier removed. |
| `Registry.AfterTickKeepsObservedCodes` | main.py:219-248 | After a tick, every payload decoded in it is still tracked, with its last polygon. Any other entry survives iff it is at most 0.5 s old, and then unchanged. |
| `Registry.ClearedCountsAnyCodeAsNew` | test.py:78-82 | After a reset, a previously seen payload counts as new and is announced with ordinal 1. |
| `Registry.ResetThenObserveIsNew` | main.py:93-96 | On the class: after `Reset`, a payload that was in `seenCodes` is reported new, the counter is 1, the seen set is just that payload, and it is announced once. |
| `Registry.RepeatedCodeScenario` | main.py:231-240 | A payload seen at t and again at t + 0.2 is counted and announced once. Its tracked entry is the later polygon at t + 0.2, and it survives expiry. |
| `Registry.Resolve` | main.py:219-229 | A batch gives one observation per tagged result, in batch order. Each observation is the text payload with the frame polygon. |
| `Registry.CodeRegistry.constructor` | main.py:35-40 | Starts with nothing seen, counter 0 and nothing tracked. |
| `Registry.CodeRegistry.Observe` | main.py:231-240 | `isNew` iff the code was unseen. The new state is `Observed` of the old state, and the invariant is kept. |
| `Registry.CodeRegistry.ObserveBatch` | main.py:219-240 | Processing a batch in order gives `ObservedAll` of the old state on the resolved observations. |
| `Registry.CodeRegistry.Expire` | main.py:243-248 | The tracked map becomes `Unexpired(old tracked, now)`. The seen set, counter and announcements are unchanged. |
| `Registry.CodeRegistry.Reset` | test.py:78-81 | The seen set and tracked map are emptied and the counter is 0. |
| `Scanner.ThreadedScanner.constructor` | main.py:34-51 | Empty registry, empty decode slot, empty result queue. |
| `Scanner.ThreadedScanner.Submit` | main.py:206-211 | After draining and putting, the decode slot holds exactly the new frame. The result queue is unchanged. |
| `Scanner.ThreadedScanner.WorkerCycle` | main.py:159-184 | With an empty slot nothing changes (the worker waits). Otherwise the frame is taken, and the result queue gains the cycle's batch iff it is non-empty and nothing raised. |
| `Scanner.ThreadedScanner.PollResults` | main.py:214-217 | Takes the oldest batch, or gives an empty batch on an empty queue. |
| `Scanner.ThreadedScanner.Tick` | main.py:205-248 | Submits the frame, takes at most the oldest batch, and leaves the registry at `AfterTick` of its old state on that batch. |
| `Scanner.ThreadedScanner.ResetScan` | main.py:93-105 | Seen set and tracked map empty, counter 0, both queues empty. |
| `Scanner.NewestFrameWins` | main.py:205-211 | Of two frames submitted before the worker runs, only the second is decoded. |
| `Scanner.ResetScanIsIdempotent` | main.py:93-105 | A second reset leaves the state the first one left. |
| `Scanner.SingleThreadScanner.constructor` | test.py:34-45 | Empty registry, frame counter 0. |
| `Scanner.SingleThreadScanner.Tick` | test.py:150-198 | The frame counter grows by 1. The frame is decoded with the fallback gated on `counter % 10 == 0`. A raise ends the loop (`crashed`) with the registry unchanged. Otherwise the registry is at `AfterTick` of the batch. |
| `Scanner.SingleThreadScanner.ResetScan` | test.py:78-82 | The registry is cleared; the frame counter is kept. |

## Left out

- OpenCV image processing (grey conversion, Canny, dilation, contour
  extraction, contour area, bounding rectangles): contours come in through a
  function parameter.
- The libdmtx decoder and its timeouts: it is a function parameter. Its
  exceptions are the `Raised` outcome. The model does not capture an exception
  raised by the OpenCV calls inside the worker's `try`, whose effect would be
  the same: the frame is consumed and nothing is published.
- Lossy UTF-8 decoding: a total function parameter.
- Threads, the blocking `Queue.get`, and the locking of the queues: the worker
  is a step (`WorkerCycle`) that the caller interleaves with display ticks,
  so no concurrent interleaving inside a step is modelled.
- Floating point: contour areas, times and the 0.9 factor are exact (`real`,
  and 10·cw ≤ 9·w). The rounding of `w * 0.9` and of `now - last_seen` in
  doubles is not modelled.
- The camera, the GUI (camera list, buttons, key bindings), drawing, window
  display and key polling; `start`, `stop` and the running flag.
- The printed lines and the beep: they are the ghost `announced` log, not
  output.
- `active_roi`, `roi_last_seen` and `ROI_TIMEOUT`: they are never used.
  main.py also increments `frame_counter` without using it, so
  `ThreadedScanner` has no frame counter.
- The expired keys are collected as a set, not a list. Dictionary order does
  not affect which keys are deleted.
