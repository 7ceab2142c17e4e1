# Photo GPS recorder: the process service, in Dafny

This project models `ProcessService` from the photo-GPS recorder desktop app. The
service holds the photo folder and the GPS/LBS track log the user has loaded. It
finds the photos that have no usable position and, for each one, looks up the
track sample closest in time to the photo's capture time. It writes that sample
into the photo's metadata and reports progress to registered callbacks.

Modules, one per part of the service:

- `Typings` (typings.dfy): the records. `LocationData` is a track sample,
  `CSVData` a loaded track, `FolderFile` and `FolderData` a photo and a folder,
  `ProcessProgressData` a progress value. Times are integer milliseconds. Coordinates
  are opaque reals.
- `MissingGps` (missing_gps.dfy): the `getMissingGPSPhotos` filter. A coordinate tag
  counts as missing when it is absent or 0, following JavaScript truthiness. The
  altitude plays no part.
- `Closest` (closest.dfy): the binary search of `getClosetLocation` as a method with
  loop invariants. It is specified by `IsEarliestNearest`: no sample is closer in
  time, and no equally close sample is earlier. `ScanNearest` is an independent
  linear-scan definition of the same thing, and the search agrees with it on the
  time of the result.
- `Observers` (observers.dfy): callbacks and their invocations. Invoking `callback(data)`
  is recorded as a `Delivery`. `Broadcast` is one publish; `Fanout` is a series of publishes.
- `ProcessEvents` (process_events.dfy): the event stream and the metadata writes
  of one batch run, as functions of the input, with the lemmas about them. An
  `Effect` is one write or one publication. `AttemptEffects` is the interleaved
  trace of a series of writes: each successful write is followed at once by its
  `{index + 1, total}`.
- `Service` (service.dfy): the class `ProcessService`. Its fields are `folderData`,
  `csvData` and `updateCallbacks`. Two more fields record what happened: `deliveries`
  (every callback invocation so far) and the ghost `effects` (every write and every
  value passed to `_triggerUpdate`, in one ordered trace). `Published()` is the
  publications in that trace. The methods are stated against the functions above.
- `Seqs` (seqs.dfy) and `Wrappers` (wrappers.dfy): sequence associativity and `Option`.

External effects become parameters or records:

- The metadata writer (`exiftool.write`) is the oracle `writeSucceeds: nat -> bool`.
  It takes the photo's position in the missing list. `Process` returns the writes it
  made as `WriteAttempt` records.
- Callbacks are identities. Calling one is recorded in `deliveries`.

Points where the code's behaviour is easy to misread:

- After a successful write, `processed` is the photo's 1-based position in the missing
  list (service.ts:107-110). It is not a running count of successes. So, on a non-empty
  list, `processed == total` is published exactly when the last photo of the list is
  written (`CompletionIffLastWritten`), whatever happened to the others. An empty
  missing list publishes `{0, 0}` at once, which already has `processed == total`; the
  UI ignores it because it checks `total != 0` (src/renderer/src/App.tsx:31).
- `process` runs whenever a track is loaded, even an empty one (service.ts:76). It then
  publishes `{0, total}` and writes nothing, because no photo gets a match.
- The in-memory photo records are not updated after a write. `folderData` does not change
  during a run, so the missing list stays the same.
- On a tie in distance, the earlier neighbour wins (`<=` at service.ts:72).

The for-of loop of `process` (service.ts:87-111) is the method `ProcessPhotos`, and
its body is `HandlePhoto`. `Process` models the guards and the initial event and
calls the loop. They are split only to keep each proof small.

## Model

| member | source | states |
|---|---|---|
| MissingGps.FilterMissing | src/main/service.ts:31-33 | the result holds exactly the input files whose latitude or longitude is absent or 0, whatever the altitude, and is no longer than the input |
| MissingGps.FilterMissingAppend | src/main/service.ts:31-33 | filtering distributes over concatenation, so the files keep their original order |
| MissingGps.FilterMissingKeepsAll | src/main/service.ts:31-33 | a list in which every file lacks a position is returned unchanged |
| MissingGps.FilterMissingDropsAll | src/main/service.ts:31-33 | a list in which every file has both coordinates gives the empty list |
| Service.ProcessService.MissingGPSPhotos | src/main/service.ts:29-34 | none exactly when no folder or no file list is loaded; otherwise exactly the loaded files lacking a position |
| Closest.ScanNearest | src/main/service.ts:61-72 | reference definition: none exactly on an empty track, otherwise a sample at least distance from the query and the earliest among those |
| Closest.EarliestNearestTimeUnique | src/main/service.ts:68-72 | any two earliest-nearest samples have the same time, so the chosen time is unique |
| Closest.BracketChoiceIsEarliestNearest | src/main/service.ts:61-72 | with every sample before the split earlier than the query and every sample after it later, the `beforeDiff <= afterDiff` choice (or the one present neighbour) is the earliest nearest sample |
| Closest.ClosestLocation | src/main/service.ts:39-72 | on a sorted track: none exactly when the track is empty; otherwise a sample of the track that no sample is closer than, and no equally close sample earlier than; an exact hit has the query's time; agrees in time with ScanNearest |
| Service.ProcessService.GetClosetLocation | src/main/service.ts:36-39 | none exactly when no track or an empty one is loaded; otherwise the earliest nearest sample of the loaded track |
| Service.ProcessService.constructor | src/main/service.ts:8-16 | nothing loaded, no callbacks, nothing written or published |
| Service.ProcessService.SetFolderData | src/main/service.ts:18-24 | stores the folder and publishes `{0, number of photos lacking a position}` (0 when the list is absent) to every callback; the trace gains exactly that publication |
| Service.ProcessService.SetCsvData | src/main/service.ts:25-27 | stores the sorted track; publishes nothing and changes nothing else |
| Service.ProcessService.Process | src/main/service.ts:75-86 | no folder, no track or no file list: nothing published, nothing written; otherwise publishes exactly RunEvents of the missing list to every callback, and the writes cover every photo with a capture time when the track has a sample; the trace gains `{0, total}` first, before every write, and then the writes interleaved with their publications |
| Service.ProcessService.ProcessPhotos | src/main/service.ts:87-111 | the loop publishes `{i + 1, total}` for each written photo i in order; each write sends the earliest nearest sample to its photo's file; photos without a capture time or a match get no write; the trace gains the writes in order, each successful one followed at once by its publication |
| Service.ProcessService.HandlePhoto | src/main/service.ts:88-110 | no write exactly when the photo has no capture time or the track is empty; otherwise the write of the earliest nearest sample to the photo's file, followed in the trace and to every callback by `{index + 1, total}` exactly when it succeeds |
| Service.ProcessService.OnProcessUpdate | src/main/service.ts:114-118 | appends the callback; nothing else changes |
| Service.ProcessService.TriggerUpdate | src/main/service.ts:120-122 | invokes every registered callback once with the value, in registration order; the trace gains that one publication; nothing else changes |
| Observers.BroadcastAt | src/main/service.ts:120-122 | one publish makes one invocation per callback, the i-th being to the i-th registered callback |
| Observers.FanoutLength | src/main/service.ts:120-122 | a series of publishes makes events times callbacks invocations |
| Observers.FanoutAt | src/main/service.ts:120-122 | event k reaches callback i at position k times the number of callbacks plus i: events in order, callbacks in registration order within each |
| Observers.FanoutAppend | src/main/service.ts:82-85 | publishing two series in turn makes the invocations of the first followed by those of the second |
| ProcessEvents.ProgressUpToShape | src/main/service.ts:87-110 | the events for the first k photos all carry the list length as total, have `processed` strictly increasing within 1..k, and hold `{i + 1, total}` exactly for the written photos i < k |
| ProcessEvents.RunEventsWellFormed | src/main/service.ts:82-110 | a run's stream starts with `{0, total}`; every event has the same total; `processed` strictly increases and never exceeds the total |
| ProcessEvents.EventForPhotoIff | src/main/service.ts:87-110 | photo i produces `{i + 1, total}` if and only if it has a capture time, a match exists and its write succeeds |
| ProcessEvents.CompletionIffLastWritten | src/main/service.ts:107-110 | on a non-empty list, an event with `processed == total` is published if and only if the last photo is written |
| ProcessEvents.AllWrittenCountsUp | src/main/service.ts:82-110 | when every photo has a capture time, the track has a sample and every write succeeds, the stream is exactly `{0, n}, {1, n}, ..., {n, n}` |
| ProcessEvents.AllWrittenPrefix | src/main/service.ts:87-110 | under the same conditions, the events for the first k photos are `{1, n}, ..., {k, n}` |
| ProcessEvents.PublishFollowsItsWrite | src/main/service.ts:96-110 | in the trace of a series of writes, every publication comes directly after a successful write, and carries that write's position plus 1 |
| ProcessEvents.WriteThenPublish | src/main/service.ts:96-110 | in the trace of a series of writes, a write is followed at once by `{index + 1, total}` if and only if it succeeded |
| ProcessEvents.PublishesAppend | src/main/service.ts:82-110 | the publications of two traces in turn are those of the first followed by those of the second |
| ProcessEvents.PublishesWriteEffects | src/main/service.ts:96-110 | a single write publishes `{index + 1, total}` if it succeeded and nothing otherwise |
| ProcessEvents.EventIffSuccessfulAttempt | src/main/service.ts:96-110 | a photo gets a progress event if and only if a write was made for it and succeeded |

## Left out

- The Electron shell (src/main/index.ts) is not modelled: windows, IPC handlers, dialogs, the folder scan and `exiftool.read`, CSV parsing and the 5-column check. The React UI (src/renderer/src/App.tsx, preload.tsx) is left out too. These are I/O and presentation.
- The sort at src/main/index.ts:131 is not re-implemented. It is the precondition `SortedByTime` of the search and of `SetCsvData`.
- The typing files that declare `CSVData` and `ProcessProgressData` are not part of this model. `Typings` still defines both records; their shapes are taken from where they are built and read (src/main/index.ts:129-132, src/renderer/src/App.tsx:16-19).
- `exiftool.write` is foreign code. Its outcome is the oracle `writeSucceeds`. Any failure is swallowed, as in the code. The GPS time string (`toISOString`) is not modelled.
- Date parsing of `DateTimeOriginal` is library behaviour. A capture time is an optional integer, so an unparseable date (`Invalid Date`, time NaN) is not modelled. In the code, every comparison with NaN in the search (service.ts:49-52) is false, so the search ends with `right == -1`. Then `Infinity <= NaN` is false (service.ts:72), and such a photo gets the first sample of the track written.
- A coordinate tag of NaN, or a tag that is a string, is not modelled. JavaScript treats NaN and the empty string as falsy. Only absent and 0 are falsy here.
- Asynchrony is not modelled: each `Process` runs to completion without interleaving. In the code, the run yields at every `await exiftool.write` (service.ts:97). The IPC handler does not await `process()` (src/main/index.ts:146), and the folder and track buttons stay enabled during a run (src/renderer/src/App.tsx:77-82). So `setFolderData` or `setCsvData` can run mid-run. That puts a `{0, m}` for the new folder into the stream, and later photos of the run are matched against the new track. The model does not cover this. It also does not cover callbacks that return promises, or a callback that throws and aborts the run. A callback is assumed to return normally and not to register further callbacks while it runs.
- Closest.ClosestLocation: when several samples share the nearest time, the contract fixes only the time of the result. It does not fix which of those samples the search lands on.
