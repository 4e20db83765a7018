# Commit log segment orchestration, in Dafny

This project models `CommitLog` from `commitlog/commitlog.go`: the orchestrator of an
append-only, segmented commit log. The log keeps an ordered list of segments and an
"active" slot holding the segment that takes writes. It assigns each appended batch the
active segment's next offset, and it rotates to a new segment lazily, when the active
segment reports itself full. It also closes all its segments in order and deletes its
directory.

The model has four modules:

- `Storage` (storage.dfy) holds the collaborators that `commitlog.go` calls but does not
  define: `Segment`, the index `Entry`, the record batch `MessageSet`, and the filesystem.
  A segment is a plain record of `baseOffset`, `nextOffset`, `position` and `maxBytes`.
  Each fallible collaborator call gets its result from outside, as an `Outcome`.
  `Segment.IsFull` is a parameter `isFull: Segment -> bool`. `Segment.Write` is a
  `WriteOutcome`: by how much it moved the next offset and the position (any integers,
  on success and on failure alike), and whether it failed. `NewSegment` either fails or
  gives an empty segment at the requested base offset. Each call the log makes into a
  collaborator is a `Call` value.
- `LogSpec` (logspec.dfy) is the log as a pure state machine: the segment list, the active
  slot, and one function per operation. Each function returns the next state, the
  value returned and the collaborator calls made. Their contracts state what the
  operations promise. The fail-fast discipline is a separate reference definition
  (`FirstFailure`, `Performed`, `FirstError`): run a fixed list of calls in order and
  stop at the first one that fails.
- `Commitlog` (commitlog.dfy) is the class `CommitLog`. It has the `segments` field, the
  active slot (`active`, the place of the stored segment in the list) and a ghost record
  of the calls made (`calls`). Its methods update these in place, step by step as the Go
  code does. Each is proved to make exactly the step that `LogSpec` gives for it.
- `LogProperties` (properties.dfy) runs many appends in a row (`Run`) and proves what holds
  over such runs. It also shows what `commitlog.go` does not guarantee by itself.

Behaviour worth knowing, all taken from the code:

- When the split fails, `Append` returns offset 0. This is the zero value of Go's named
  result. It is not the newest offset.
- When the write or the index write fails, `Append` still returns the newest offset,
  together with the error.
- `New` accepts a zero `SegmentBytes`. The default is only a TODO in the code.
- A second `Open` appends another segment at base offset 0 and makes it active
  (`ReopenRestartsAtZero`).
- `Close` keeps no record of what it closed. A second `Close` calls `Close` on the
  segments again from the first, stopping at the first failure. What a re-close
  reports is up to `Segment.Close` (`CloseAgainRestartsFromFirst`).
- A commit log is meant to have strictly increasing base offsets. Here that holds only if `IsFull` never
  reports an empty segment full (`RunKeepsOrder`, `FullEmptySegmentDuplicatesBase`).
  When `SegmentBytes` is 0 that depends on how `Segment.IsFull` is written, and
  segment.go is not part of this model.

## Model

| member | source | states |
|---|---|---|
| LogSpec.New | commitlog/commitlog.go:26-42 | fails, with the path-empty error, exactly when the path is empty; otherwise succeeds for any `SegmentBytes` (0 included), keeps the options, and has no segment and an empty active slot |
| Commitlog.New | commitlog/commitlog.go:26-42 | returns an error exactly when the path is empty; otherwise a fresh log object whose state is the one `LogSpec.New` gives, with no collaborator call made |
| Commitlog.CommitLog.constructor | commitlog/commitlog.go:36-39 | the struct literal: the given options, no segments, an empty active slot |
| LogSpec.Init | commitlog/commitlog.go:44-50 | makes exactly one directory-creation call on the path, leaves the state alone, and fails exactly when that call fails, wrapping its cause as "mkdir failed" |
| Commitlog.CommitLog.Init | commitlog/commitlog.go:44-50 | returns the error and records the call that `LogSpec.Init` gives |
| LogSpec.Open | commitlog/commitlog.go:52-67 | reads the directory first and creates a segment only if that passed; succeeds exactly when both calls pass; on success appends exactly one empty segment at base offset 0, makes it the active (last) one and sets the newest offset to 0; on a directory error returns it wrapped as "read dir failed"; on a creation error returns it unchanged; on any error leaves list and slot unchanged |
| Commitlog.CommitLog.Open | commitlog/commitlog.go:52-67 | updates the segment list and the active slot in place exactly as `LogSpec.Open` does, keeps the object invariant, and returns its error |
| LogSpec.Split | commitlog/commitlog.go:132-142 | asks for one new segment whose base offset is the newest offset observed before the split; on success the list grows by exactly one, the earlier segments are untouched, the new segment is last and active, and the newest offset is unchanged; on failure the error is passed through and nothing changes; the oldest offset and contiguity are kept |
| Commitlog.CommitLog.Split | commitlog/commitlog.go:132-142 | appends the created segment to the field and stores it in the slot exactly as `LogSpec.Split` does, keeping the active segment last |
| LogSpec.Append | commitlog/commitlog.go:69-89 | a split happens exactly when the active segment reports full; if that split fails, it returns offset 0 and the error and changes nothing; otherwise it returns the newest offset observed before the call; after a rotation that holds only under the assumption on created segments recorded for `Storage.CreateSegment` under "## Left out"; only the segment the batch lands in changes, and it is the new one after a rotation; that segment's next offset and position move by what the write reported; the oldest offset and contiguity are kept; the list stays non-empty and its active segment stays last |
| LogSpec.AppendFollowsProtocol | commitlog/commitlog.go:69-88 | the calls `Append` makes are the fixed protocol, cut right after the first call that fails: optional creation at the newest offset, stamping the batch with that offset, writing the stamped batch to the segment it lands in, writing the index entry of that offset and of the position before the write. The error returned is that failing call's error. So a failed split means no write and no index entry, and a failed write means no index entry |
| Commitlog.CommitLog.Append | commitlog/commitlog.go:69-89 | runs check, split, capture, stamp, write and index write on the fields in place, with the same early returns, and ends in exactly the state, result and calls `LogSpec.Append` gives |
| Commitlog.CommitLog.CheckSplit | commitlog/commitlog.go:128-130 | the answer of `IsFull` for the last segment of the list |
| Commitlog.CommitLog.ActiveSegment | commitlog/commitlog.go:106-108 | the segment in the active slot is the last element of the list |
| Commitlog.CommitLog.NewestOffset | commitlog/commitlog.go:96-98 | reading the active slot gives the next offset of the last segment |
| Commitlog.CommitLog.OldestOffset | commitlog/commitlog.go:100-104 | the base offset of the first segment, the quantity the model proves no append or split moves |
| LogSpec.Close | commitlog/commitlog.go:110-119 | closes segments 0, 1, 2, … in list order, stopping at the first that fails and returning its error, so no later segment is closed; succeeds exactly when every segment closes, and then has closed all of them; the state is unchanged |
| Commitlog.CommitLog.Close | commitlog/commitlog.go:110-119 | the loop over the segments makes exactly the calls and returns exactly the error `LogSpec.Close` gives, and changes nothing but the call record |
| LogSpec.DeleteAll | commitlog/commitlog.go:121-126 | first makes the calls of `Close`; removes the directory if and only if closing succeeded; when closing fails it returns that error; succeeds exactly when closing and removal both succeed; when closing succeeds and removal fails it returns the removal error |
| Commitlog.CommitLog.DeleteAll | commitlog/commitlog.go:121-126 | calls `Close`, then removes the directory only if that succeeded, as `LogSpec.DeleteAll` gives |
| LogProperties.Run | commitlog/commitlog.go:69-89 | a sequence of appends from an open log leaves it open, with its active segment last and its options unchanged, and gives one result per call |
| LogProperties.RunPreserves | commitlog/commitlog.go:69-89 | whatever the collaborators report, over any run of appends the oldest offset never moves, contiguity across rotation boundaries is kept, the list never shrinks, and every segment before the one active at the start is untouched |
| LogProperties.RunCleanOffsets | commitlog/commitlog.go:75-88 | when every call succeeds and each write takes one offset, the appends get consecutive offsets from the newest offset on, with no error, rotations or not, and the newest offset ends that many higher |
| LogProperties.FreshLogOffsets | commitlog/commitlog.go:52-67 | on a log made by `New` and `Open`, a clean run of N appends gets the offsets 0 to N-1 in call order; the newest offset ends at N, the oldest stays 0, and the list stays contiguous |
| LogProperties.StrictlyOrderedFromOccupied | commitlog/commitlog.go:132-142 | contiguous segments in which every segment but the last holds an offset have strictly increasing base offsets |
| LogProperties.RunKeepsOrder | commitlog/commitlog.go:128-142 | if `IsFull` never reports an empty segment full, a clean run keeps the segments contiguous, occupied and strictly ordered by base offset |
| LogProperties.FullEmptySegmentDuplicatesBase | commitlog/commitlog.go:128-142 | if an empty active segment reports full, the split gives two segments with the same base offset |
| LogProperties.ReopenRestartsAtZero | commitlog/commitlog.go:58-64 | `Open` on a log that is already open adds one more segment, sets the newest offset back to 0, and, once offsets have been handed out, breaks contiguity |
| LogProperties.CloseAgainRestartsFromFirst | commitlog/commitlog.go:110-119 | whatever the first `Close` did, a second `Close` on a non-empty list leaves the state as it was and calls `Close` on the segments again from the first, stopping at the first failure of its own outcomes; what a re-close reports is up to `Segment.Close` |

## Left out

- `Read` (commitlog/commitlog.go:91-95) only hands the buffer on to the active segment's `Read`. The model has nothing to add to that.
- The `sync.RWMutex` and the `atomic.Value` slot are left out. The log is modelled as a single-writer sequential object, and the slot is a plain field. Concurrent appends and the lock-free reads of the slot are not modelled.
- The `name` field is left out. It is computed by `filepath.Abs` and `filepath.Base`, which are foreign library calls, and the path is kept as given.
- Filesystem effects are left out: `os.MkdirAll`, `ioutil.ReadDir`, `os.RemoveAll`, and the file creation inside `NewSegment`. Each is a call that passes or fails with a cause. The model does not say what those calls do to the filesystem.
- Storage.CreateSegment: a successful `NewSegment` is taken to give a segment whose next offset is its base offset and whose position is 0. commitlog.go does not ensure this, because segment.go is not part of this model. In commitlog.go, the offset `Append` hands out after a rotation is whatever next offset `NewSegment` gave the new segment. These facts rest on that assumption and not on commitlog.go:
  - `LogSpec.Open` sets the newest offset to 0.
  - `LogSpec.Split` leaves the newest offset unchanged.
  - After a rotation, `LogSpec.Append` returns the newest offset observed before the call, the newest offset ends higher by exactly what the write reported, and the new segment's position ends at 0 plus the bytes the write reported.
  - After a rotation, `LogSpec.AppendFollowsProtocol` stamps and indexes the batch at the newest offset observed before the call, and its index entry has position 0.
  - `LogProperties.RunCleanOffsets` and `LogProperties.FreshLogOffsets` give consecutive offsets across a rotation.
  - In `LogProperties.RunKeepsOrder`, the segment that a rotation creates is occupied once the write lands.
  - In `LogProperties.ReopenRestartsAtZero`, the newest offset goes back to 0.
- The internals of `Segment`, `Index` and `MessageSet` are left out, because their source is not part of this model. `IsFull` is any function of the segment. `Write` may move the counters by any amounts. `WriteEntry` and segment `Close` pass or fail. `PutOffset` is recorded as a call, and the batch is given to `Write` stamped with the offset; the header bytes are abstracted into a field.
- The caller's batch being stamped in place (Go shares the slice) is recorded as the `PutOffset` call. It is not modelled as a change to the caller's own value.
- `Append`, `NewestOffset`, `OldestOffset`, `CheckSplit` and `ActiveSegment` require an opened log. Before `Open` the Go code panics, when it asserts the type of an empty slot or indexes an empty slice.
- Offsets and byte counts are unbounded integers. The wrap-around of Go's `int64` is not modelled.
- No concrete rotation scenario (a given segment size and given batch sizes) is modelled. Where the rotation happens depends on `Segment.IsFull`, which is not part of this model. `isFull` is a parameter instead.
