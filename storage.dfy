/**
  The collaborators of the commit log that live outside commitlog.go: segments, their
  indexes, record batches and the filesystem. Only their interface is modelled. Every
  fallible call is given its result from outside (an `Outcome`), and every call the log
  makes into a collaborator is recorded as a `Call`, so that the order of the calls and
  the point where an operation gives up can be stated.
*/
module Storage {

  datatype Option<+T> = None | Some(value: T)

  /** The underlying cause of a failed filesystem call (an OS error). */
  datatype Fault = Fault(reason: string)

  /** What a fallible collaborator call reported. */
  datatype Outcome = Pass | Fail(fault: Fault)

  /** The errors the commit log returns to its callers. */
  datatype Error =
    | PathEmpty                    // New: "path is empty"
    | MkdirFailed(cause: Fault)    // Init: the directory error, wrapped as "mkdir failed"
    | ReadDirFailed(cause: Fault)  // Open: the directory error, wrapped as "read dir failed"
    | Io(cause: Fault)             // a segment, index or removal error, passed through unchanged

  datatype Result<+T> = Success(value: T) | Failure(error: Error)

  /** An index record: a logical offset and the byte position where its batch begins. */
  datatype Entry = Entry(offset: int, position: int)

  /**
    A record batch. Its header bytes, which hold the stamped offset, are abstracted
    into the `offset` field; the rest of the bytes are `payload`.
  */
  datatype MessageSet = MessageSet(offset: int, payload: seq<bv8>)

  /** The batch after `PutOffset(offset)`: the same bytes carrying the new offset. */
  function Stamped(ms: MessageSet, offset: int): (r: MessageSet)
    ensures r.offset == offset && r.payload == ms.payload
  {
    ms.(offset := offset)
  }

  /** What the commit log observes of a segment. */
  datatype Segment = Segment(baseOffset: int, nextOffset: int, position: int, maxBytes: int)

  /** A freshly created segment: nothing written, so the next offset is the base offset. */
  function EmptySegment(base: int, maxBytes: int): (seg: Segment)
  {
    Segment(base, base, 0, maxBytes)
  }

  /** `NewSegment(path, base, maxBytes)`: an empty segment, or the error the filesystem gave. */
  function CreateSegment(base: int, maxBytes: int, created: Outcome): (r: Result<Segment>)
    ensures r.Success? <==> created.Pass?
    ensures r.Success? ==> r.value.baseOffset == r.value.nextOffset == base && r.value.position == 0
    ensures r.Success? ==> r.value.maxBytes == maxBytes
    ensures r.Failure? ==> r.error == Io(created.fault)
  {
    match created
    case Pass => Success(EmptySegment(base, maxBytes))
    case Fail(f) => Failure(Io(f))
  }

  /**
    What one `Segment.Write` did: how far it moved the next offset and the write
    position, and whether it reported an error. Both amounts are arbitrary integers,
    so nothing is assumed about how a write advances the counters, on success or on
    failure.
  */
  datatype WriteOutcome = WriteOutcome(records: int, bytes: int, result: Outcome)

  /** The segment as it stands after a write. */
  function Written(seg: Segment, w: WriteOutcome): (r: Segment)
    ensures r.baseOffset == seg.baseOffset && r.maxBytes == seg.maxBytes
    ensures r.nextOffset - seg.nextOffset == w.records && r.position - seg.position == w.bytes
  {
    seg.(nextOffset := seg.nextOffset + w.records, position := seg.position + w.bytes)
  }

  /** A call the commit log makes into a collaborator. Segments are named by their place in the list. */
  datatype Call =
    | MkdirAll(path: string)
    | ReadDir(path: string)
    | NewSegment(base: int, maxBytes: int)
    | PutOffset(offset: int)
    | Write(segment: nat, batch: MessageSet)
    | WriteEntry(segment: nat, entry: Entry)
    | CloseSegment(segment: nat)
    | RemoveAll(path: string)
}
