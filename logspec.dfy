/**
  The commit log as a pure state machine: the list of segments, the active-segment
  slot, and one function per operation giving the next state, the value returned and
  the collaborator calls made. Each function's contract states what the operation
  promises; the class in module Commitlog is proved to follow these functions.
*/
module LogSpec {
  import opened Storage

  datatype Options = Options(path: string, segmentBytes: int)

  /** `active` is the active-segment slot, holding the place of the segment stored in it. */
  datatype State = State(opts: Options, segments: seq<Segment>, active: Option<nat>)

  /** The outcome of one operation: the next state, what it returned, the calls it made. */
  datatype Step<+T> = Step(state: State, result: T, calls: seq<Call>)

  /** What `Append` returns: the offset, and the error if any. */
  datatype Appended = Appended(offset: int, err: Option<Error>)

  /** The results of the fallible calls one `Append` may make. */
  datatype AppendEnv = AppendEnv(create: Outcome, write: WriteOutcome, index: Outcome)

  /**
    The structural invariant: before the first segment exists the slot is empty;
    afterwards it holds the last segment.
  */
  predicate Valid(s: State)
  {
    if s.segments == [] then s.active == None else s.active == Some(|s.segments| - 1)
  }

  predicate IsOpen(s: State)
  {
    s.segments != []
  }

  function Last(segs: seq<Segment>): (seg: Segment)
    requires segs != []
  {
    segs[|segs| - 1]
  }

  /** The offset the next append will be given: the next offset of the last segment. */
  function NewestOffset(s: State): (r: int)
    requires IsOpen(s)
  {
    Last(s.segments).nextOffset
  }

  function OldestOffset(s: State): (r: int)
    requires IsOpen(s)
  {
    s.segments[0].baseOffset
  }

  /** No gap and no overlap at any rotation boundary. */
  predicate Contiguous(s: State)
  {
    forall i :: 1 <= i < |s.segments| ==> s.segments[i].baseOffset == s.segments[i - 1].nextOffset
  }

  // ---------------------------------------------------------------------------
  // Fail-fast sequences of calls

  /** The place of the first failure in `outs`, or `|outs|` when every call passed. */
  function FirstFailure(outs: seq<Outcome>): (k: nat)
    ensures k <= |outs|
    ensures forall j :: 0 <= j < k ==> outs[j].Pass?
    ensures k < |outs| ==> outs[k].Fail?
  {
    if outs == [] then 0
    else if outs[0].Fail? then 0
    else 1 + FirstFailure(outs[1..])
  }

  /**
    The calls actually made when `protocol` is run in order and given up at the first
    failing call: the protocol up to and including that call.
  */
  function Performed(protocol: seq<Call>, outs: seq<Outcome>): (r: seq<Call>)
    requires |protocol| == |outs|
    ensures |r| <= |protocol| && r == protocol[..|r|]
    ensures forall j :: 0 <= j < |r| - 1 ==> outs[j].Pass?
    ensures |r| == |outs| <==> forall j :: 0 <= j < |outs| - 1 ==> outs[j].Pass?
    ensures 0 < |r| < |outs| ==> outs[|r| - 1].Fail?
    ensures |outs| > 0 ==> |r| > 0
  {
    var k := FirstFailure(outs);
    protocol[..if k < |outs| then k + 1 else |outs|]
  }

  /** The error a fail-fast sequence reports: the first failing call's, passed through. */
  function FirstError(outs: seq<Outcome>): (e: Option<Error>)
    ensures e.None? <==> forall j :: 0 <= j < |outs| ==> outs[j].Pass?
    ensures e.Some? ==> exists j :: 0 <= j < |outs| && outs[j].Fail? && e == Some(Io(outs[j].fault))
  {
    var k := FirstFailure(outs);
    if k < |outs| then Some(Io(outs[k].fault)) else None
  }

  // ---------------------------------------------------------------------------
  // Operations

  /** `New`: rejects an empty path and nothing else; creates no segment. */
  function New(opts: Options): (r: Result<State>)
    ensures r.Failure? <==> opts.path == []
    ensures r.Failure? ==> r.error == PathEmpty
    ensures r.Success? ==> Valid(r.value) && !IsOpen(r.value) && r.value.opts == opts
  {
    if opts.path == [] then Failure(PathEmpty) else Success(State(opts, [], None))
  }

  /** `Init`: one directory-creation call; the state is untouched. */
  function Init(s: State, mkdir: Outcome): (r: Step<Option<Error>>)
    ensures r.state == s && r.calls == [MkdirAll(s.opts.path)]
    ensures r.result.None? <==> mkdir.Pass?
    ensures mkdir.Fail? ==> r.result == Some(MkdirFailed(mkdir.fault))
  {
    Step(s, if mkdir.Fail? then Some(MkdirFailed(mkdir.fault)) else None, [MkdirAll(s.opts.path)])
  }

  /**
    `Open`: reads the directory, then creates one segment at base offset 0 and makes it
    active. Nothing changes unless both calls pass.
  */
  function Open(s: State, readDir: Outcome, create: Outcome): (r: Step<Option<Error>>)
    requires Valid(s)
    ensures Valid(r.state) && r.state.opts == s.opts
    ensures r.result.None? <==> readDir.Pass? && create.Pass?
    ensures readDir.Fail? ==> r.result == Some(ReadDirFailed(readDir.fault)) && r.calls == [ReadDir(s.opts.path)]
    ensures readDir.Pass? ==> r.calls == [ReadDir(s.opts.path), NewSegment(0, s.opts.segmentBytes)]
    ensures readDir.Pass? && create.Fail? ==> r.result == Some(Io(create.fault))
    ensures r.result.Some? ==> r.state == s
    ensures r.result.None? ==>
              && IsOpen(r.state)
              && r.state.segments == s.segments + [EmptySegment(0, s.opts.segmentBytes)]
              && r.state.active == Some(|s.segments|)
              && NewestOffset(r.state) == 0
  {
    if readDir.Fail? then Step(s, Some(ReadDirFailed(readDir.fault)), [ReadDir(s.opts.path)])
    else
      var calls := [ReadDir(s.opts.path), NewSegment(0, s.opts.segmentBytes)];
      match CreateSegment(0, s.opts.segmentBytes, create)
      case Failure(e) => Step(s, Some(e), calls)
      case Success(seg) => Step(s.(segments := s.segments + [seg], active := Some(|s.segments|)), None, calls)
  }

  /**
    `split`: one segment-creation call at the newest offset. On success the list grows
    by exactly the new segment, which becomes active; on failure nothing changes.
  */
  function Split(s: State, create: Outcome): (r: Step<Option<Error>>)
    requires Valid(s) && IsOpen(s)
    ensures Valid(r.state) && IsOpen(r.state) && r.state.opts == s.opts
    ensures r.calls == [NewSegment(NewestOffset(s), s.opts.segmentBytes)]
    ensures r.result.None? <==> create.Pass?
    ensures r.result.Some? ==> r.result == Some(Io(create.fault)) && r.state == s
    ensures r.result.None? ==>
              && |r.state.segments| == |s.segments| + 1
              && r.state.segments[..|s.segments|] == s.segments
              && Last(r.state.segments) == EmptySegment(NewestOffset(s), s.opts.segmentBytes)
              && NewestOffset(r.state) == NewestOffset(s)
    ensures OldestOffset(r.state) == OldestOffset(s)
    ensures Contiguous(s) ==> Contiguous(r.state)
  {
    var calls := [NewSegment(NewestOffset(s), s.opts.segmentBytes)];
    match CreateSegment(NewestOffset(s), s.opts.segmentBytes, create)
    case Failure(e) => Step(s, Some(e), calls)
    case Success(seg) => Step(s.(segments := s.segments + [seg], active := Some(|s.segments|)), None, calls)
  }

  /** Whether `Append` would give up in its split: the active segment reports full and creation fails. */
  predicate SplitFails(s: State, isFull: Segment -> bool, env: AppendEnv)
    requires IsOpen(s)
  {
    isFull(Last(s.segments)) && env.create.Fail?
  }

  /**
    The calls `Append` makes when nothing fails: an optional segment creation at the
    newest offset, then stamping the batch with the newest offset, writing it to the
    segment it lands in, and indexing it at the position where it lands.
  */
  function AppendProtocol(s: State, ms: MessageSet, rotate: bool): (p: seq<Call>)
    requires IsOpen(s)
    ensures |p| == if rotate then 4 else 3
  {
    var offset := NewestOffset(s);
    var target := if rotate then |s.segments| else |s.segments| - 1;
    var position := if rotate then 0 else Last(s.segments).position;
    (if rotate then [NewSegment(offset, s.opts.segmentBytes)] else [])
    + [PutOffset(offset), Write(target, Stamped(ms, offset)), WriteEntry(target, Entry(offset, position))]
  }

  /** The outcomes of the calls of `AppendProtocol`, in the same order (stamping cannot fail). */
  function AppendOutcomes(rotate: bool, env: AppendEnv): (outs: seq<Outcome>)
    ensures |outs| == if rotate then 4 else 3
  {
    (if rotate then [env.create] else []) + [Pass, env.write.result, env.index]
  }

  /**
    `Append`: rotate if the active segment reports full, then take the active
    segment's position and next offset, stamp the batch, write it, and index it,
    giving up at the first failure.
  */
  function Append(s: State, ms: MessageSet, isFull: Segment -> bool, env: AppendEnv): (r: Step<Appended>)
    requires Valid(s) && IsOpen(s)
    ensures Valid(r.state) && IsOpen(r.state) && r.state.opts == s.opts
    ensures r.result.offset == if SplitFails(s, isFull, env) then 0 else NewestOffset(s)
    ensures SplitFails(s, isFull, env) ==> r.state == s
    ensures !SplitFails(s, isFull, env) ==>
              var rotate := isFull(Last(s.segments));
              var n := |s.segments|;
              && |r.state.segments| == (if rotate then n + 1 else n)
              && r.state.segments[..n - 1] == s.segments[..n - 1]
              && (rotate ==> r.state.segments[n - 1] == s.segments[n - 1])
              && Last(r.state.segments).baseOffset == (if rotate then NewestOffset(s) else Last(s.segments).baseOffset)
              && Last(r.state.segments).maxBytes == (if rotate then s.opts.segmentBytes else Last(s.segments).maxBytes)
              && NewestOffset(r.state) == NewestOffset(s) + env.write.records
              && Last(r.state.segments).position == (if rotate then 0 else Last(s.segments).position) + env.write.bytes
    ensures OldestOffset(r.state) == OldestOffset(s)
    ensures Contiguous(s) ==> Contiguous(r.state)
  {
    var split := if isFull(Last(s.segments)) then Split(s, env.create) else Step(s, None, []);
    if split.result.Some? then
      Step(s, Appended(0, split.result), split.calls)
    else
      var t := split.state;
      var a := |t.segments| - 1;
      var seg := t.segments[a];
      var position := seg.position;
      var offset := seg.nextOffset;
      var stamped := Stamped(ms, offset);
      var u := t.(segments := t.segments[a := Written(seg, env.write)]);
      var wrote := split.calls + [PutOffset(offset), Write(a, stamped)];
      if env.write.result.Fail? then
        Step(u, Appended(offset, Some(Io(env.write.result.fault))), wrote)
      else
        var indexed := wrote + [WriteEntry(a, Entry(offset, position))];
        if env.index.Fail? then
          Step(u, Appended(offset, Some(Io(env.index.fault))), indexed)
        else
          Step(u, Appended(offset, None), indexed)
  }

  /** The place of the first failure is determined by the outcomes alone. */
  lemma FirstFailureAt(outs: seq<Outcome>, k: nat)
    requires k <= |outs|
    requires forall j :: 0 <= j < k ==> outs[j].Pass?
    requires k < |outs| ==> outs[k].Fail?
    ensures FirstFailure(outs) == k
  {
  }

  /**
    `Append` runs a fixed protocol (optional split, stamp, write, index write) and gives
    up at the first failing call, returning that call's error.
  */
  lemma AppendFollowsProtocol(s: State, ms: MessageSet, isFull: Segment -> bool, env: AppendEnv)
    requires Valid(s) && IsOpen(s)
    ensures var rotate := isFull(Last(s.segments));
            var outs := AppendOutcomes(rotate, env);
            var r := Append(s, ms, isFull, env);
            r.calls == Performed(AppendProtocol(s, ms, rotate), outs) && r.result.err == FirstError(outs)
  {
    var rotate := isFull(Last(s.segments));
    var outs := AppendOutcomes(rotate, env);
    var d := if rotate then 1 else 0;
    if rotate && env.create.Fail? {
      FirstFailureAt(outs, 0);
    } else if env.write.result.Fail? {
      FirstFailureAt(outs, d + 1);
    } else if env.index.Fail? {
      FirstFailureAt(outs, d + 2);
    } else {
      FirstFailureAt(outs, d + 3);
    }
  }

  /** The calls a complete close makes: every segment, in list order. */
  function CloseProtocol(n: nat): (p: seq<Call>)
    ensures |p| == n && forall j :: 0 <= j < n ==> p[j] == CloseSegment(j)
  {
    seq(n, j requires 0 <= j < n => CloseSegment(j))
  }

  /** What closing each segment reports, in list order. */
  function CloseOutcomes(n: nat, closeResult: nat -> Outcome): (outs: seq<Outcome>)
    ensures |outs| == n && forall j :: 0 <= j < n ==> outs[j] == closeResult(j)
  {
    seq(n, j requires 0 <= j < n => closeResult(j))
  }

  /**
    `Close`: closes the segments in list order and stops at the first one that fails,
    returning its error; the segments after it are not closed.
  */
  function Close(s: State, closeResult: nat -> Outcome): (r: Step<Option<Error>>)
    ensures r.state == s
    ensures |r.calls| <= |s.segments|
    ensures forall j :: 0 <= j < |r.calls| ==> r.calls[j] == CloseSegment(j)
    ensures forall j :: 0 <= j < |r.calls| - 1 ==> closeResult(j).Pass?
    ensures r.result.None? <==> forall j :: 0 <= j < |s.segments| ==> closeResult(j).Pass?
    ensures r.result.None? ==> |r.calls| == |s.segments|
    ensures r.result.Some? ==>
              |r.calls| > 0 && closeResult(|r.calls| - 1).Fail? && r.result == Some(Io(closeResult(|r.calls| - 1).fault))
  {
    var n := |s.segments|;
    var outs := CloseOutcomes(n, closeResult);
    Step(s, FirstError(outs), Performed(CloseProtocol(n), outs))
  }

  /** `DeleteAll`: close, and remove the directory only if closing succeeded. */
  function DeleteAll(s: State, closeResult: nat -> Outcome, remove: Outcome): (r: Step<Option<Error>>)
    ensures r.state == s
    ensures var c := Close(s, closeResult);
            && |c.calls| <= |r.calls| && r.calls[..|c.calls|] == c.calls
            && (c.result.Some? ==> r == c)
            && (c.result.None? ==> r.calls == c.calls + [RemoveAll(s.opts.path)])
    ensures RemoveAll(s.opts.path) in r.calls <==> Close(s, closeResult).result.None?
    ensures r.result.None? <==> Close(s, closeResult).result.None? && remove.Pass?
    ensures Close(s, closeResult).result.None? && remove.Fail? ==> r.result == Some(Io(remove.fault))
  {
    var c := Close(s, closeResult);
    if c.result.Some? then c
    else Step(s, if remove.Fail? then Some(Io(remove.fault)) else None, c.calls + [RemoveAll(s.opts.path)])
  }
}
