/**
  The commit log object: the segment list and the active-segment slot as fields that
  the operations update in place, as in commitlog.go. The locks and the atomic slot are
  not modelled: the log is a single-writer sequential object. Each operation is proved
  to make exactly the step that module LogSpec gives for it; `calls` records every call
  made into a collaborator.
*/
module Commitlog {
  import opened Storage
  import LogSpec

  class CommitLog {
    const opts: LogSpec.Options
    var segments: seq<Segment>
    /** The active-segment slot: the place in `segments` of the segment stored in it. */
    var active: Option<nat>
    ghost var calls: seq<Call>

    function State(): (s: LogSpec.State)
      reads this
    {
      LogSpec.State(opts, segments, active)
    }

    ghost predicate Valid()
      reads this
    {
      LogSpec.Valid(State())
    }

    predicate IsOpen()
      reads this
    {
      LogSpec.IsOpen(State())
    }

    /** The struct literal of `New`: no segment, an empty slot. */
    constructor (opts: LogSpec.Options)
      ensures Valid() && State() == LogSpec.State(opts, [], None) && calls == []
    {
      this.opts := opts;
      segments := [];
      active := None;
      calls := [];
    }

    /** `activeSegment`: the segment in the slot, which is always the last one. */
    function ActiveSegment(): (seg: Segment)
      reads this
      requires Valid() && IsOpen()
      ensures seg == segments[|segments| - 1]
    {
      segments[active.value]
    }

    /** `checkSplit`: whether the active segment reports itself full. */
    function CheckSplit(isFull: Segment -> bool): (r: bool)
      reads this
      requires Valid() && IsOpen()
      ensures r == isFull(LogSpec.Last(segments))
    {
      isFull(ActiveSegment())
    }

    function NewestOffset(): (r: int)
      reads this
      requires Valid() && IsOpen()
      ensures r == LogSpec.NewestOffset(State())
    {
      ActiveSegment().nextOffset
    }

    function OldestOffset(): (r: int)
      reads this
      requires IsOpen()
      ensures r == LogSpec.OldestOffset(State())
    {
      segments[0].baseOffset
    }

    method Init(mkdir: Outcome) returns (err: Option<Error>)
      modifies this`calls
      ensures var r := LogSpec.Init(old(State()), mkdir); err == r.result && calls == old(calls) + r.calls
    {
      calls := calls + [MkdirAll(opts.path)];
      if mkdir.Fail? {
        return Some(MkdirFailed(mkdir.fault));
      }
      return None;
    }

    method Open(readDir: Outcome, create: Outcome) returns (err: Option<Error>)
      requires Valid()
      modifies this
      ensures Valid()
      ensures var r := LogSpec.Open(old(State()), readDir, create);
              State() == r.state && err == r.result && calls == old(calls) + r.calls
    {
      calls := calls + [ReadDir(opts.path)];
      if readDir.Fail? {
        return Some(ReadDirFailed(readDir.fault));
      }
      calls := calls + [NewSegment(0, opts.segmentBytes)];
      var created := CreateSegment(0, opts.segmentBytes, create);
      if created.Failure? {
        return Some(created.error);
      }
      active := Some(|segments|);
      segments := segments + [created.value];
      return None;
    }

    method Split(create: Outcome) returns (err: Option<Error>)
      requires Valid() && IsOpen()
      modifies this
      ensures Valid() && IsOpen()
      ensures var r := LogSpec.Split(old(State()), create);
              State() == r.state && err == r.result && calls == old(calls) + r.calls
    {
      var base := NewestOffset();
      calls := calls + [NewSegment(base, opts.segmentBytes)];
      var created := CreateSegment(base, opts.segmentBytes, create);
      if created.Failure? {
        return Some(created.error);
      }
      segments := segments + [created.value];
      active := Some(|segments| - 1);
      return None;
    }

    method Append(ms: MessageSet, isFull: Segment -> bool, env: LogSpec.AppendEnv) returns (offset: int, err: Option<Error>)
      requires Valid() && IsOpen()
      modifies this
      ensures Valid() && IsOpen()
      ensures var r := LogSpec.Append(old(State()), ms, isFull, env);
              State() == r.state && LogSpec.Appended(offset, err) == r.result && calls == old(calls) + r.calls
    {
      offset := 0;
      if CheckSplit(isFull) {
        err := Split(env.create);
        if err.Some? {
          return offset, err;
        }
      }
      var a := active.value;
      var position := ActiveSegment().position;
      offset := ActiveSegment().nextOffset;
      var stamped := Stamped(ms, offset);
      calls := calls + [PutOffset(offset)];
      segments := segments[a := Written(segments[a], env.write)];
      calls := calls + [Write(a, stamped)];
      if env.write.result.Fail? {
        return offset, Some(Io(env.write.result.fault));
      }
      var e := Entry(offset, position);
      calls := calls + [WriteEntry(a, e)];
      if env.index.Fail? {
        return offset, Some(Io(env.index.fault));
      }
      return offset, None;
    }

    method Close(closeResult: nat -> Outcome) returns (err: Option<Error>)
      modifies this`calls
      ensures var r := LogSpec.Close(old(State()), closeResult); err == r.result && calls == old(calls) + r.calls
    {
      var i := 0;
      while i < |segments|
        invariant 0 <= i <= |segments|
        invariant forall j :: 0 <= j < i ==> closeResult(j).Pass?
        invariant calls == old(calls) + LogSpec.CloseProtocol(i)
      {
        calls := calls + [CloseSegment(i)];
        var outcome := closeResult(i);
        if outcome.Fail? {
          LogSpec.FirstFailureAt(LogSpec.CloseOutcomes(|segments|, closeResult), i);
          return Some(Io(outcome.fault));
        }
        i := i + 1;
      }
      LogSpec.FirstFailureAt(LogSpec.CloseOutcomes(|segments|, closeResult), i);
      return None;
    }

    method DeleteAll(closeResult: nat -> Outcome, remove: Outcome) returns (err: Option<Error>)
      modifies this`calls
      ensures var r := LogSpec.DeleteAll(old(State()), closeResult, remove); err == r.result && calls == old(calls) + r.calls
    {
      err := Close(closeResult);
      if err.Some? {
        return err;
      }
      calls := calls + [RemoveAll(opts.path)];
      if remove.Fail? {
        return Some(Io(remove.fault));
      }
      return None;
    }
  }

  /** `New`: a log object for a non-empty path; the filesystem is not touched. */
  method New(opts: LogSpec.Options) returns (r: Result<CommitLog>)
    ensures r.Failure? <==> opts.path == []
    ensures r.Failure? ==> r.error == PathEmpty
    ensures r.Success? ==> fresh(r.value) && r.value.Valid() && r.value.calls == []
    ensures r.Success? ==> r.value.State() == LogSpec.New(opts).value
  {
    if opts.path == [] {
      return Failure(PathEmpty);
    }
    var l := new CommitLog(opts);
    return Success(l);
  }
}
