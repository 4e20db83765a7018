/**
  Properties of the commit log over whole runs of appends, and what the orchestration
  does and does not guarantee on its own.
*/
module LogProperties {
  import opened Storage
  import opened LogSpec

  /** One append request: the batch and the results of its collaborator calls. */
  datatype Request = Request(ms: MessageSet, env: AppendEnv)

  /** A sequence of appends, in call order: the final state and what each call returned. */
  function Run(s: State, isFull: Segment -> bool, reqs: seq<Request>): (r: (State, seq<Appended>))
    requires Valid(s) && IsOpen(s)
    ensures Valid(r.0) && IsOpen(r.0) && r.0.opts == s.opts && |r.1| == |reqs|
    decreases |reqs|
  {
    if reqs == [] then (s, [])
    else
      var step := Append(s, reqs[0].ms, isFull, reqs[0].env);
      var rest := Run(step.state, isFull, reqs[1..]);
      (rest.0, [step.result] + rest.1)
  }

  /**
    Whatever the collaborators report, a run of appends keeps the oldest offset, keeps
    the offsets contiguous across rotations, never shrinks the list and leaves every
    segment before the one active at the start untouched.
  */
  lemma {:induction false} RunPreserves(s: State, isFull: Segment -> bool, reqs: seq<Request>)
    requires Valid(s) && IsOpen(s)
    ensures var r := Run(s, isFull, reqs);
            && OldestOffset(r.0) == OldestOffset(s)
            && (Contiguous(s) ==> Contiguous(r.0))
            && |r.0.segments| >= |s.segments|
            && r.0.segments[..|s.segments| - 1] == s.segments[..|s.segments| - 1]
    decreases |reqs|
  {
    if reqs != [] {
      var step := Append(s, reqs[0].ms, isFull, reqs[0].env);
      RunPreserves(step.state, isFull, reqs[1..]);
      var r := Run(step.state, isFull, reqs[1..]);
      var n := |s.segments|;
      var m := |step.state.segments|;
      assert r.0.segments[..n - 1] == r.0.segments[..m - 1][..n - 1];
    }
  }

  /** Every collaborator call of a request succeeds and the write adds exactly one offset. */
  predicate Clean(reqs: seq<Request>)
  {
    forall i :: 0 <= i < |reqs| ==>
      && reqs[i].env.create.Pass?
      && reqs[i].env.write.result.Pass?
      && reqs[i].env.write.records == 1
      && reqs[i].env.index.Pass?
  }

  /**
    When every call succeeds and each write takes one offset, the appends are given the
    consecutive offsets from the newest offset on, with no error, rotations or not.
  */
  lemma {:induction false} RunCleanOffsets(s: State, isFull: Segment -> bool, reqs: seq<Request>)
    requires Valid(s) && IsOpen(s) && Clean(reqs)
    ensures var r := Run(s, isFull, reqs);
            && (forall i :: 0 <= i < |reqs| ==> r.1[i] == Appended(NewestOffset(s) + i, None))
            && NewestOffset(r.0) == NewestOffset(s) + |reqs|
    decreases |reqs|
  {
    if reqs != [] {
      var step := Append(s, reqs[0].ms, isFull, reqs[0].env);
      assert Clean(reqs[1..]) by {
        forall i | 0 <= i < |reqs| - 1 ensures reqs[1..][i] == reqs[i + 1] { }
      }
      AppendFollowsProtocol(s, reqs[0].ms, isFull, reqs[0].env);
      FirstFailureAt(AppendOutcomes(isFull(Last(s.segments)), reqs[0].env), |AppendOutcomes(isFull(Last(s.segments)), reqs[0].env)|);
      RunCleanOffsets(step.state, isFull, reqs[1..]);
      var r := Run(s, isFull, reqs);
      forall i | 0 <= i < |reqs| ensures r.1[i] == Appended(NewestOffset(s) + i, None) {
        if i > 0 {
          assert r.1[i] == Run(step.state, isFull, reqs[1..]).1[i - 1];
        }
      }
    }
  }

  /**
    A log freshly made by `New` and `Open` gives the appends of a clean run the offsets
    0, 1, 2, ... in call order, and its oldest offset stays 0.
  */
  lemma FreshLogOffsets(opts: Options, isFull: Segment -> bool, reqs: seq<Request>)
    requires opts.path != [] && Clean(reqs)
    ensures var s := Open(New(opts).value, Pass, Pass).state;
            var r := Run(s, isFull, reqs);
            && (forall i :: 0 <= i < |reqs| ==> r.1[i] == Appended(i, None))
            && NewestOffset(r.0) == |reqs|
            && OldestOffset(r.0) == 0
            && Contiguous(r.0)
  {
    var s := FreshlyOpened(opts);
    RunCleanOffsets(s, isFull, reqs);
    RunPreserves(s, isFull, reqs);
  }

  /** The state `New` and a successful `Open` give: one empty segment at offset 0, active. */
  function FreshlyOpened(opts: Options): (s: State)
    requires opts.path != []
    ensures s == Open(New(opts).value, Pass, Pass).state
    ensures Valid(s) && IsOpen(s) && NewestOffset(s) == 0 && OldestOffset(s) == 0 && Contiguous(s)
  {
    State(opts, [EmptySegment(0, opts.segmentBytes)], Some(0))
  }

  /** Base offsets strictly increase along the list. */
  predicate StrictlyOrdered(s: State)
  {
    forall i, j :: 0 <= i < j < |s.segments| ==> s.segments[i].baseOffset < s.segments[j].baseOffset
  }

  /** Every segment holds at least one offset, except possibly the last; none goes backwards. */
  predicate Occupied(s: State)
  {
    && (forall i :: 0 <= i < |s.segments| - 1 ==> s.segments[i].baseOffset < s.segments[i].nextOffset)
    && (s.segments != [] ==> Last(s.segments).baseOffset <= Last(s.segments).nextOffset)
  }

  lemma {:induction false} OrderedUpTo(s: State, j: nat)
    requires Contiguous(s) && Occupied(s) && j < |s.segments|
    ensures forall i :: 0 <= i < j ==> s.segments[i].baseOffset < s.segments[j].baseOffset
  {
    if j > 0 {
      OrderedUpTo(s, j - 1);
    }
  }

  /** Contiguous segments that each hold an offset have strictly increasing base offsets. */
  lemma StrictlyOrderedFromOccupied(s: State)
    requires Contiguous(s) && Occupied(s)
    ensures StrictlyOrdered(s)
  {
    forall j | 0 <= j < |s.segments| {
      OrderedUpTo(s, j);
    }
  }

  /**
    The ordering of base offsets a commit log is meant to have holds over a clean run
    provided `IsFull` never reports an empty segment full: `commitlog.go` relies on
    that of `Segment.IsFull`.
  */
  lemma {:induction false} RunKeepsOrder(s: State, isFull: Segment -> bool, reqs: seq<Request>)
    requires Valid(s) && IsOpen(s) && Clean(reqs)
    requires Contiguous(s) && Occupied(s)
    requires forall seg :: isFull(seg) ==> seg.baseOffset < seg.nextOffset
    ensures var r := Run(s, isFull, reqs); Contiguous(r.0) && Occupied(r.0) && StrictlyOrdered(r.0)
    decreases |reqs|
  {
    StrictlyOrderedFromOccupied(s);
    if reqs != [] {
      var step := Append(s, reqs[0].ms, isFull, reqs[0].env);
      assert Clean(reqs[1..]) by {
        forall i | 0 <= i < |reqs| - 1 ensures reqs[1..][i] == reqs[i + 1] { }
      }
      var t := step.state;
      var n := |s.segments|;
      assert Occupied(t) by {
        forall i | 0 <= i < |t.segments| - 1 ensures t.segments[i].baseOffset < t.segments[i].nextOffset {
          if i < n - 1 {
            assert t.segments[i] == t.segments[..n - 1][i] == s.segments[..n - 1][i];
          }
        }
      }
      RunKeepsOrder(t, isFull, reqs[1..]);
    }
  }

  /**
    If an empty active segment reports full, the split puts a second segment at the
    same base offset: strict ordering then fails.
  */
  lemma FullEmptySegmentDuplicatesBase(s: State, ms: MessageSet, isFull: Segment -> bool, env: AppendEnv)
    requires Valid(s) && IsOpen(s) && env.create.Pass?
    requires isFull(Last(s.segments)) && Last(s.segments).baseOffset == Last(s.segments).nextOffset
    ensures !StrictlyOrdered(Append(s, ms, isFull, env).state)
  {
    var t := Append(s, ms, isFull, env).state;
    var n := |s.segments|;
    assert t.segments[n - 1].baseOffset == t.segments[n].baseOffset;
  }

  /**
    `Open` on a log that is already open adds another segment at base offset 0 and
    makes it active, so the next offset goes back to 0; once offsets have been
    handed out, the list is no longer contiguous.
  */
  lemma ReopenRestartsAtZero(s: State)
    requires Valid(s) && IsOpen(s) && NewestOffset(s) != 0
    ensures var r := Open(s, Pass, Pass);
            && |r.state.segments| == |s.segments| + 1
            && NewestOffset(r.state) == 0
            && !Contiguous(r.state)
  {
    var t := Open(s, Pass, Pass).state;
    var n := |s.segments|;
    assert t.segments[n].baseOffset != t.segments[n - 1].nextOffset;
  }

  /**
    `Close` keeps no record of what it closed: a second `Close`, whatever the first
    did, calls `Close` on the segments again from the first, stopping at the first
    failure. What a re-close reports is up to `Segment.Close`, so `second` is a
    separate set of outcomes.
  */
  lemma CloseAgainRestartsFromFirst(s: State, first: nat -> Outcome, second: nat -> Outcome)
    requires IsOpen(s)
    ensures var again := Close(Close(s, first).state, second);
            var n := |s.segments|;
            && again.state == s
            && again.calls == Performed(CloseProtocol(n), CloseOutcomes(n, second))
            && again.calls[0] == CloseSegment(0)
  {
  }
}
