/**
 Requests end: in every fair schedule one that the next segment serves returns, and one on an empty
 FIFO waits no longer than the filler lives.
 */
module FifoServed {
  import opened Fifo
  import opened Cyclic
  import opened FifoSafety
  import opened FifoLate
  import opened FifoTheorems
  import opened FifoProgress
  import opened FifoAwait

  /** The request number `g` is under way. */
  predicate Pending(s: State, g: nat, fd: int, size: int) {
    |s.got| == g <= |s.put| && Asking(s.consumer) && s.consumer.fd == fd && s.consumer.size == size
  }

  /** It has been served; or no segment will come; or the next segment is for another file, or too long. */
  predicate Ended(s: State, g: nat, fd: int, size: int) {
    || |s.got| > g
    || (|s.got| == g && FillerGone(s) && |s.put| <= g)
    || (|s.got| == g < |s.put| && !Serves(s.put[g], fd, size))
  }

  function RequestRank(p: ConsumerPc): nat {
    match p
    case Enter(_, _) => 5
    case Release(_, _) => 4
    case PollReader(_, _) => 3
    case ReadLen(_, _) => 2
    case CheckFd(_, _, _) => 1
    case _ => 0
  }

  // ------------------------------------------------------------------ one step

  /** A request that has not ended is in an orderly FIFO. */
  lemma PendingIsCore(c: Config, s: State, g: nat, fd: int, size: int)
    requires Inv(c, s) && Pending(s, g, fd, size) && !Ended(s, g, fd, size)
    ensures Core(c, s) && (|s.put| == g ==> !FillerGone(s))
  {
  }

  /** When all segments stored were taken, the filler finds an open slot. */
  lemma RoomWhenDrained(c: Config, s: State)
    requires Core(c, s) && |s.put| == |s.got| && !s.filler.Exited?
    ensures !FillerBlocked(c, s)
  {
    var used := |s.put| - s.freed;
    assert used <= 1 && s.slots[Idx(s.r, used, c.slots)].owner == Writer;
  }

  /** What one step does to a pending request. */
  ghost predicate Advances(s: State, ch: Choice, s': State, g: nat, fd: int, size: int) {
    || |s'.got| > g
    || (Pending(s', g, fd, size) &&
        if ch.MoveFiller? then
          && s'.consumer == s.consumer && |s'.put| >= |s.put|
          && (|s.put| == g ==> |s'.put| > g || CloserPc(s'.filler, s.filler))
        else RequestRank(s'.consumer) < RequestRank(s.consumer) || (s' == s && |s.put| == g))
  }

  lemma FillerAdvances(c: Config, s: State, ch: Choice, g: nat, fd: int, size: int)
    requires Inv(c, s) && ch.MoveFiller? && Pending(s, g, fd, size) && !Ended(s, g, fd, size)
    ensures Advances(s, ch, Step(c, s, ch), g, fd, size)
  {
    FillerHistory(c, s, ch);
    if |s.put| == g {
      PendingIsCore(c, s, g, fd, size);
      RoomWhenDrained(c, s);
      FillerCloser(c, s, ch);
    }
  }

  /** The poll finds the segment if there is one. */
  lemma PollAdvances(c: Config, s: State, ch: Choice, g: nat, fd: int, size: int)
    requires Core(c, s) && ch.MoveConsumer? && s.consumer.PollReader?
    requires Pending(s, g, fd, size) && !Ended(s, g, fd, size)
    ensures Advances(s, ch, Step(c, s, ch), g, fd, size)
  {
    HeadSlot(c, s);
  }

  lemma CheckAdvances(c: Config, s: State, ch: Choice, g: nat, fd: int, size: int)
    requires Core(c, s) && ch.MoveConsumer? && s.consumer.CheckFd?
    requires Pending(s, g, fd, size) && !Ended(s, g, fd, size)
    ensures Advances(s, ch, Step(c, s, ch), g, fd, size)
  {
    RequestOutcome(c, s, ch);
  }

  lemma ConsumerAdvances(c: Config, s: State, ch: Choice, g: nat, fd: int, size: int)
    requires Inv(c, s) && ch.MoveConsumer? && Pending(s, g, fd, size) && !Ended(s, g, fd, size)
    ensures Advances(s, ch, Step(c, s, ch), g, fd, size)
  {
    PendingIsCore(c, s, g, fd, size);
    if s.consumer.PollReader? {
      PollAdvances(c, s, ch, g, fd, size);
    } else if s.consumer.CheckFd? {
      CheckAdvances(c, s, ch, g, fd, size);
    }
  }

  // ------------------------------------------------------------------ whole schedules

  /** `at` are the states of a schedule; `j1` and `j2` are the next moves of filler and consumer. */
  lemma {:induction false} RequestArrives(at: nat -> State, sched: nat -> Choice, i: nat, j1: nat, j2: nat,
                                          g: nat, fd: int, size: int) returns (m: nat)
    requires forall k: nat :: Pending(at(k), g, fd, size) && !Ended(at(k), g, fd, size) ==>
               Advances(at(k), sched(k), at(k + 1), g, fd, size)
    requires Fair(sched) && i <= j1 && sched(j1).MoveFiller? && i <= j2 && sched(j2).MoveConsumer?
    requires Pending(at(i), g, fd, size)
    ensures m >= i && Ended(at(m), g, fd, size)
    decreases RequestRank(at(i).consumer), if |at(i).put| > g then 0 else 1,
              if |at(i).put| > g then 0 else StageRank(at(i).filler),
              if |at(i).put| > g then 0 else FillLeft(at(i).filler),
              if |at(i).put| > g then j2 - i else j1 - i
  {
    if Ended(at(i), g, fd, size) {
      return i;
    }
    assert Advances(at(i), sched(i), at(i + 1), g, fd, size);
    if |at(i + 1).got| > g {
      return i + 1;
    }
    assert FillerMoves(sched, i + 1) && ConsumerMoves(sched, i + 1);
    var k1: nat :| k1 >= i + 1 && sched(k1).MoveFiller?;
    var k2: nat :| k2 >= i + 1 && sched(k2).MoveConsumer?;
    m := RequestArrives(at, sched, i + 1, if j1 > i then j1 else k1, if j2 > i then j2 else k2, g, fd, size);
  }

  lemma StepAdvances(c: Config, s0: State, sched: nat -> Choice, i: nat, g: nat, fd: int, size: int)
    requires Init(c, s0)
    ensures var s := StateAt(c, s0, sched, i);
            Pending(s, g, fd, size) && !Ended(s, g, fd, size) ==>
              Advances(s, sched(i), StateAt(c, s0, sched, i + 1), g, fd, size)
  {
    var s := StateAt(c, s0, sched, i);
    StateOk(c, s0, sched, i);
    NextState(c, s0, sched, i);
    if Pending(s, g, fd, size) && !Ended(s, g, fd, size) {
      if sched(i).MoveFiller? {
        FillerAdvances(c, s, sched(i), g, fd, size);
      } else {
        ConsumerAdvances(c, s, sched(i), g, fd, size);
      }
    }
  }

  /** A request beyond what was stored is made when the filler is gone. */
  lemma BeyondIsEnded(c: Config, s: State)
    requires Inv(c, s) && |s.got| > |s.put|
    ensures FillerGone(s)
  {
  }

  /**
   In every fair schedule a request is served, or finds that the next segment does not serve it, or
   there is no next segment and the filler is gone.
   */
  lemma RequestEnds(c: Config, s0: State, sched: nat -> Choice, i: nat)
    requires Init(c, s0) && Fair(sched) && Asking(StateAt(c, s0, sched, i).consumer)
    ensures var s := StateAt(c, s0, sched, i);
            exists m: nat :: m >= i && Ended(StateAt(c, s0, sched, m), |s.got|, s.consumer.fd, s.consumer.size)
  {
    var s := StateAt(c, s0, sched, i);
    var g, fd, size := |s.got|, s.consumer.fd, s.consumer.size;
    StateOk(c, s0, sched, i);
    if g > |s.put| {
      BeyondIsEnded(c, s);
      assert Ended(s, g, fd, size);
    } else {
      var at := (k: nat) requires Init(c, s0) => StateAt(c, s0, sched, k);
      forall k: nat | Pending(at(k), g, fd, size) && !Ended(at(k), g, fd, size)
        ensures Advances(at(k), sched(k), at(k + 1), g, fd, size)
      {
        StepAdvances(c, s0, sched, k, g, fd, size);
      }
      assert FillerMoves(sched, i) && ConsumerMoves(sched, i);
      var j1: nat :| j1 >= i && sched(j1).MoveFiller?;
      var j2: nat :| j2 >= i && sched(j2).MoveConsumer?;
      var m := RequestArrives(at, sched, i, j1, j2, g, fd, size);
      assert Ended(StateAt(c, s0, sched, m), g, fd, size);
    }
  }

  // ------------------------------------------------------------------ a request that fits

  /** Segments stored stay stored. */
  lemma PutStep(c: Config, s: State, ch: Choice)
    requires WellFormed(c, s)
    ensures s.put <= Step(c, s, ch).put
  {
    if ch.MoveFiller? {
      FillerHistory(c, s, ch);
    }
  }

  lemma PutNext(c: Config, s0: State, sched: nat -> Choice, k: nat)
    requires Init(c, s0)
    ensures StateAt(c, s0, sched, k).put <= StateAt(c, s0, sched, k + 1).put
  {
    NextState(c, s0, sched, k);
    PutStep(c, StateAt(c, s0, sched, k), sched(k));
  }

  lemma {:induction false} Grows(put: nat -> seq<Segment>, i: nat, m: nat)
    requires i <= m && forall k: nat :: put(k) <= put(k + 1)
    ensures put(i) <= put(m)
    decreases m
  {
    if i < m {
      Grows(put, i, m - 1);
      assert put(m - 1) <= put(m - 1 + 1);
    }
  }

  lemma PutGrows(c: Config, s0: State, sched: nat -> Choice, i: nat, m: nat)
    requires Init(c, s0) && i <= m
    ensures StateAt(c, s0, sched, i).put <= StateAt(c, s0, sched, m).put
  {
    var put := (k: nat) requires Init(c, s0) => StateAt(c, s0, sched, k).put;
    forall k: nat
      ensures put(k) <= put(k + 1)
    {
      PutNext(c, s0, sched, k);
    }
    Grows(put, i, m);
  }

  /** In every fair schedule a request that the next segment serves gets it. */
  lemma FittingRequestReturns(c: Config, s0: State, sched: nat -> Choice, i: nat)
    requires Init(c, s0) && Fair(sched) && Asking(StateAt(c, s0, sched, i).consumer)
    requires var s := StateAt(c, s0, sched, i);
             |s.got| < |s.put| && Serves(s.put[|s.got|], s.consumer.fd, s.consumer.size)
    ensures exists m: nat :: m >= i && |StateAt(c, s0, sched, m).got| > |StateAt(c, s0, sched, i).got|
  {
    var s := StateAt(c, s0, sched, i);
    RequestEnds(c, s0, sched, i);
    var m: nat :| m >= i && Ended(StateAt(c, s0, sched, m), |s.got|, s.consumer.fd, s.consumer.size);
    PutGrows(c, s0, sched, i, m);
    assert |StateAt(c, s0, sched, m).got| > |s.got|;
  }
}
