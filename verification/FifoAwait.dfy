/** await_faio returns: slot N-1 becomes the reader's in every fair schedule. */
module FifoAwait {
  import opened Fifo
  import opened FifoSafety
  import opened FifoLate
  import opened FifoTheorems
  import opened FifoProgress

  // ------------------------------------------------------------------ one step of the filler

  /** Steps of the filler up to its next hand-over, counted by stage. */
  function StageRank(p: FillerPc): nat {
    match p
    case At(SetUsers, _, _, _, _) => 15
    case At(Puts, _, _, _, _) => 14
    case At(Next, _, _, _, _) => 13
    case Start(_) => 12
    case At(Poll, _, _, _, _) => 11
    case At(SetFd, _, _, _, _) => 10
    case At(Fill, _, _, _, _) => 9
    case At(SetLen, _, _, _, _) => 8
    case At(SetErrno, _, _, _, _) => 7
    case At(SetOwner, _, _, _, _) => 6
    case Done => 5
    case CheckGets => 4
    case HandOver => 3
    case Exited => 1
    case Dead => 1
  }

  function FillLeft(p: FillerPc): nat { if p.At? && p.stage == Fill then p.left else 0 }

  /** The filler is closer to its next hand-over: by its stage, or by the stores left in fill_buf. */
  predicate CloserPc(p': FillerPc, p: FillerPc) {
    StageRank(p') < StageRank(p) || (StageRank(p') == StageRank(p) && FillLeft(p') < FillLeft(p))
  }

  /** A filler that is neither gone nor blocked stores a segment or comes closer to that. */
  lemma FillerCloser(c: Config, s: State, ch: Choice)
    requires WellFormed(c, s) && ch.MoveFiller? && !FillerGone(s) && !FillerBlocked(c, s)
    ensures var s' := Step(c, s, ch);
            |s'.put| == |s.put| + 1 || (s'.put == s.put && CloserPc(s'.filler, s.filler))
  {
  }

  /** Lexicographic order on: slots still to be stored, stage, stores left in fill_buf. */
  ghost predicate Closer(c: Config, s': State, s: State)
    requires |s.put| <= c.slots && |s'.put| <= c.slots
  {
    |s'.put| > |s.put| || (|s'.put| == |s.put| && CloserPc(s'.filler, s.filler))
  }

  /**
   While the consumer is in await_faio and slot N-1 is not the reader's, every step of a
   live filler comes closer to the store that ends the wait: the filler cannot block.
   */
  lemma AwaitStepCloser(c: Config, s: State, ch: Choice)
    requires WellFormed(c, s) && Inv(c, s) && ExitOk(c, s) && ch.MoveFiller? && s.got == []
    requires s.consumer.Await? && s.slots[c.slots - 1].owner != Reader && !s.filler.Dead?
    ensures var s' := Step(c, s, ch);
            |s.put| <= c.slots && |s'.put| <= c.slots && Closer(c, s', s)
  {
    assert Core(c, s) by {
      assert s.put <= s.got ==> |s.put| == 0;
    }
    if FillerBlocked(c, s) {
      LastSlotFull(c, s);
    }
    FillerCloser(c, s, ch);
    FillerRoom(c, s, ch);
  }

  /** A hand-over needs an open slot. */
  lemma FillerRoom(c: Config, s: State, ch: Choice)
    requires Core(c, s) && ch.MoveFiller?
    ensures |Step(c, s, ch).put| <= s.freed + c.slots
  {
    if s.filler.At? && s.filler.stage == SetOwner {
      OpenSlot(c, s);
    }
  }

  ghost predicate AllFit(c: Config) {
    forall t :: 0 <= t < |c.tracks| ==> BytesPerTransfer(c.tracks[t]) <= c.bufSize
  }

  lemma StepSurvives(c: Config, s: State, ch: Choice)
    requires WellFormed(c, s) && AllFit(c) && !s.filler.Dead?
    ensures !Step(c, s, ch).filler.Dead?
  {
  }

  /** The filler dies only on a track whose transfers do not fit into a slot. */
  lemma {:induction false} NeverDead(c: Config, s0: State, run: seq<Choice>)
    requires Init(c, s0) && AllFit(c)
    ensures !After(c, s0, run).filler.Dead?
  {
    if run != [] {
      NeverDead(c, s0, run[..|run| - 1]);
      StepSurvives(c, After(c, s0, run[..|run| - 1]), run[|run| - 1]);
    }
  }

  // ------------------------------------------------------------------ whole schedules

  /** The first `m` choices of an endless schedule. */
  function Prefix(sched: nat -> Choice, m: nat): seq<Choice> {
    if m == 0 then [] else Prefix(sched, m - 1) + [sched(m - 1)]
  }

  ghost function StateAt(c: Config, s0: State, sched: nat -> Choice, i: nat): (s: State)
    requires Init(c, s0)
    ensures WellFormed(c, s)
  {
    After(c, s0, Prefix(sched, i))
  }

  ghost predicate FillerMoves(sched: nat -> Choice, i: nat) { exists j: nat :: j >= i && sched(j).MoveFiller? }

  ghost predicate ConsumerMoves(sched: nat -> Choice, i: nat) { exists j: nat :: j >= i && sched(j).MoveConsumer? }

  /** Neither process is ever left out for good. */
  ghost predicate Fair(sched: nat -> Choice) {
    forall i: nat :: FillerMoves(sched, i) && ConsumerMoves(sched, i)
  }

  lemma NextState(c: Config, s0: State, sched: nat -> Choice, i: nat)
    requires Init(c, s0)
    ensures StateAt(c, s0, sched, i + 1) == Step(c, StateAt(c, s0, sched, i), sched(i))
  {
    AfterMore(c, s0, Prefix(sched, i), sched(i));
  }

  lemma StateOk(c: Config, s0: State, sched: nat -> Choice, i: nat)
    requires Init(c, s0)
    ensures var s := StateAt(c, s0, sched, i); Inv(c, s) && ExitOk(c, s) && (s.consumer.Await? ==> s.got == [])
  {
    RunKeepsInv(c, s0, Prefix(sched, i));
    RunKeepsExitOk(c, s0, Prefix(sched, i));
    RunKeepsHeld(c, s0, Prefix(sched, i));
  }

  /** While await_faio waits, a move of its own changes nothing, and no move of the filler ends it. */
  lemma WaitingStep(c: Config, s: State, ch: Choice)
    requires WellFormed(c, s) && s.consumer.Await?
    ensures ch.MoveFiller? ==> Step(c, s, ch).consumer.Await?
    ensures ch.MoveConsumer? && s.slots[c.slots - 1].owner != Reader ==> Step(c, s, ch) == s
    ensures ch.MoveConsumer? && s.slots[c.slots - 1].owner == Reader ==> Step(c, s, ch).consumer.Scan?
    ensures ch.MoveFiller? && s.slots[c.slots - 1].owner == Reader ==> Step(c, s, ch).slots[c.slots - 1].owner == Reader
  {
  }

  /** The consumer is in await_faio, and slot N-1 is the reader's or not. */
  predicate Waiting(c: Config, s: State, ready: bool) {
    && s.consumer.Await? && c.slots > 0 && |s.slots| == c.slots
    && (s.slots[c.slots - 1].owner == Reader) == ready
  }

  predicate Ready(c: Config, s: State) { s.filler.Dead? || Waiting(c, s, true) }

  /** What a step does to a consumer that waits in vain. */
  ghost predicate Approaches(c: Config, s: State, ch: Choice, s': State) {
    && (ch.MoveFiller? ==>
          && |s.put| <= c.slots && |s'.put| <= c.slots && Closer(c, s', s)
          && (Waiting(c, s', true) || Waiting(c, s', false)))
    && (ch.MoveConsumer? ==> s' == s)
  }

  lemma StepApproaches(c: Config, s: State, ch: Choice)
    requires Inv(c, s) && ExitOk(c, s) && s.got == [] && Waiting(c, s, false) && !s.filler.Dead?
    ensures Approaches(c, s, ch, Step(c, s, ch))
  {
    StepWellFormed(c, s, ch);
    WaitingStep(c, s, ch);
    if ch.MoveFiller? {
      AwaitStepCloser(c, s, ch);
    }
  }

  lemma ApproachingStep(c: Config, s0: State, sched: nat -> Choice, i: nat)
    requires Init(c, s0)
    ensures var s := StateAt(c, s0, sched, i);
            Waiting(c, s, false) && !s.filler.Dead? ==> Approaches(c, s, sched(i), StateAt(c, s0, sched, i + 1))
  {
    var s := StateAt(c, s0, sched, i);
    StateOk(c, s0, sched, i);
    NextState(c, s0, sched, i);
    if Waiting(c, s, false) && !s.filler.Dead? {
      StepApproaches(c, s, sched(i));
    }
  }

  /** The filler gets there: `at` are the states of a schedule, and `j` is its next move. */
  lemma {:induction false} LastSlotArrives(c: Config, at: nat -> State, sched: nat -> Choice, i: nat, j: nat)
    returns (m: nat)
    requires forall k: nat :: Waiting(c, at(k), false) && !at(k).filler.Dead? ==>
               Approaches(c, at(k), sched(k), at(k + 1))
    requires Fair(sched) && i <= j && sched(j).MoveFiller?
    requires Waiting(c, at(i), true) || Waiting(c, at(i), false)
    ensures Ready(c, at(m))
    decreases c.slots - |at(i).put|, StageRank(at(i).filler), FillLeft(at(i).filler), j - i
  {
    if Ready(c, at(i)) {
      return i;
    }
    assert Approaches(c, at(i), sched(i), at(i + 1));
    if sched(i).MoveFiller? {
      assert FillerMoves(sched, i + 1);
      var j': nat :| j' >= i + 1 && sched(j').MoveFiller?;
      m := LastSlotArrives(c, at, sched, i + 1, j');
    } else {
      m := LastSlotArrives(c, at, sched, i + 1, j);
    }
  }

  /** A consumer that may go on does so with its next move, number `j`. */
  lemma {:induction false} WaitEnds(c: Config, at: nat -> State, sched: nat -> Choice, i: nat, j: nat) returns (m: nat)
    requires forall k: nat :: Waiting(c, at(k), true) ==>
               if sched(k).MoveFiller? then Waiting(c, at(k + 1), true) else at(k + 1).consumer.Scan?
    requires i <= j && sched(j).MoveConsumer? && Waiting(c, at(i), true)
    ensures at(m).consumer.Scan?
    decreases j - i
  {
    if sched(i).MoveConsumer? {
      m := i + 1;
    } else {
      m := WaitEnds(c, at, sched, i + 1, j);
    }
  }

  lemma ReadyStep(c: Config, s0: State, sched: nat -> Choice, i: nat)
    requires Init(c, s0) && Waiting(c, StateAt(c, s0, sched, i), true)
    ensures var s' := StateAt(c, s0, sched, i + 1);
            if sched(i).MoveFiller? then Waiting(c, s', true) else s'.consumer.Scan?
  {
    NextState(c, s0, sched, i);
    WaitingStep(c, StateAt(c, s0, sched, i), sched(i));
  }

  lemma SlotArrives(c: Config, s0: State, sched: nat -> Choice) returns (m: nat)
    requires Init(c, s0) && Fair(sched)
    ensures Ready(c, StateAt(c, s0, sched, m))
  {
    var at := (k: nat) requires Init(c, s0) => StateAt(c, s0, sched, k);
    forall k: nat
      ensures Waiting(c, at(k), false) && !at(k).filler.Dead? ==> Approaches(c, at(k), sched(k), at(k + 1))
    {
      ApproachingStep(c, s0, sched, k);
    }
    assert FillerMoves(sched, 0);
    var j: nat :| j >= 0 && sched(j).MoveFiller?;
    assert at(0) == s0;
    m := LastSlotArrives(c, at, sched, 0, j);
  }

  lemma ConsumerGoesOn(c: Config, s0: State, sched: nat -> Choice, i: nat) returns (m: nat)
    requires Init(c, s0) && Fair(sched) && Waiting(c, StateAt(c, s0, sched, i), true)
    ensures StateAt(c, s0, sched, m).consumer.Scan?
  {
    var at := (k: nat) requires Init(c, s0) => StateAt(c, s0, sched, k);
    forall k: nat | Waiting(c, at(k), true)
      ensures if sched(k).MoveFiller? then Waiting(c, at(k + 1), true) else at(k + 1).consumer.Scan?
    {
      ReadyStep(c, s0, sched, k);
    }
    assert ConsumerMoves(sched, i);
    var j: nat :| j >= i && sched(j).MoveConsumer?;
    m := WaitEnds(c, at, sched, i, j);
  }

  /**
   In every fair schedule await_faio finds slot N-1 owned by the reader and goes on, unless the
   filler dies of a transfer that does not fit.
   */
  lemma AwaitEnds(c: Config, s0: State, sched: nat -> Choice)
    requires Init(c, s0) && Fair(sched)
    ensures exists m: nat :: StateAt(c, s0, sched, m).consumer.Scan?
                          || (StateAt(c, s0, sched, m).filler.Dead? && !AllFit(c))
  {
    var i := SlotArrives(c, s0, sched);
    if StateAt(c, s0, sched, i).filler.Dead? {
      if AllFit(c) {
        NeverDead(c, s0, Prefix(sched, i));
      }
    } else {
      var m := ConsumerGoesOn(c, s0, sched, i);
    }
  }
}
