/**
 The FIFO after its exiting filler has marked slot N-1: at most one request more than there are
 segments is served. With the invariant of every run, which covers that case too.
 */
module FifoLate {
  import opened Cyclic
  import opened Fifo
  import opened FifoSafety

  /** One segment more than stored was handed out: the last one again, or a slot that was never filled. */
  ghost predicate OneMore(n: nat, put: seq<Segment>, got: seq<Segment>) {
    && |got| == |put| + 1 && got[..|put|] == put
    && if |put| == n && n > 0 then got[|put|] == put[n - 1] else |put| == n - 1 && got[|put|].fd == -1
  }

  /** All slots are given back, and the consumer waits for ever. */
  ghost predicate Spent(c: Config, s: State) {
    && WellFormed(c, s)
    && s.filler.Exited? && s.handed && s.freed == c.slots && s.r == 0
    && (forall i :: 0 <= i < c.slots ==> s.slots[i].owner == Writer) && UsersOk(s.slots)
    && OneMore(c.slots, s.put, s.got)
    && s.consumer.PollReader?
  }

  ghost predicate Inv(c: Config, s: State) {
    Fresh(c, s) && (Core(c, s) || Again(c, s) || Spent(c, s))
  }

  // ------------------------------------------------------------------ slots not yet reached

  lemma StoreKeepsFresh(c: Config, s: State, s': State, f: Slot)
    requires Fresh(c, s) && WellFormed(c, s') && StoresSlot(s, s', f)
    requires Filling(s'.filler) || f.fd == s.slots[s.w].fd
    requires Filling(s.filler) ==> Filling(s'.filler)
    ensures Fresh(c, s')
  {
  }

  lemma HandOverKeepsFresh(c: Config, s: State, s': State)
    requires Fresh(c, s) && WellFormed(c, s') && HandsOver(s, s')
    ensures Fresh(c, s')
  {
  }

  lemma MoveKeepsFresh(c: Config, s: State, s': State)
    requires Fresh(c, s) && WellFormed(c, s') && MovesOn(c, s, s') && Filling(s.filler) == Filling(s'.filler)
    ensures Fresh(c, s')
  {
  }

  lemma SegmentKeepsFresh(c: Config, s: State, ch: Choice)
    requires Fresh(c, s) && ch.MoveFiller? && s.filler.At? && s.slots[s.w].users <= 1
    ensures Fresh(c, Step(c, s, ch))
  {
    StepWellFormed(c, s, ch);
    var s' := Step(c, s, ch);
    StageMovesOn(c, s, ch);
    if s.filler.stage == SetOwner {
      HandOverKeepsFresh(c, s, s');
    } else if s.filler.stage == Puts || s.filler.stage == Next {
      MoveKeepsFresh(c, s, s');
    } else {
      StageStoresSlot(c, s, ch);
      if s' != s {
        StoreKeepsFresh(c, s, s', s'.slots[s.w]);
      }
    }
  }

  lemma FillerKeepsFresh(c: Config, s: State, ch: Choice)
    requires Fresh(c, s) && ch.MoveFiller? && UsersOk(s.slots)
    ensures Fresh(c, Step(c, s, ch))
  {
    if s.filler.At? {
      SegmentKeepsFresh(c, s, ch);
    } else {
      StepWellFormed(c, s, ch);
    }
  }

  lemma ConsumerFrame(c: Config, s: State, ch: Choice)
    requires WellFormed(c, s) && ch.MoveConsumer?
    ensures var s' := Step(c, s, ch);
            && s'.put == s.put && s'.w == s.w && s'.filler == s.filler && |s'.slots| == |s.slots|
            && forall i :: 0 <= i < c.slots ==> s'.slots[i].fd == s.slots[i].fd
  {
  }

  lemma ConsumerKeepsFresh(c: Config, s: State, ch: Choice)
    requires Fresh(c, s) && ch.MoveConsumer?
    ensures Fresh(c, Step(c, s, ch))
  {
    StepWellFormed(c, s, ch);
    ConsumerFrame(c, s, ch);
  }

  // ------------------------------------------------------------------ after the mark

  /** The filler is gone and does not move. */
  lemma GoneStays(c: Config, s: State, ch: Choice)
    requires WellFormed(c, s) && s.filler.Exited? && ch.MoveFiller?
    ensures Step(c, s, ch) == s
  {
  }

  /** The marked slot is given back: nothing is left, and if it was not taken again all is as it should be. */
  lemma ReleaseOfMarked(c: Config, s: State, s': State)
    requires Again(c, s) && s.consumer.Release? && WellFormed(c, s')
    requires s' == s.(slots := s.slots[s.r := s.slots[s.r].(owner := Writer)], r := Inc(s.r, c.slots),
                      freed := s.freed + 1, consumer := s'.consumer)
    requires s'.consumer.PollReader?
    ensures if s.got == s.put then Core(c, s') else Spent(c, s')
  {
    assert forall i :: 0 <= i < c.slots ==> s'.slots[i].owner == Writer;
    if s.got == s.put {
      assert Queue(s') == [];
      assert s'.got == s'.put[..|s'.got|];
      assert Ring(c, s');
    }
  }

  lemma AgainStep(c: Config, s: State, ch: Choice)
    requires Again(c, s) && ch.MoveConsumer? && !s.consumer.Release?
    ensures Again(c, Step(c, s, ch))
  {
    StepWellFormed(c, s, ch);
  }

  lemma LateStepKeepsInv(c: Config, s: State, ch: Choice)
    requires Again(c, s) || Spent(c, s)
    ensures var s' := Step(c, s, ch); Core(c, s') || Again(c, s') || Spent(c, s')
  {
    StepWellFormed(c, s, ch);
    if ch.MoveFiller? {
      GoneStays(c, s, ch);
    } else if Spent(c, s) {
      assert Step(c, s, ch) == s;
    } else if s.consumer.Release? {
      ReleaseOfMarked(c, s, Step(c, s, ch));
    } else {
      AgainStep(c, s, ch);
    }
  }

  // ------------------------------------------------------------------ every step

  /** Every store of either process keeps the invariant. */
  lemma StepKeepsInv(c: Config, s: State, ch: Choice)
    requires Inv(c, s)
    ensures Inv(c, Step(c, s, ch))
  {
    if ch.MoveFiller? {
      FillerKeepsFresh(c, s, ch);
    } else {
      ConsumerKeepsFresh(c, s, ch);
    }
    if !Core(c, s) {
      LateStepKeepsInv(c, s, ch);
    } else if ch.MoveFiller? {
      FillerStepFromCore(c, s, ch);
    } else {
      ConsumerStepFromCore(c, s, ch);
    }
  }
}
