/** Exactly when a request beyond the last segment is served: it depends on where the exiting filler's mark falls. */
module FifoRepeat {
  import opened Fifo
  import opened FifoSafety
  import opened FifoLate
  import opened FifoTheorems

  /** The slot serves this request. */
  predicate Fits(p: ConsumerPc, f: Slot)
    requires Asking(p)
  {
    Serves(Content(f), p.fd, p.size)
  }

  /**
   The consumer still holds slot N-1 and will not give it back without looking at it: it is
   between two calls, or in a call that the slot serves and not past the test for faio.
   */
  predicate StillHeld(c: Config, s: State)
    requires WellFormed(c, s)
  {
    var last := s.slots[c.slots - 1];
    last.owner == Faio && (s.consumer.Idle? || (s.consumer.Enter? && Fits(s.consumer, last)))
  }

  // ------------------------------------------------------------------ nothing more is served

  /** Slot N-1 is the reader's once more, and the request under way goes past it or cannot be served by it. */
  ghost predicate Refused(c: Config, s: State) {
    && Again(c, s) && s.got == s.put
    && (s.consumer.Release? || s.consumer.Fatal? ||
        (Asking(s.consumer) && !s.consumer.Gets? && !Fits(s.consumer, s.slots[c.slots - 1])))
  }

  /** After the mark, and no request beyond the last segment will be served. */
  ghost predicate Quiet(c: Config, s: State) {
    Fresh(c, s) && s.handed && Asked(s) && (Core(c, s) || Refused(c, s))
  }

  lemma RefusedStep(c: Config, s: State, ch: Choice)
    requires Refused(c, s) && ch.MoveConsumer?
    ensures var s' := Step(c, s, ch); Core(c, s') || Refused(c, s')
  {
    StepWellFormed(c, s, ch);
    if s.consumer.Release? {
      ReleaseOfMarked(c, s, Step(c, s, ch));
    } else {
      AgainStep(c, s, ch);
    }
  }

  lemma QuietStep(c: Config, s: State, ch: Choice)
    requires Quiet(c, s) && (ch.MoveConsumer? ==> ch.fd != -1)
    ensures Quiet(c, Step(c, s, ch))
  {
    if ch.MoveFiller? {
      GoneStays(c, s, ch);
    } else {
      ConsumerKeepsFresh(c, s, ch);
      StepKeepsAsked(c, s, ch);
      HandedStays(c, s, ch);
      if Core(c, s) {
        ConsumerStepFromCore(c, s, ch);
      } else {
        RefusedStep(c, s, ch);
      }
    }
  }

  lemma HandedStays(c: Config, s: State, ch: Choice)
    requires WellFormed(c, s) && s.handed
    ensures Step(c, s, ch).handed
  {
  }

  lemma {:induction false} QuietRun(c: Config, s: State, run: seq<Choice>)
    requires Quiet(c, s) && RealFiles(run)
    ensures Quiet(c, After(c, s, run))
  {
    if run != [] {
      QuietRun(c, s, run[..|run| - 1]);
      QuietStep(c, After(c, s, run[..|run| - 1]), run[|run| - 1]);
    }
  }

  /** If the mark does not meet a slot still held, nothing more is served. */
  lemma MarkIsQuiet(c: Config, s: State, mark: Choice)
    requires Inv(c, s) && Asked(s) && s.filler.HandOver? && mark.MoveFiller? && !StillHeld(c, s)
    ensures Quiet(c, Step(c, s, mark))
  {
    var s' := Step(c, s, mark);
    StepWellFormed(c, s, mark);
    StepKeepsInv(c, s, mark);
    StepKeepsAsked(c, s, mark);
    if s.slots[c.slots - 1].owner == Faio {
      HeldAtMark(c, s);
      MarkOfHeld(c, s, s');
    } else {
      MarkOfOther(c, s, s');
    }
  }

  // ------------------------------------------------------------------ the last segment is served again

  /** From the test for faio, where the oldest slot is the reader's, to the test of the descriptor. */
  lemma RequestComesTo(c: Config, s: State, req: Choice, s3: State)
    requires WellFormed(c, s) && req.MoveConsumer? && s.consumer.Enter? && s.slots[s.r].owner == Reader
    requires s3 == s.(consumer := CheckFd(s.consumer.fd, s.consumer.size, s.slots[s.r].len))
    ensures After(c, s, [req] + [req] + [req]) == s3
  {
    var p := s.consumer;
    var s1, s2 := s.(consumer := PollReader(p.fd, p.size)), s.(consumer := ReadLen(p.fd, p.size));
    assert After(c, s, []) == s && [] + [req] == [req];
    Then(c, s, [], s, req, s1);
    Then(c, s, [req], s1, req, s2);
    Then(c, s, [req] + [req], s2, req, s3);
  }

  /** And on to the segment, if the oldest slot serves the request. */
  lemma RequestIsServed(c: Config, s: State, req: Choice)
    requires WellFormed(c, s) && req.MoveConsumer? && s.consumer.Enter? && s.slots[s.r].owner == Reader
    requires Fits(s.consumer, s.slots[s.r])
    ensures After(c, s, [req] + [req] + [req] + [req] + [req]).got == s.got + [Content(s.slots[s.r])]
  {
    var p, f := s.consumer, s.slots[s.r];
    var s3, s4 := s.(consumer := CheckFd(p.fd, p.size, f.len)), s.(consumer := Gets(p.fd, p.size, f.len));
    RequestComesTo(c, s, req, s3);
    Then(c, s, [req] + [req] + [req], s3, req, s4);
    AfterMore(c, s, [req] + [req] + [req] + [req], req);
  }

  /** From between two calls the consumer only has to ask for what it already got. */
  lemma HeldIsServed(c: Config, s: State) returns (more: seq<Choice>)
    requires Again(c, s) && s.got == s.put && Asked(s) && |s.put| == c.slots
    requires s.consumer.Idle? || (s.consumer.Enter? && Fits(s.consumer, s.slots[c.slots - 1]))
    ensures RealFiles(more) && |After(c, s, more).got| > |s.put|
  {
    var last := s.slots[c.slots - 1];
    assert last.fd == s.got[c.slots - 1].fd;
    var req := MoveConsumer(last.fd, last.len);
    var served := [req] + [req] + [req] + [req] + [req];
    if s.consumer.Enter? {
      RequestIsServed(c, s, req);
      more := served;
    } else {
      var s1 := Step(c, s, req);
      StepWellFormed(c, s, req);
      RequestIsServed(c, s1, req);
      AfterMore(c, s, [], req);
      assert After(c, s, []) == s && [] + [req] == [req];
      AfterConcat(c, s, [req], served);
      more := [req] + served;
    }
  }

  // ------------------------------------------------------------------ the exact condition

  /** Some continuation with requests for real files gets more segments than were stored. */
  ghost predicate CanRepeat(c: Config, s: State)
    requires WellFormed(c, s)
  {
    exists more :: RealFiles(more) && |After(c, s, more).got| > |After(c, s, more).put|
  }

  /** A filler that is gone stores nothing any more. */
  lemma {:induction false} NothingPut(c: Config, s: State, run: seq<Choice>)
    requires WellFormed(c, s) && s.filler.Exited?
    ensures After(c, s, run).put == s.put && After(c, s, run).filler.Exited?
  {
    if run != [] {
      NothingPut(c, s, run[..|run| - 1]);
      PutStays(c, After(c, s, run[..|run| - 1]), run[|run| - 1]);
    }
  }

  lemma PutStays(c: Config, s: State, ch: Choice)
    requires WellFormed(c, s) && s.filler.Exited?
    ensures Step(c, s, ch).put == s.put && Step(c, s, ch).filler.Exited?
  {
  }

  lemma HeldRepeats(c: Config, s: State, mark: Choice)
    requires Inv(c, s) && Asked(s) && s.filler.HandOver? && mark.MoveFiller? && StillHeld(c, s)
    ensures WellFormed(c, Step(c, s, mark)) && CanRepeat(c, Step(c, s, mark))
  {
    var s' := Step(c, s, mark);
    StepWellFormed(c, s, mark);
    HeldAtMark(c, s);
    MarkOfHeld(c, s, s');
    StepKeepsAsked(c, s, mark);
    var more := HeldIsServed(c, s');
    NothingPut(c, s', more);
  }

  lemma QuietNeverRepeats(c: Config, s: State)
    requires Quiet(c, s)
    ensures !CanRepeat(c, s)
  {
    forall more | RealFiles(more)
      ensures |After(c, s, more).got| <= |After(c, s, more).put|
    {
      QuietRun(c, s, more);
    }
  }

  /**
   The mark of the exiting filler makes a request beyond the last segment possible if and only
   if it meets slot N-1 still held, in every run up to the mark.
   */
  lemma RepeatsIffStillHeld(c: Config, s0: State, run: seq<Choice>, mark: Choice)
    requires Init(c, s0) && RealFiles(run) && mark.MoveFiller? && After(c, s0, run).filler.HandOver?
    ensures WellFormed(c, Step(c, After(c, s0, run), mark))
    ensures CanRepeat(c, Step(c, After(c, s0, run), mark)) <==> StillHeld(c, After(c, s0, run))
  {
    var s := After(c, s0, run);
    RunKeepsInv(c, s0, run);
    RunKeepsAsked(c, s0, run);
    if StillHeld(c, s) {
      HeldRepeats(c, s, mark);
    } else {
      MarkIsQuiet(c, s, mark);
      QuietNeverRepeats(c, Step(c, s, mark));
    }
  }

  /** Slot N-1 is marked by one step of the filler, and not before. */
  lemma {:induction false} MarkIsAStep(c: Config, s0: State, run: seq<Choice>) returns (k: nat)
    requires Init(c, s0) && After(c, s0, run).handed
    ensures k < |run| && run[k].MoveFiller? && After(c, s0, run[..k]).filler.HandOver?
  {
    var n := |run| - 1;
    assert run != [];
    if After(c, s0, run[..n]).handed {
      k := MarkIsAStep(c, s0, run[..n]);
      assert run[..n][..k] == run[..k];
    } else {
      k := n;
      assert run == run[..n] + [run[n]];
      AfterMore(c, s0, run[..n], run[n]);
    }
  }

  /** More segments can have been handed out than stored only after the mark. */
  lemma RunKeepsHanded(c: Config, s0: State, run: seq<Choice>)
    requires Init(c, s0)
    ensures |After(c, s0, run).got| > |After(c, s0, run).put| ==> After(c, s0, run).handed
  {
    RunKeepsInv(c, s0, run);
  }

  /** What happens after a step, as a continuation of the state it leaves. */
  lemma FromStepOn(c: Config, s0: State, run: seq<Choice>, k: nat, s: State)
    requires WellFormed(c, s0) && k < |run| && s == After(c, s0, run[..k] + [run[k]])
    ensures After(c, s0, run) == After(c, s, run[k + 1..])
  {
    assert run == run[..k] + [run[k]] + run[k + 1..];
    AfterConcat(c, s0, run[..k] + [run[k]], run[k + 1..]);
  }

  lemma RealParts(run: seq<Choice>, k: nat)
    requires RealFiles(run) && k < |run|
    ensures RealFiles(run[..k]) && RealFiles(run[k + 1..])
  {
  }

  /** A run in which a request beyond the last segment was served marked a slot still held. */
  lemma RepeatedWasHeld(c: Config, s0: State, run: seq<Choice>)
    requires Init(c, s0) && RealFiles(run) && |After(c, s0, run).got| > |After(c, s0, run).put|
    ensures exists k: nat :: k < |run| && run[k].MoveFiller? && After(c, s0, run[..k]).filler.HandOver?
                          && StillHeld(c, After(c, s0, run[..k]))
  {
    Delivery(c, s0, run);
    RunKeepsHanded(c, s0, run);
    var k := MarkIsAStep(c, s0, run);
    RealParts(run, k);
    AfterMore(c, s0, run[..k], run[k]);
    FromStepOn(c, s0, run, k, After(c, s0, run[..k] + [run[k]]));
    RepeatsIffStillHeld(c, s0, run[..k], run[k]);
  }
}
