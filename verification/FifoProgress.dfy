/** No stuck state in the FIFO, time-outs ignored; and when a single request is stuck. */
module FifoProgress {
  import opened Cyclic
  import opened Fifo
  import opened FifoSafety
  import opened FifoLate
  import opened FifoTheorems

  // ------------------------------------------------------------------ blocking

  predicate FillerBlocked(c: Config, s: State)
    requires WellFormed(c, s)
  {
    s.filler.At? && s.filler.stage == Poll && s.slots[s.w].owner != Writer
  }

  predicate ConsumerBlocked(c: Config, s: State)
    requires WellFormed(c, s)
  {
    || (s.consumer.PollReader? && s.slots[s.r].owner != Reader)
    || (s.consumer.Await? && s.slots[c.slots - 1].owner != Reader)
  }

  predicate FillerGone(s: State) { s.filler.Exited? || s.filler.Dead? }

  /** The exiting filler leaves a consumer in await_faio a slot N-1 owned by the reader. */
  ghost predicate ExitOk(c: Config, s: State)
    requires WellFormed(c, s)
  {
    && (s.consumer.Await? ==> s.gets == 0)
    && (s.filler.Exited? && s.consumer.Await? ==> s.slots[c.slots - 1].owner == Reader)
  }

  lemma FillerKeepsExitOk(c: Config, s: State, ch: Choice)
    requires WellFormed(c, s) && ExitOk(c, s) && ch.MoveFiller?
    ensures WellFormed(c, Step(c, s, ch)) && ExitOk(c, Step(c, s, ch))
  {
    StepWellFormed(c, s, ch);
  }

  lemma StepKeepsExitOk(c: Config, s: State, ch: Choice)
    requires WellFormed(c, s) && ExitOk(c, s)
    ensures WellFormed(c, Step(c, s, ch)) && ExitOk(c, Step(c, s, ch))
  {
    if ch.MoveFiller? {
      FillerKeepsExitOk(c, s, ch);
    } else {
      StepWellFormed(c, s, ch);
    }
  }

  lemma {:induction false} RunKeepsExitOk(c: Config, s0: State, run: seq<Choice>)
    requires Init(c, s0)
    ensures ExitOk(c, After(c, s0, run))
  {
    if run != [] {
      RunKeepsExitOk(c, s0, run[..|run| - 1]);
      StepKeepsExitOk(c, After(c, s0, run[..|run| - 1]), run[|run| - 1]);
    }
  }

  /** A filler blocked before the first get has filled all N slots. */
  lemma LastSlotFull(c: Config, s: State)
    requires Core(c, s) && s.got == [] && FillerBlocked(c, s)
    ensures s.slots[c.slots - 1].owner == Reader
  {
    assert s.freed == 0 && s.r == 0;
    assert s.w == Idx(0, |s.put|, c.slots);
    assert Idx(0, c.slots - 1, c.slots) == c.slots - 1;
  }

  /** A consumer blocked in a request has taken everything stored. */
  lemma BlockedHasAll(c: Config, s: State)
    requires Inv(c, s) && s.consumer.PollReader? && s.slots[s.r].owner != Reader
    ensures |s.put| <= |s.got| && s.got[..|s.put|] == s.put
  {
    if Core(c, s) {
      HeadSlot(c, s);
      assert s.got == s.put;
    }
  }

  /** And then there is room for the filler. */
  lemma BlockedLeavesRoom(c: Config, s: State)
    requires Inv(c, s) && ExitOk(c, s) && ConsumerBlocked(c, s)
    ensures !FillerBlocked(c, s)
  {
    if Core(c, s) && FillerBlocked(c, s) {
      HeadSlot(c, s);
      if s.consumer.Await? {
        LastSlotFull(c, s);
      }
    }
  }

  /**
   The two processes are never both blocked. A blocked consumer whose filler is gone has
   been handed every segment, or waits in await_faio for a filler that died.
   */
  lemma NeverBothBlocked(c: Config, s0: State, run: seq<Choice>)
    requires Init(c, s0)
    ensures var s := After(c, s0, run);
            ConsumerBlocked(c, s) ==> !FillerBlocked(c, s)
    ensures var s := After(c, s0, run);
            ConsumerBlocked(c, s) && s.consumer.PollReader? && FillerGone(s) ==>
              |s.put| <= |s.got| && s.got[..|s.put|] == s.put
    ensures var s := After(c, s0, run);
            ConsumerBlocked(c, s) && s.consumer.Await? && FillerGone(s) ==> s.filler.Dead?
  {
    var s := After(c, s0, run);
    RunKeepsInv(c, s0, run);
    RunKeepsExitOk(c, s0, run);
    if ConsumerBlocked(c, s) {
      BlockedLeavesRoom(c, s);
      if s.consumer.PollReader? {
        BlockedHasAll(c, s);
      }
    }
  }

  // ------------------------------------------------------------------ one request

  /** What faio_get_buf does with the oldest segment, by descriptor, length and size. */
  lemma RequestOutcome(c: Config, s: State, ch: Choice)
    requires Core(c, s) && s.consumer.CheckFd? && ch.MoveConsumer?
    ensures s.freed == |s.got| < |s.put|
    ensures var seg := s.put[|s.got|];
            var p, p' := s.consumer, Step(c, s, ch).consumer;
            && (p'.Gets? <==> Serves(seg, p.fd, p.size))
            && (p'.Enter? <==> seg.fd != p.fd && seg.len == 0)
            && (p'.Fatal? <==> if seg.fd == p.fd then seg.len > p.size else seg.len != 0)
  {
    HeadSlot(c, s);
  }

  /** A request for another file than that of an empty oldest segment. */
  ghost predicate Mismatched(c: Config, s: State, fd: int) {
    && Core(c, s)
    && |s.got| == s.freed < |s.put|
    && s.put[s.freed].len == 0 && s.put[s.freed].fd != fd
    && (s.consumer.Enter? || s.consumer.PollReader? || s.consumer.ReadLen? || s.consumer.CheckFd?)
    && s.consumer.fd == fd
  }

  /**
   Such a request never returns. The code goes back to `again`, where the oldest slot is
   still the reader's and not faio's, so it looks at the same slot for ever.
   */
  lemma {:induction false} MismatchedRequestLoops(c: Config, s: State, fd: int, run: seq<Choice>)
    requires Mismatched(c, s, fd)
    ensures Mismatched(c, After(c, s, run), fd) && After(c, s, run).got == s.got
  {
    if run != [] {
      var prefix, ch := run[..|run| - 1], run[|run| - 1];
      var p := After(c, s, prefix);
      MismatchedRequestLoops(c, s, fd, prefix);
      MismatchedStep(c, p, fd, ch);
    }
  }

  lemma MismatchedMove(c: Config, s: State, fd: int, ch: Choice)
    requires Mismatched(c, s, fd) && ch.MoveConsumer?
    ensures var s' := Step(c, s, ch); Mismatched(c, s', fd) && s'.got == s.got
  {
    HeadSlot(c, s);
    RequestPc(c, s, ch, s.freed, |s.put|, |s.got|);
    ConsumerMoveKeepsCore(c, s, Step(c, s, ch));
  }

  lemma MismatchedStep(c: Config, s: State, fd: int, ch: Choice)
    requires Mismatched(c, s, fd)
    ensures var s' := Step(c, s, ch); Mismatched(c, s', fd) && s'.got == s.got
  {
    if ch.MoveFiller? {
      FillerStepFromCore(c, s, ch);
      FillerHistory(c, s, ch);
    } else {
      MismatchedMove(c, s, fd, ch);
    }
  }

  /** A filler step only appends to the segments stored. */
  lemma FillerHistory(c: Config, s: State, ch: Choice)
    requires WellFormed(c, s) && ch.MoveFiller?
    ensures var s' := Step(c, s, ch);
            s.put <= s'.put && s'.got == s.got && s'.freed == s.freed && s'.consumer == s.consumer
  {
  }
}
