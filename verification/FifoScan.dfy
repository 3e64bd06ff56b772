/** The scan at the end of await_faio, and the counters in shared memory. */
module FifoScan {
  import opened Cyclic
  import opened Fifo
  import opened FifoSafety
  import opened FifoLate
  import opened FifoTheorems

  /** Segment `n` is the first of its file, that is standard input, and empty. */
  ghost predicate EofAt(put: seq<Segment>, n: nat) {
    n < |put| && put[n].fd == 0 && put[n].len == 0 && (n > 0 ==> put[n - 1].fd != 0)
  }

  ghost predicate NoEof(put: seq<Segment>, n: nat) { forall k: nat | k < n :: !EofAt(put, k) }

  /** Nothing will be added to the first N segments. */
  ghost predicate FirstAreStored(c: Config, s: State) { |s.put| >= c.slots || s.filler.Exited? }

  function FdBefore(put: seq<Segment>, n: nat): int { if 0 < n <= |put| then put[n - 1].fd else -1 }

  ghost predicate ScanOk(c: Config, s: State) {
    match s.consumer
    case Await => true
    case Scan(n, lastFd) =>
      FirstAreStored(c, s) && n <= c.slots && NoEof(s.put, n) && lastFd == FdBefore(s.put, n)
    case PrematureEof => exists n: nat | n < c.slots :: EofAt(s.put, n)
    case _ => FirstAreStored(c, s) && NoEof(s.put, c.slots)
  }

  /** While nothing has been taken, slot `n` holds segment `n`, or has not been reached. */
  lemma SlotIsSegment(c: Config, s: State, n: nat)
    requires Inv(c, s) && s.got == [] && n < c.slots && FirstAreStored(c, s)
    ensures |s.put| <= c.slots
    ensures if n < |s.put| then Content(s.slots[n]) == s.put[n] else s.slots[n].fd == -1
  {
    assert Core(c, s) && s.freed == 0 && s.r == 0;
    assert Idx(0, n, c.slots) == n;
    if n < |s.put| {
      assert Queue(s)[n] == s.put[n];
    }
  }

  /** A slot N-1 owned by the reader means that N segments are stored, or all there are. */
  lemma LastIsReader(c: Config, s: State)
    requires Inv(c, s) && s.got == [] && s.slots[c.slots - 1].owner == Reader
    ensures FirstAreStored(c, s)
  {
    assert Core(c, s) && s.freed == 0 && s.r == 0;
    assert Idx(0, c.slots - 1, c.slots) == c.slots - 1;
  }

  lemma AwaitStep(c: Config, s: State, ch: Choice)
    requires WellFormed(c, s) && Inv(c, s) && ch.MoveConsumer? && s.got == [] && s.consumer.Await?
    ensures ScanOk(c, Step(c, s, ch))
  {
    if s.slots[c.slots - 1].owner == Reader {
      LastIsReader(c, s);
    }
  }

  /** The test of the scan finds the premature end where it is. */
  lemma ScanTest(c: Config, s: State)
    requires WellFormed(c, s) && Inv(c, s) && ScanOk(c, s) && s.got == []
    requires s.consumer.Scan? && s.consumer.n < c.slots
    ensures var n, g := s.consumer.n, s.slots[s.consumer.n];
            && (g.fd != s.consumer.lastFd && g.fd == STDIN && g.len == 0 <==> EofAt(s.put, n))
            && g.fd == FdBefore(s.put, n + 1)
  {
    SlotIsSegment(c, s, s.consumer.n);
  }

  lemma NoEofMore(put: seq<Segment>, n: nat)
    requires NoEof(put, n) && !EofAt(put, n)
    ensures NoEof(put, n + 1)
  {
  }

  lemma ScanStep(c: Config, s: State, ch: Choice)
    requires WellFormed(c, s) && Inv(c, s) && ScanOk(c, s) && ch.MoveConsumer? && s.got == [] && s.consumer.Scan?
    ensures ScanOk(c, Step(c, s, ch))
  {
    var n := s.consumer.n;
    var s' := Step(c, s, ch);
    assert s'.put == s.put && s'.filler == s.filler;
    if n < c.slots {
      ScanTest(c, s);
      if EofAt(s.put, n) {
        assert s'.consumer.PrematureEof?;
      } else {
        NoEofMore(s.put, n);
        assert s'.consumer == Scan(n + 1, s.slots[n].fd);
      }
    } else {
      assert s'.consumer == Idle && n == c.slots;
    }
  }

  /** The consumer behind the scan. */
  lemma LaterConsumerStep(c: Config, s: State, ch: Choice)
    requires WellFormed(c, s) && ch.MoveConsumer? && !s.consumer.Await? && !s.consumer.Scan?
    ensures var s' := Step(c, s, ch);
            && s'.put == s.put && s'.filler == s.filler && !s'.consumer.Await? && !s'.consumer.Scan?
            && s'.consumer.PrematureEof? == s.consumer.PrematureEof?
  {
  }

  lemma FillerScanFrame(c: Config, s: State, ch: Choice)
    requires WellFormed(c, s) && ch.MoveFiller?
    ensures var s' := Step(c, s, ch);
            && s'.consumer == s.consumer && |s'.put| >= |s.put| && s'.put[..|s.put|] == s.put
            && (s.filler.Exited? ==> s' == s)
  {
  }

  lemma FillerKeepsScan(c: Config, s: State, s': State)
    requires ScanOk(c, s) && (s.filler.Exited? ==> s' == s)
    requires s'.consumer == s.consumer && |s'.put| >= |s.put| && s'.put[..|s.put|] == s.put
    ensures ScanOk(c, s')
  {
    assert forall k | 0 <= k < |s.put| :: s'.put[k] == s'.put[..|s.put|][k] == s.put[k];
    assert forall k: nat | k < |s.put| :: EofAt(s'.put, k) == EofAt(s.put, k);
  }

  lemma {:induction false} RunKeepsScan(c: Config, s0: State, run: seq<Choice>)
    requires Init(c, s0)
    ensures ScanOk(c, After(c, s0, run))
  {
    if run != [] {
      var prefix, ch := run[..|run| - 1], run[|run| - 1];
      var s := After(c, s0, prefix);
      RunKeepsScan(c, s0, prefix);
      RunKeepsInv(c, s0, prefix);
      RunKeepsHeld(c, s0, prefix);
      StepKeepsScan(c, s, ch);
    }
  }

  lemma StepKeepsScan(c: Config, s: State, ch: Choice)
    requires WellFormed(c, s) && Inv(c, s) && ScanOk(c, s) && HeldIntact(c, s)
    ensures ScanOk(c, Step(c, s, ch))
  {
    if ch.MoveFiller? {
      FillerScanFrame(c, s, ch);
      FillerKeepsScan(c, s, Step(c, s, ch));
    } else if s.consumer.Await? {
      AwaitStep(c, s, ch);
    } else if s.consumer.Scan? {
      ScanStep(c, s, ch);
    } else {
      LaterConsumerStep(c, s, ch);
    }
  }

  /**
   await_faio reports a premature end of standard input if and only if one of the first N segments is
   the first one of standard input and empty.
   */
  lemma AwaitStopsIff(c: Config, s0: State, run: seq<Choice>)
    requires Init(c, s0)
    ensures var s := After(c, s0, run);
            !s.consumer.Await? && !s.consumer.Scan? ==>
              (s.consumer.PrematureEof? <==> exists n: nat | n < c.slots :: EofAt(s.put, n))
  {
    RunKeepsScan(c, s0, run);
  }

  // ------------------------------------------------------------------ counters

  ghost predicate CountersOk(s: State) {
    && s.puts == |s.put| - (if s.filler.At? && s.filler.stage in {SetUsers, Puts} then 1 else 0)
    && s.gets == |s.got|
    && s.done == if s.filler.CheckGets? || s.filler.HandOver? || s.filler.Exited? then 1 else 0
  }

  lemma ConsumerKeepsCounters(c: Config, s: State, ch: Choice)
    requires WellFormed(c, s) && CountersOk(s) && ch.MoveConsumer?
    ensures CountersOk(Step(c, s, ch))
  {
  }

  lemma FillerKeepsCounters(c: Config, s: State, ch: Choice)
    requires WellFormed(c, s) && CountersOk(s) && ch.MoveFiller?
    ensures CountersOk(Step(c, s, ch))
  {
  }

  lemma StepKeepsCounters(c: Config, s: State, ch: Choice)
    requires WellFormed(c, s) && CountersOk(s)
    ensures CountersOk(Step(c, s, ch))
  {
    if ch.MoveFiller? {
      FillerKeepsCounters(c, s, ch);
    } else {
      ConsumerKeepsCounters(c, s, ch);
    }
  }

  /** puts and gets count the segments stored and handed out, and done says whether all tracks were read. */
  lemma {:induction false} CountersCount(c: Config, s0: State, run: seq<Choice>)
    requires Init(c, s0)
    ensures CountersOk(After(c, s0, run))
  {
    if run != [] {
      CountersCount(c, s0, run[..|run| - 1]);
      StepKeepsCounters(c, After(c, s0, run[..|run| - 1]), run[|run| - 1]);
    }
  }
}
