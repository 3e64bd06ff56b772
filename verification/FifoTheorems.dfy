/** What holds in every state of every run of the FIFO. */
module FifoTheorems {
  import opened Cyclic
  import opened Fifo
  import opened FifoSafety
  import opened FifoLate

  // ------------------------------------------------------------------ delivery

  lemma {:induction false} RunKeepsInv(c: Config, s0: State, run: seq<Choice>)
    requires Init(c, s0)
    ensures Inv(c, After(c, s0, run))
  {
    if run == [] {
      assert Queue(s0) == [];
    } else {
      var prefix := run[..|run| - 1];
      RunKeepsInv(c, s0, prefix);
      StepKeepsInv(c, After(c, s0, prefix), run[|run| - 1]);
    }
  }

  /**
   Exactly-once ordered delivery: the k-th request that returns hands out the file
   descriptor, length, error number and bytes of the k-th segment. One request more than
   there are segments may return, no matter what is asked for: it gets the last of N
   segments again, or a slot without a file.
   */
  lemma Delivery(c: Config, s0: State, run: seq<Choice>)
    requires Init(c, s0)
    ensures var s := After(c, s0, run);
            if |s.got| <= |s.put| then s.got == s.put[..|s.got|] else OneMore(c.slots, s.put, s.got)
  {
    RunKeepsInv(c, s0, run);
  }

  /** The descriptors asked for are those of files. */
  ghost predicate RealFiles(run: seq<Choice>) {
    forall i :: 0 <= i < |run| && run[i].MoveConsumer? ==> run[i].fd != -1
  }

  /** The consumer is in a call of faio_get_buf and knows what it is asked for. */
  predicate Asking(p: ConsumerPc) { p.Enter? || p.Release? || Taking(p) }

  /** A segment of this file that is not longer than asked for. */
  predicate Serves(seg: Segment, fd: int, size: int) { seg.fd == fd && seg.len <= size }

  ghost predicate Asked(s: State) {
    && (Asking(s.consumer) ==> s.consumer.fd != -1)
    && forall k :: 0 <= k < |s.got| ==> s.got[k].fd != -1
  }

  lemma StepKeepsAsked(c: Config, s: State, ch: Choice)
    requires WellFormed(c, s) && Asked(s) && (ch.MoveConsumer? ==> ch.fd != -1)
    ensures Asked(Step(c, s, ch))
  {
    if ch.MoveFiller? {
      FillerFrame(c, s, ch);
    }
  }

  lemma {:induction false} RunKeepsAsked(c: Config, s0: State, run: seq<Choice>)
    requires Init(c, s0) && RealFiles(run)
    ensures Asked(After(c, s0, run))
  {
    if run != [] {
      RunKeepsAsked(c, s0, run[..|run| - 1]);
      StepKeepsAsked(c, After(c, s0, run[..|run| - 1]), run[|run| - 1]);
    }
  }

  lemma OneMoreIsLast(n: nat, put: seq<Segment>, got: seq<Segment>)
    requires OneMore(n, put, got) && got[|put|].fd != -1
    ensures |put| == n && n > 0 && got == put + [put[n - 1]]
  {
    assert got == got[..|put|] + [got[|put|]];
  }

  /** With requests for real files, a request beyond the last segment can only get the last of N segments again. */
  lemma AtMostOneMore(c: Config, s0: State, run: seq<Choice>)
    requires Init(c, s0) && RealFiles(run)
    ensures var s := After(c, s0, run);
            |s.got| > |s.put| ==> |s.put| == c.slots && s.got == s.put + [s.put[c.slots - 1]]
  {
    var s := After(c, s0, run);
    Delivery(c, s0, run);
    RunKeepsAsked(c, s0, run);
    if |s.got| > |s.put| {
      OneMoreIsLast(c.slots, s.put, s.got);
    }
  }

  /** While the filler runs: one faio slot at most, at buf_idx, and one cyclic window. */
  lemma OwnersFormWindow(c: Config, s0: State, run: seq<Choice>)
    requires Init(c, s0)
    requires !After(c, s0, run).filler.Exited?
    ensures var s := After(c, s0, run);
            && s.freed <= |s.put| <= s.freed + c.slots
            && (forall i :: 0 <= i < c.slots && s.slots[i].owner == Faio ==> i == s.r)
            && (forall j :: 0 <= j < c.slots ==>
                  (s.slots[Idx(s.r, j, c.slots)].owner == Writer <==> j >= |s.put| - s.freed))
            && (forall i :: 0 <= i < c.slots ==> s.slots[i].users <= 1)
  {
    RunKeepsInv(c, s0, run);
    var s := After(c, s0, run);
    forall i | 0 <= i < c.slots && s.slots[i].owner == Faio
      ensures i == s.r
    {
      var j := if i >= s.r then i - s.r else i - s.r + c.slots;
      assert Idx(s.r, j, c.slots) == i;
    }
  }

  // ------------------------------------------------------------------ slot stability

  /** The consumer holds the last segment it was handed. */
  predicate Holding(s: State) { (Marking(s.consumer) || s.consumer.Idle?) && s.got != [] }

  ghost predicate HeldIntact(c: Config, s: State) {
    && s.r < |s.slots|
    && (Holding(s) ==> Content(s.slots[s.r]) == s.got[|s.got| - 1])
    && (s.consumer.Await? || s.consumer.Scan? ==> s.got == [])
    && (s.consumer.Gets? ==> s.consumer.fd == s.slots[s.r].fd && s.consumer.len == s.slots[s.r].len)
    && (s.consumer.CheckFd? ==> s.consumer.len == s.slots[s.r].len)
  }

  /** Only the slot being filled gets other content, and nothing of the consumer's changes. */
  ghost predicate FramesFiller(c: Config, s: State, s': State)
    requires WellFormed(c, s)
  {
    && s'.consumer == s.consumer && s'.r == s.r && s'.got == s.got && |s'.slots| == |s.slots|
    && forall i :: 0 <= i < c.slots && !(Filling(s.filler) && i == s.w) ==>
         Content(s'.slots[i]) == Content(s.slots[i])
  }

  lemma SegmentFrame(c: Config, s: State, ch: Choice)
    requires WellFormed(c, s) && ch.MoveFiller? && s.filler.At?
    ensures FramesFiller(c, s, Step(c, s, ch))
  {
  }

  lemma FillerFrame(c: Config, s: State, ch: Choice)
    requires WellFormed(c, s) && ch.MoveFiller?
    ensures FramesFiller(c, s, Step(c, s, ch))
  {
    if s.filler.At? {
      SegmentFrame(c, s, ch);
    }
  }

  /** The filler never fills the slot the consumer reads or holds. */
  lemma HeldIsNotFilled(c: Config, s: State)
    requires Inv(c, s) && WellFormed(c, s)
    requires Holding(s) || s.consumer.CheckFd? || s.consumer.Gets?
    requires s.consumer.Idle? ==> s.got != []
    ensures !(Filling(s.filler) && s.w == s.r)
  {
    if Core(c, s) && Filling(s.filler) {
      HeadSlot(c, s);
      OpenSlot(c, s);
    }
  }

  lemma FillerKeepsHeld(c: Config, s: State, ch: Choice)
    requires WellFormed(c, s) && Inv(c, s) && HeldIntact(c, s) && ch.MoveFiller?
    ensures HeldIntact(c, Step(c, s, ch))
  {
    FillerFrame(c, s, ch);
    if Holding(s) || s.consumer.CheckFd? || s.consumer.Gets? {
      HeldIsNotFilled(c, s);
    }
  }

  /** A move without a store that neither takes a segment nor leaves the slot taken. */
  lemma MoveKeepsHeld(c: Config, s: State, ch: Choice)
    requires WellFormed(c, s) && HeldIntact(c, s) && ch.MoveConsumer?
    requires !s.consumer.Release? && !s.consumer.Gets? && !s.consumer.StoreUsers? && !s.consumer.SetFaio?
    ensures HeldIntact(c, Step(c, s, ch))
  {
  }

  lemma ConsumerKeepsHeld(c: Config, s: State, ch: Choice)
    requires WellFormed(c, s) && HeldIntact(c, s) && ch.MoveConsumer?
    ensures HeldIntact(c, Step(c, s, ch))
  {
    if !s.consumer.Release? && !s.consumer.Gets? && !s.consumer.StoreUsers? && !s.consumer.SetFaio? {
      MoveKeepsHeld(c, s, ch);
    }
  }

  lemma {:induction false} RunKeepsHeld(c: Config, s0: State, run: seq<Choice>)
    requires Init(c, s0)
    ensures HeldIntact(c, After(c, s0, run))
  {
    if run != [] {
      var prefix := run[..|run| - 1];
      var s := After(c, s0, prefix);
      RunKeepsHeld(c, s0, prefix);
      RunKeepsInv(c, s0, prefix);
      if run[|run| - 1].MoveFiller? {
        FillerKeepsHeld(c, s, run[|run| - 1]);
      } else {
        ConsumerKeepsHeld(c, s, run[|run| - 1]);
      }
    }
  }

  /** The bytes handed out through *bpp are intact until the next call of faio_get_buf. */
  lemma HandedOutBytesStay(c: Config, s0: State, run: seq<Choice>)
    requires Init(c, s0)
    ensures var s := After(c, s0, run);
            s.consumer.Idle? && s.got != [] ==>
              && s.slots[s.r].data == s.got[|s.got| - 1].data
              && s.slots[s.r].len == s.got[|s.got| - 1].len
  {
    RunKeepsHeld(c, s0, run);
  }
}
