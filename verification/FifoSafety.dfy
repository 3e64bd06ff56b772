/**
 Safety of the FIFO in every interleaving: the slots form a cyclic window, segments are
 delivered in order and exactly once, and bytes handed out stay put until the next call.
 */
module FifoSafety {
  import opened Cyclic
  import opened Fifo

  // ------------------------------------------------------------------ the window

  /**
   The segments `q` lie in the slots from `r` on. They belong to the reader, the oldest
   perhaps to faio.
   */
  ghost predicate Window(slots: seq<Slot>, r: nat, q: seq<Segment>, head: Owner)
    requires r < |slots| && |q| <= |slots|
  {
    forall j :: 0 <= j < |q| ==>
      var f := slots[Idx(r, j, |slots|)];
      Content(f) == q[j] && f.owner == if j == 0 then head else Reader
  }

  /** The slots after the window belong to the writer, save slot N-1 once it was marked. */
  ghost predicate Open(slots: seq<Slot>, r: nat, used: nat, handed: bool)
    requires r < |slots| && used <= |slots|
  {
    forall j :: used <= j < |slots| ==>
      var i := Idx(r, j, |slots|);
      slots[i].owner == Writer || (handed && i == |slots| - 1 && slots[i].owner == Reader)
  }

  /** A store that changes neither the owner nor the content of a slot in use. */
  lemma WindowFrame(slots: seq<Slot>, r: nat, q: seq<Segment>, head: Owner, handed: bool, i: nat, f: Slot)
    requires r < |slots| && |q| <= |slots| && i < |slots|
    requires Window(slots, r, q, head) && Open(slots, r, |q|, handed)
    requires f.owner == slots[i].owner
    requires Content(f) == Content(slots[i]) || slots[i].owner == Writer
    requires head != Writer
    ensures Window(slots[i := f], r, q, head) && Open(slots[i := f], r, |q|, handed)
  {
  }

  lemma WindowPush(slots: seq<Slot>, r: nat, q: seq<Segment>, head: Owner)
    requires r < |slots| && |q| < |slots|
    requires Window(slots, r, q, head) && Open(slots, r, |q|, false)
    requires q == [] ==> head == Reader
    ensures var i := Idx(r, |q|, |slots|);
            var slots' := slots[i := slots[i].(owner := Reader)];
            Window(slots', r, q + [Content(slots[i])], head) && Open(slots', r, |q| + 1, false)
  {
  }

  lemma WindowPop(slots: seq<Slot>, r: nat, q: seq<Segment>, head: Owner, handed: bool)
    requires r < |slots| && 0 < |q| <= |slots|
    requires Window(slots, r, q, head) && Open(slots, r, |q|, handed)
    ensures var slots' := slots[r := slots[r].(owner := Writer)];
            var r' := Inc(r, |slots|);
            r' == Idx(r, 1, |slots|) &&
            Window(slots', r', q[1..], Reader) && Open(slots', r', |q| - 1, handed)
  {
    var n := |slots|;
    var slots' := slots[r := slots[r].(owner := Writer)];
    var r' := Inc(r, n);
    assert forall j :: 0 <= j < n - 1 ==> Idx(r', j, n) == Idx(r, j + 1, n) != r;
    assert Idx(r', n - 1, n) == r;
  }

  /** The head of the window changes hands between the reader and faio. */
  lemma WindowHead(slots: seq<Slot>, r: nat, q: seq<Segment>, head: Owner, head': Owner, handed: bool)
    requires r < |slots| && 0 < |q| <= |slots|
    requires Window(slots, r, q, head) && Open(slots, r, |q|, handed)
    ensures var slots' := slots[r := slots[r].(owner := head')];
            Window(slots', r, q, head') && Open(slots', r, |q|, handed)
  {
  }

  // ------------------------------------------------------------------ the invariant

  /** The filler has stored the segment but not yet moved its index. */
  predicate Storing(p: FillerPc) { p.At? && p.stage in {SetUsers, Puts, Next} }

  /** The filler is between its poll and the store that hands the slot over. */
  predicate Filling(p: FillerPc) { p.At? && p.stage in {SetFd, Fill, SetLen, SetErrno, SetOwner} }

  /** The consumer has taken a segment in this call and not yet marked the slot. */
  predicate Marking(p: ConsumerPc) { p.LoadUsers? || p.StoreUsers? || p.SetFaio? }

  /** The consumer waits for, or examines, a segment it has not taken yet. */
  predicate Taking(p: ConsumerPc) { p.PollReader? || p.ReadLen? || p.CheckFd? || p.Gets? }

  /** Segments stored and not yet given back. */
  function Queue(s: State): seq<Segment>
    requires s.freed <= |s.put|
  {
    s.put[s.freed..]
  }

  /** The owner of the oldest occupied slot. */
  function HeadOwner(s: State): Owner {
    if |s.got| == s.freed + 1 && !Marking(s.consumer) then Faio else Reader
  }

  ghost predicate Counts(n: nat, s: State) {
    && s.freed <= |s.got| <= s.freed + 1
    && |s.got| <= |s.put| <= s.freed + n
    && s.got == s.put[..|s.got|]
    && s.gets == |s.got|
    && s.r < n && (s.freed <= n ==> s.r == if s.freed < n then s.freed else 0)
    && (s.handed ==> s.filler.Exited? && |s.put| <= n)
  }

  /** The filler's index is where the window ends. */
  ghost predicate FillerOk(c: Config, s: State)
    requires WellFormed(c, s) && Counts(c.slots, s)
  {
    && (if Storing(s.filler) then Inc(s.w, c.slots) else s.w) == Idx(s.r, |s.put| - s.freed, c.slots)
    && (Filling(s.filler) ==> s.slots[s.w].owner == Writer)
    && (s.filler.HandOver? ==> |s.put| <= c.slots)
  }

  ghost predicate ConsumerOk(p: ConsumerPc, head: Slot, freed: nat, put: nat, got: nat) {
    && (p.Await? || p.Scan? || p.PrematureEof? ==> got == 0)
    && (p.Idle? ==> got == 0 || got == freed + 1)
    && (p.Release? || Marking(p) ==> got == freed + 1)
    && (Taking(p) ==> got == freed)
    && (Taking(p) && !p.PollReader? ==> freed < put)
    && (p.CheckFd? ==> p.len == head.len)
    && (p.Gets? ==> p.len == head.len && p.fd == head.fd)
    && (p.StoreUsers? ==> p.u <= 0)
  }

  ghost predicate UsersOk(slots: seq<Slot>) { forall i :: 0 <= i < |slots| ==> slots[i].users <= 1 }

  ghost predicate Ring(c: Config, s: State) {
    && WellFormed(c, s)
    && Counts(c.slots, s)
    && Window(s.slots, s.r, Queue(s), HeadOwner(s))
    && Open(s.slots, s.r, |s.put| - s.freed, s.handed)
    && UsersOk(s.slots)
  }

  ghost predicate Core(c: Config, s: State) {
    && Ring(c, s)
    && FillerOk(c, s)
    && ConsumerOk(s.consumer, s.slots[s.r], s.freed, |s.put|, |s.got|)
  }

  /** A slot not yet reached by the filler has no descriptor, and it is reached in order. */
  ghost predicate Fresh(c: Config, s: State) {
    && WellFormed(c, s)
    && (|s.put| < c.slots ==> s.w == if Storing(s.filler) then |s.put| - 1 else |s.put|)
    && forall i :: |s.put| <= i < c.slots ==> s.slots[i].fd == -1 || (Filling(s.filler) && i == s.w)
  }

  // ------------------------------------------------------------------ slot N-1, marked late

  /** Slot N-1 when the mark takes effect: the last of N segments, or never filled. */
  ghost predicate Stale(n: nat, put: seq<Segment>, last: Slot, w: nat) {
    if |put| == n && n > 0 then Content(last) == put[n - 1] && w == 0 else |put| == n - 1 && last.fd == -1
  }

  /** The consumer before it has taken the marked slot, and after. */
  ghost predicate Pending(p: ConsumerPc, last: Slot, filled: bool) {
    && last.owner == Reader
    && (p.Idle? || p.Release? ==> filled)
    && (p.Idle? || p.Enter? || p.Release? || Taking(p) || p.Fatal?)
    && (p.CheckFd? ==> p.len == last.len)
    && (p.Gets? ==> p.len == last.len && p.fd == last.fd)
  }

  ghost predicate Taken(p: ConsumerPc, last: Slot) {
    && (Marking(p) ==> last.owner == Reader)
    && (!Marking(p) ==> last.owner == Faio && (p.Idle? || p.Enter? || p.Release?))
    && (p.StoreUsers? ==> p.u <= 0)
  }

  /** The marked slot N-1 is the only one not given back, although everything stored was delivered. */
  ghost predicate Again(c: Config, s: State) {
    var n := c.slots;
    && WellFormed(c, s) && UsersOk(s.slots)
    && s.filler.Exited? && s.handed && s.gets == |s.got| && s.freed == s.r == n - 1
    && (forall i :: 0 <= i < n - 1 ==> s.slots[i].owner == Writer)
    && Stale(n, s.put, s.slots[n - 1], s.w)
    && if s.got == s.put then Pending(s.consumer, s.slots[n - 1], |s.put| == n)
       else s.got == s.put + [Content(s.slots[n - 1])] && Taken(s.consumer, s.slots[n - 1])
  }

  // ------------------------------------------------------------------ filler steps

  /** The open slot at the filler's index is the one right after the window. */
  lemma OpenSlot(c: Config, s: State)
    requires Core(c, s) && s.filler.At? && s.slots[s.w].owner == Writer && !Storing(s.filler)
    ensures |s.put| - s.freed < c.slots && s.w == Idx(s.r, |s.put| - s.freed, c.slots)
    ensures s.w == s.r ==> s.freed == |s.put|
  {
    if |s.put| - s.freed > 0 {
      assert s.slots[Idx(s.r, 0, c.slots)].owner == HeadOwner(s);
    }
  }

  /** A filler step that stores slot `f` at the filler's index and leaves the window alone. */
  ghost predicate StoresSlot(s: State, s': State, f: Slot)
    requires s.w < |s.slots|
  {
    && s' == s.(slots := s.slots[s.w := f], filler := s'.filler)
    && s.filler.At? && s'.filler.At? && Storing(s'.filler) == Storing(s.filler)
    && f.owner == s.slots[s.w].owner && f.users <= 1
    && (if Storing(s.filler) then Content(f) == Content(s.slots[s.w])
        else Filling(s.filler) || (Filling(s'.filler) && f.owner == Writer))
  }

  lemma SlotStoreKeepsRing(c: Config, s: State, s': State, f: Slot)
    requires Ring(c, s) && WellFormed(c, s') && StoresSlot(s, s', f)
    requires Content(f) == Content(s.slots[s.w]) || f.owner == Writer
    ensures Ring(c, s')
  {
    WindowFrame(s.slots, s.r, Queue(s), HeadOwner(s), s.handed, s.w, f);
  }

  lemma SlotStoreKeepsCore(c: Config, s: State, s': State, f: Slot)
    requires Core(c, s) && WellFormed(c, s') && StoresSlot(s, s', f)
    ensures Core(c, s')
  {
    SlotStoreKeepsRing(c, s, s', f);
    if !Storing(s.filler) {
      OpenSlot(c, s);
    }
  }

  /** What the hand-over changes: the open slot becomes the newest occupied one. */
  ghost predicate HandsOver(s: State, s': State)
    requires s.w < |s.slots|
  {
    && s.filler.At? && s.filler.stage == SetOwner && Storing(s'.filler)
    && s' == s.(slots := s.slots[s.w := s.slots[s.w].(owner := Reader)], filler := s'.filler,
                put := s.put + [Content(s.slots[s.w])], putTrack := s'.putTrack)
  }

  lemma HandOverKeepsCounts(c: Config, s: State, s': State)
    requires WellFormed(c, s) && Counts(c.slots, s) && HandsOver(s, s') && |s.put| - s.freed < c.slots
    ensures Counts(c.slots, s') && HeadOwner(s') == HeadOwner(s)
  {
    assert s'.got == s'.put[..|s'.got|];
  }

  lemma HandOverKeepsRing(c: Config, s: State, s': State)
    requires Ring(c, s) && WellFormed(c, s') && HandsOver(s, s')
    requires |s.put| - s.freed < c.slots && s.w == Idx(s.r, |s.put| - s.freed, c.slots)
    ensures Ring(c, s')
  {
    HandOverKeepsCounts(c, s, s');
    WindowPush(s.slots, s.r, Queue(s), HeadOwner(s));
    assert Queue(s') == Queue(s) + [Content(s.slots[s.w])];
  }

  lemma HandOverKeepsCore(c: Config, s: State, s': State)
    requires Core(c, s) && WellFormed(c, s') && HandsOver(s, s')
    ensures Core(c, s')
  {
    OpenSlot(c, s);
    HandOverKeepsRing(c, s, s');
    assert Content(s'.slots[s.r]) == Content(s.slots[s.r]);
    assert FillerOk(c, s');
  }

  /** A step that only moves the filler along, with its index following the stored segment. */
  ghost predicate MovesOn(c: Config, s: State, s': State) {
    && s' == s.(filler := s'.filler, w := s'.w, puts := s'.puts, done := s'.done)
    && (Storing(s.filler) && !Storing(s'.filler) ==> s'.w == Inc(s.w, c.slots))
    && (Storing(s'.filler) ==> Storing(s.filler))
    && (!Storing(s.filler) || Storing(s'.filler) ==> s'.w == s.w)
    && (Filling(s'.filler) ==> Filling(s.filler))
    && (s'.filler.HandOver? ==> s.gets == 0)
    && (s.filler.Exited? ==> s'.filler.Exited?)
  }

  lemma MoveKeepsCore(c: Config, s: State, s': State)
    requires Core(c, s) && WellFormed(c, s') && MovesOn(c, s, s')
    ensures Core(c, s')
  {
  }

  /** All stages but three store into the slot at the filler's index, if anything. */
  lemma StageStoresSlot(c: Config, s: State, ch: Choice)
    requires WellFormed(c, s) && ch.MoveFiller? && s.filler.At? && s.slots[s.w].users <= 1
    requires s.filler.stage != SetOwner && s.filler.stage != Puts && s.filler.stage != Next
    ensures var s' := Step(c, s, ch); s' == s || (|s'.slots| == |s.slots| && StoresSlot(s, s', s'.slots[s.w]))
  {
    var s' := Step(c, s, ch);
    if s' != s {
      assert s'.slots == s.slots[s.w := s'.slots[s.w]];
    }
  }

  /** The other three hand the slot over, count it, and move on. */
  lemma StageMovesOn(c: Config, s: State, ch: Choice)
    requires WellFormed(c, s) && ch.MoveFiller? && s.filler.At?
    ensures s.filler.stage == SetOwner ==> HandsOver(s, Step(c, s, ch))
    ensures s.filler.stage == Puts || s.filler.stage == Next ==> MovesOn(c, s, Step(c, s, ch))
  {
  }

  lemma SegmentStepKeepsCore(c: Config, s: State, ch: Choice)
    requires Core(c, s) && ch.MoveFiller? && s.filler.At?
    ensures Core(c, Step(c, s, ch))
  {
    StepWellFormed(c, s, ch);
    var s' := Step(c, s, ch);
    StageMovesOn(c, s, ch);
    if s.filler.stage == SetOwner {
      HandOverKeepsCore(c, s, s');
    } else if s.filler.stage == Puts || s.filler.stage == Next {
      MoveKeepsCore(c, s, s');
    } else {
      StageStoresSlot(c, s, ch);
      if s' != s {
        SlotStoreKeepsCore(c, s, s', s'.slots[s.w]);
      }
    }
  }

  /** With buf_idx at slot N-1 and at most one segment left, all other slots are the writer's. */
  lemma OthersOpen(slots: seq<Slot>, used: nat, handed: bool)
    requires 0 < |slots| && used <= 1 && Open(slots, |slots| - 1, used, handed)
    ensures forall i :: 0 <= i < |slots| - 1 ==> slots[i].owner == Writer
  {
    forall i | 0 <= i < |slots| - 1
      ensures slots[i].owner == Writer
    {
      assert Idx(|slots| - 1, i + 1, |slots|) == i;
    }
  }

  /** The exiting filler marks slot N-1. */
  ghost predicate Marks(c: Config, s: State, s': State)
    requires WellFormed(c, s)
  {
    && s.filler.HandOver?
    && s' == s.(slots := s.slots[c.slots - 1 := s.slots[c.slots - 1].(owner := Reader)],
                filler := Exited, handed := true)
  }

  /** The place of slot N-1, counted from buf_idx. */
  function PlaceOfLast(r: nat, n: nat): (j: nat)
    requires r < n
    ensures j < n && Idx(r, j, n) == n - 1
  {
    n - 1 - r
  }

  /** Slot N-1 can be faio's at that time only if it holds the last of N segments, all of them delivered. */
  lemma HeldAtMark(c: Config, s: State)
    requires Core(c, s) && s.filler.HandOver? && s.slots[c.slots - 1].owner == Faio
    ensures |s.put| == c.slots && s.got == s.put && s.freed == s.r == c.slots - 1 && s.w == 0
    ensures Content(s.slots[c.slots - 1]) == s.put[c.slots - 1]
    ensures s.consumer.Idle? || s.consumer.Enter? || s.consumer.Release? || s.consumer.Fatal?
  {
    assert PlaceOfLast(s.r, c.slots) == 0;
  }

  lemma MarkOfHeld(c: Config, s: State, s': State)
    requires Core(c, s) && WellFormed(c, s') && Marks(c, s, s') && s.slots[c.slots - 1].owner == Faio
    ensures Again(c, s') && s'.got == s'.put
  {
    HeldAtMark(c, s);
    OthersOpen(s.slots, 1, s.handed);
  }

  /** Slot N-1 outside the window, or in it and the reader's already, may be marked. */
  lemma WindowMark(slots: seq<Slot>, r: nat, q: seq<Segment>, head: Owner)
    requires r < |slots| && |q| <= |slots|
    requires Window(slots, r, q, head) && Open(slots, r, |q|, false) && slots[|slots| - 1].owner != Faio
    requires head != Writer
    ensures var slots' := slots[|slots| - 1 := slots[|slots| - 1].(owner := Reader)];
            Window(slots', r, q, head) && Open(slots', r, |q|, true)
  {
    var j := PlaceOfLast(r, |slots|);
    if j < |q| {
      assert slots[Idx(r, j, |slots|)].owner == Reader;
      assert slots[|slots| - 1 := slots[|slots| - 1].(owner := Reader)] == slots;
    }
  }

  lemma MarkKeepsRing(c: Config, s: State, s': State)
    requires Ring(c, s) && WellFormed(c, s') && Marks(c, s, s') && s.slots[c.slots - 1].owner != Faio
    requires |s.put| <= c.slots
    ensures Ring(c, s')
  {
    WindowMark(s.slots, s.r, Queue(s), HeadOwner(s));
  }

  /** Any other mark hits a slot that is the reader's already, or one that is not in use. */
  lemma MarkOfOther(c: Config, s: State, s': State)
    requires Core(c, s) && WellFormed(c, s') && Marks(c, s, s') && s.slots[c.slots - 1].owner != Faio
    ensures Core(c, s')
  {
    MarkKeepsRing(c, s, s');
    assert s'.slots[s.r].len == s.slots[s.r].len && s'.slots[s.r].fd == s.slots[s.r].fd;
  }

  lemma FillerStepFromCore(c: Config, s: State, ch: Choice)
    requires Core(c, s) && ch.MoveFiller?
    ensures Core(c, Step(c, s, ch)) || Again(c, Step(c, s, ch))
  {
    StepWellFormed(c, s, ch);
    var s' := Step(c, s, ch);
    if s.filler.At? {
      SegmentStepKeepsCore(c, s, ch);
    } else if s.filler.HandOver? {
      if s.slots[c.slots - 1].owner == Faio {
        MarkOfHeld(c, s, s');
      } else {
        MarkOfOther(c, s, s');
      }
    } else {
      MoveKeepsCore(c, s, s');
    }
  }

  // ------------------------------------------------------------------ consumer steps

  /** A consumer step without a store. */
  lemma ConsumerMoveKeepsCore(c: Config, s: State, s': State)
    requires Core(c, s) && s' == s.(consumer := s'.consumer)
    requires Marking(s'.consumer) == Marking(s.consumer)
    requires ConsumerOk(s'.consumer, s.slots[s.r], s.freed, |s.put|, |s.got|)
    ensures Core(c, s')
  {
  }

  /** The oldest slot when nothing waits in it, and when something does. */
  lemma HeadSlot(c: Config, s: State)
    requires Core(c, s)
    ensures s.freed < |s.put| ==>
      s.slots[s.r].owner == HeadOwner(s) && Content(s.slots[s.r]) == s.put[s.freed]
    ensures s.freed == |s.put| ==>
      s.slots[s.r].owner == Writer || (s.handed && s.r == c.slots - 1 && s.slots[s.r].owner == Reader)
  {
    assert s.r == Idx(s.r, 0, c.slots);
  }

  /** The consumer is about to look at a slot N-1 that was marked but never filled. */
  ghost predicate Unfilled(c: Config, s: State) {
    Again(c, s) && s.got == s.put && |s.put| == c.slots - 1 && s.consumer.ReadLen?
  }

  lemma MarkedUnfilled(c: Config, s: State, s': State)
    requires Core(c, s) && Fresh(c, s) && s.consumer.PollReader? && s' == s.(consumer := s'.consumer)
    requires s.freed == |s.put| && s.slots[s.r].owner == Reader && s'.consumer.ReadLen?
    ensures Unfilled(c, s')
  {
    HeadSlot(c, s);
    OthersOpen(s.slots, 0, s.handed);
    assert s.got == s.put;
  }

  /** Where a request gets without a store, given the owner of the oldest slot. */
  lemma RequestPc(c: Config, s: State, ch: Choice, freed: nat, put: nat, got: nat)
    requires WellFormed(c, s) && ch.MoveConsumer? && ConsumerOk(s.consumer, s.slots[s.r], freed, put, got)
    requires s.consumer.Enter? || s.consumer.PollReader? || s.consumer.ReadLen? || s.consumer.CheckFd?
    requires freed <= got <= freed + 1 && got <= put
    requires s.slots[s.r].owner == Faio <==> got == freed + 1
    requires s.consumer.PollReader? && s.slots[s.r].owner == Reader ==> freed < put
    ensures var s' := Step(c, s, ch);
            && s' == s.(consumer := s'.consumer) && !Marking(s'.consumer)
            && ConsumerOk(s'.consumer, s.slots[s.r], freed, put, got)
  {
  }

  /** A request without a store, from the test at its start to the test of the descriptor. */
  lemma RequestStepFromCore(c: Config, s: State, ch: Choice)
    requires Core(c, s) && Fresh(c, s) && ch.MoveConsumer?
    requires s.consumer.Enter? || s.consumer.PollReader? || s.consumer.ReadLen? || s.consumer.CheckFd?
    ensures Core(c, Step(c, s, ch)) || Unfilled(c, Step(c, s, ch))
  {
    var s' := Step(c, s, ch);
    if s.consumer.PollReader? && s.freed == |s.put| && s.slots[s.r].owner == Reader {
      MarkedUnfilled(c, s, s');
    } else {
      HeadSlot(c, s);
      RequestPc(c, s, ch, s.freed, |s.put|, |s.got|);
      ConsumerMoveKeepsCore(c, s, s');
    }
  }

  /** Before the first request, between two requests, and when the consumer has given up. */
  lemma IdleStepKeepsCore(c: Config, s: State, ch: Choice)
    requires Core(c, s) && ch.MoveConsumer?
    requires s.consumer.Await? || s.consumer.Scan? || s.consumer.Idle? || s.consumer.LoadUsers?
          || s.consumer.Fatal? || s.consumer.PrematureEof?
    ensures Core(c, Step(c, s, ch))
  {
    ConsumerMoveKeepsCore(c, s, Step(c, s, ch));
  }

  lemma ReleaseKeepsRing(c: Config, s: State, s': State)
    requires Ring(c, s) && |s.got| == s.freed + 1 && !Marking(s.consumer) && WellFormed(c, s')
    requires s' == s.(slots := s.slots[s.r := s.slots[s.r].(owner := Writer)], r := Inc(s.r, c.slots),
                      freed := s.freed + 1, consumer := s'.consumer)
    ensures Ring(c, s') && s'.r == Idx(s.r, 1, c.slots)
  {
    WindowPop(s.slots, s.r, Queue(s), HeadOwner(s), s.handed);
    assert Queue(s') == Queue(s)[1..];
  }

  lemma ReleaseKeepsCore(c: Config, s: State, s': State)
    requires Core(c, s) && s.consumer.Release? && WellFormed(c, s')
    requires s' == s.(slots := s.slots[s.r := s.slots[s.r].(owner := Writer)], r := Inc(s.r, c.slots),
                      freed := s.freed + 1, consumer := s'.consumer)
    requires s'.consumer.PollReader?
    ensures Core(c, s')
  {
    ReleaseKeepsRing(c, s, s');
    assert FillerOk(c, s') by {
      assert Idx(s'.r, |s'.put| - s'.freed, c.slots) == Idx(s.r, |s.put| - s.freed, c.slots);
    }
  }

  lemma GetsKeepsCore(c: Config, s: State, s': State)
    requires Core(c, s) && s.consumer.Gets? && s'.consumer.LoadUsers?
    requires s' == s.(gets := s.gets + 1, consumer := s'.consumer,
                      got := s.got + [Segment(s.consumer.fd, s.consumer.len, s.slots[s.r].errno, s.slots[s.r].data)])
    ensures Core(c, s')
  {
    HeadSlot(c, s);
    assert s'.got == s.got + [s.put[s.freed]];
    assert Ring(c, s');
  }

  lemma StoreUsersKeepsCore(c: Config, s: State, s': State)
    requires Core(c, s) && s.consumer.StoreUsers? && s'.consumer.SetFaio? && WellFormed(c, s')
    requires s' == s.(slots := s.slots[s.r := s.slots[s.r].(users := s.consumer.u)], consumer := s'.consumer)
    ensures Core(c, s')
  {
    WindowFrame(s.slots, s.r, Queue(s), HeadOwner(s), s.handed, s.r, s'.slots[s.r]);
    assert Ring(c, s');
  }

  lemma SetFaioKeepsRing(c: Config, s: State, s': State)
    requires Ring(c, s) && s.freed < |s.got| && s'.consumer.Idle? && WellFormed(c, s')
    requires s' == s.(slots := s.slots[s.r := s.slots[s.r].(owner := Faio)], consumer := s'.consumer)
    ensures Ring(c, s')
  {
    WindowHead(s.slots, s.r, Queue(s), HeadOwner(s), Faio, s.handed);
  }

  lemma SetFaioKeepsCore(c: Config, s: State, s': State)
    requires Core(c, s) && s.consumer.SetFaio? && s'.consumer.Idle? && WellFormed(c, s')
    requires s' == s.(slots := s.slots[s.r := s.slots[s.r].(owner := Faio)], consumer := s'.consumer)
    ensures Core(c, s')
  {
    SetFaioKeepsRing(c, s, s');
    if Filling(s.filler) {
      HeadSlot(c, s);
    }
  }

  lemma ConsumerStepFromCore(c: Config, s: State, ch: Choice)
    requires Core(c, s) && Fresh(c, s) && ch.MoveConsumer?
    ensures Core(c, Step(c, s, ch)) || Unfilled(c, Step(c, s, ch))
  {
    StepWellFormed(c, s, ch);
    var s' := Step(c, s, ch);
    match s.consumer
    case Release(_, _) => ReleaseKeepsCore(c, s, s');
    case Gets(_, _, _) => GetsKeepsCore(c, s, s');
    case StoreUsers(_) => StoreUsersKeepsCore(c, s, s');
    case SetFaio => SetFaioKeepsCore(c, s, s');
    case Enter(_, _) => RequestStepFromCore(c, s, ch);
    case PollReader(_, _) => RequestStepFromCore(c, s, ch);
    case ReadLen(_, _) => RequestStepFromCore(c, s, ch);
    case CheckFd(_, _, _) => RequestStepFromCore(c, s, ch);
    case _ => IdleStepKeepsCore(c, s, ch);
  }
}
