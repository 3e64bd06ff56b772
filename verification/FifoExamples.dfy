/** Runs of a small FIFO that end in the two situations in which a request is not served as it should be. */
module FifoExamples {
  import opened Cyclic
  import opened Fifo
  import opened FifoSafety
  import opened FifoLate
  import opened FifoTheorems
  import opened FifoProgress
  import opened FifoRepeat

  // ------------------------------------------------------------------ reaching a state

  ghost predicate Reaches(c: Config, s0: State, s: State)
    requires WellFormed(c, s0)
  {
    exists run :: RealFiles(run) && After(c, s0, run) == s
  }

  lemma ReachesStart(c: Config, s0: State)
    requires WellFormed(c, s0)
    ensures Reaches(c, s0, s0)
  {
    assert RealFiles([]) && After(c, s0, []) == s0;
  }

  lemma ReachesNext(c: Config, s0: State, s: State, ch: Choice, s': State)
    requires WellFormed(c, s0) && WellFormed(c, s) && Reaches(c, s0, s) && Step(c, s, ch) == s'
    requires ch.MoveConsumer? ==> ch.fd != -1
    ensures WellFormed(c, s') && Reaches(c, s0, s')
  {
    var run :| RealFiles(run) && After(c, s0, run) == s;
    StepWellFormed(c, s, ch);
    Then(c, s0, run, s, ch, s');
    assert RealFiles(run + [ch]);
  }

  lemma FillerNext(c: Config, s0: State, s: State, ch: Choice, s': State)
    requires WellFormed(c, s0) && WellFormed(c, s) && Reaches(c, s0, s)
    requires ch.MoveFiller? && FillerStep(c, s, ch) == s'
    ensures WellFormed(c, s') && Reaches(c, s0, s')
  {
    ReachesNext(c, s0, s, ch, s');
  }

  lemma ConsumerNext(c: Config, s0: State, s: State, ch: Choice, s': State)
    requires WellFormed(c, s0) && WellFormed(c, s) && Reaches(c, s0, s)
    requires ch.MoveConsumer? && ch.fd != -1 && ConsumerStep(c, s, ch) == s'
    ensures WellFormed(c, s') && Reaches(c, s0, s')
  {
    ReachesNext(c, s0, s, ch, s');
  }

  // ------------------------------------------------------------------ one segment

  /** A transfer of `l` bytes into an empty slot, up to the hand-over. */
  lemma FillsSlot(c: Config, s0: State, s: State, t: nat, l: int, s': State)
    requires WellFormed(c, s0) && WellFormed(c, s) && Reaches(c, s0, s)
    requires s.filler == Start(t) && t < |c.tracks| && s.slots[s.w].owner == Writer
    requires BytesPerTransfer(c.tracks[t]) <= c.bufSize && l <= BytesToRead(c.tracks[t], 0)
    requires s' == s.(filler := At(SetOwner, t, 0, l, 0),
                      slots := s.slots[s.w := s.slots[s.w].(fd := c.tracks[t].fd, len := l, errno := 0)])
    ensures WellFormed(c, s') && Reaches(c, s0, s')
  {
    var ch, f := MoveFiller(0, 0, l, 0), s.slots[s.w];
    var f1 := f.(fd := c.tracks[t].fd);
    var s1 := s.(filler := At(Poll, t, 0, 0, 0));
    var s2 := s.(filler := At(SetFd, t, 0, 0, 0));
    var s3 := s.(filler := At(Fill, t, 0, 0, 0), slots := s.slots[s.w := f1]);
    var s4 := s3.(filler := At(SetLen, t, 0, l, 0));
    var s5 := s.(filler := At(SetErrno, t, 0, l, 0), slots := s.slots[s.w := f1.(len := l)]);
    FillerNext(c, s0, s, ch, s1);
    FillerNext(c, s0, s1, ch, s2);
    FillerNext(c, s0, s2, ch, s3);
    FillerNext(c, s0, s3, ch, s4);
    FillerNext(c, s0, s4, ch, s5);
    FillerNext(c, s0, s5, ch, s');
  }

  /** The hand-over, up to the store of users. */
  lemma HandsOverSlot(c: Config, s0: State, s: State, t: nat, l: int, s': State)
    requires WellFormed(c, s0) && WellFormed(c, s) && Reaches(c, s0, s)
    requires s.filler == At(SetOwner, t, 0, l, 0)
    requires s' == s.(filler := At(Puts, t, 0, l, 0),
                      slots := s.slots[s.w := s.slots[s.w].(owner := Reader, users := 1)],
                      put := s.put + [Content(s.slots[s.w])], putTrack := s.putTrack + [t])
    ensures WellFormed(c, s') && Reaches(c, s0, s')
  {
    var ch, f := MoveFiller(0, 0, l, 0), s.slots[s.w];
    var s1 := s'.(filler := At(SetUsers, t, 0, l, 0), slots := s.slots[s.w := f.(owner := Reader)]);
    FillerNext(c, s0, s, ch, s1);
    assert s1.slots[s.w := f.(owner := Reader, users := 1)] == s'.slots;
    FillerNext(c, s0, s1, ch, s');
  }

  /** On to the next track, when the track is finished with this segment. */
  lemma MovesOnToNext(c: Config, s0: State, s: State, t: nat, l: int, s': State)
    requires WellFormed(c, s0) && WellFormed(c, s) && Reaches(c, s0, s)
    requires s.filler == At(Puts, t, 0, l, 0) && (l <= 0 || 0 <= c.tracks[t].tracksize <= l)
    requires s' == s.(filler := Start(t + 1), w := Inc(s.w, c.slots), puts := s.puts + 1)
    ensures WellFormed(c, s') && Reaches(c, s0, s')
  {
    var ch := MoveFiller(0, 0, l, 0);
    FillerNext(c, s0, s, ch, s.(filler := At(Next, t, 0, l, 0), puts := s.puts + 1));
    FillerNext(c, s0, s.(filler := At(Next, t, 0, l, 0), puts := s.puts + 1), ch, s');
  }

  /** The slot after a one-segment track. */
  function Stored(f: Slot, fd: int, l: int): Slot { f.(owner := Reader, users := 1, fd := fd, len := l, errno := 0) }

  /** The state after a one-segment track. */
  function AfterTrack(c: Config, s: State, t: nat, l: int): State
    requires WellFormed(c, s) && t < |c.tracks|
  {
    var f := Stored(s.slots[s.w], c.tracks[t].fd, l);
    s.(filler := Start(t + 1), w := Inc(s.w, c.slots), puts := s.puts + 1, slots := s.slots[s.w := f],
       put := s.put + [Content(f)], putTrack := s.putTrack + [t])
  }

  /** The stages in between are those of the three lemmas above. */
  lemma StagesMeet(c: Config, s: State, t: nat, l: int, f: Slot, s1: State, s2: State)
    requires WellFormed(c, s) && t < |c.tracks|
    requires f == s.slots[s.w].(fd := c.tracks[t].fd, len := l, errno := 0)
    requires s1 == s.(filler := At(SetOwner, t, 0, l, 0), slots := s.slots[s.w := f])
    requires s2 == AfterTrack(c, s, t, l).(filler := At(Puts, t, 0, l, 0), w := s.w, puts := s.puts)
    ensures s2 == s1.(filler := At(Puts, t, 0, l, 0),
                      slots := s1.slots[s1.w := s1.slots[s1.w].(owner := Reader, users := 1)],
                      put := s1.put + [Content(s1.slots[s1.w])], putTrack := s1.putTrack + [t])
    ensures AfterTrack(c, s, t, l) == s2.(filler := Start(t + 1), w := Inc(s2.w, c.slots), puts := s2.puts + 1)
  {
  }

  lemma StoresTrack(c: Config, s0: State, s: State, t: nat, l: int)
    requires WellFormed(c, s0) && WellFormed(c, s) && Reaches(c, s0, s)
    requires s.filler == Start(t) && t < |c.tracks| && s.slots[s.w].owner == Writer
    requires BytesPerTransfer(c.tracks[t]) <= c.bufSize && l <= BytesToRead(c.tracks[t], 0)
    requires l <= 0 || 0 <= c.tracks[t].tracksize <= l
    ensures WellFormed(c, AfterTrack(c, s, t, l)) && Reaches(c, s0, AfterTrack(c, s, t, l))
  {
    var f, s' := s.slots[s.w].(fd := c.tracks[t].fd, len := l, errno := 0), AfterTrack(c, s, t, l);
    var s1 := s.(filler := At(SetOwner, t, 0, l, 0), slots := s.slots[s.w := f]);
    var s2 := s'.(filler := At(Puts, t, 0, l, 0), w := s.w, puts := s.puts);
    FillsSlot(c, s0, s, t, l, s1);
    StagesMeet(c, s, t, l, f, s1, s2);
    HandsOverSlot(c, s0, s1, t, l, s2);
    MovesOnToNext(c, s0, s2, t, l, s');
  }

  // ------------------------------------------------------------------ a request

  /** Between two calls, after one more segment. */
  function AfterGet(c: Config, s: State): State
    requires WellFormed(c, s)
  {
    var f := s.slots[s.r];
    s.(consumer := Idle, gets := s.gets + 1, got := s.got + [Content(f)],
       slots := s.slots[s.r := f.(owner := Faio, users := f.users - 1)])
  }

  /** The oldest slot is found to serve the request. */
  lemma LooksAtSegment(c: Config, s0: State, s: State, fd: int, size: int)
    requires WellFormed(c, s0) && WellFormed(c, s) && Reaches(c, s0, s)
    requires s.consumer == PollReader(fd, size) && fd != -1
    requires var f := s.slots[s.r]; f.owner == Reader && f.fd == fd && f.len <= size
    ensures var s' := s.(consumer := Gets(fd, size, s.slots[s.r].len)); WellFormed(c, s') && Reaches(c, s0, s')
  {
    var ch, len := MoveConsumer(fd, size), s.slots[s.r].len;
    ConsumerNext(c, s0, s, ch, s.(consumer := ReadLen(fd, size)));
    ConsumerNext(c, s0, s.(consumer := ReadLen(fd, size)), ch, s.(consumer := CheckFd(fd, size, len)));
    ConsumerNext(c, s0, s.(consumer := CheckFd(fd, size, len)), ch, s.(consumer := Gets(fd, size, len)));
  }

  lemma MarksSlot(c: Config, s0: State, s: State, s': State)
    requires WellFormed(c, s0) && WellFormed(c, s) && Reaches(c, s0, s)
    requires s.consumer.LoadUsers? && s.slots[s.r].users == 1
    requires s' == s.(consumer := Idle, slots := s.slots[s.r := s.slots[s.r].(owner := Faio, users := 0)])
    ensures WellFormed(c, s') && Reaches(c, s0, s')
  {
    var ch, f := MoveConsumer(0, 0), s.slots[s.r];
    var s1 := s.(consumer := StoreUsers(0));
    var s2 := s.(consumer := SetFaio, slots := s.slots[s.r := f.(users := 0)]);
    ConsumerNext(c, s0, s, ch, s1);
    ConsumerNext(c, s0, s1, ch, s2);
    assert s2.slots[s.r := f.(owner := Faio, users := 0)] == s'.slots;
    ConsumerNext(c, s0, s2, ch, s');
  }

  lemma TakesSegment(c: Config, s0: State, s: State, fd: int, size: int)
    requires WellFormed(c, s0) && WellFormed(c, s) && Reaches(c, s0, s)
    requires s.consumer == PollReader(fd, size) && fd != -1
    requires var f := s.slots[s.r]; f.owner == Reader && f.users == 1 && f.fd == fd && f.len <= size
    ensures WellFormed(c, AfterGet(c, s)) && Reaches(c, s0, AfterGet(c, s))
  {
    var s1 := s.(consumer := LoadUsers, gets := s.gets + 1, got := s.got + [Content(s.slots[s.r])]);
    LooksAtSegment(c, s0, s, fd, size);
    ConsumerNext(c, s0, s.(consumer := Gets(fd, size, s.slots[s.r].len)), MoveConsumer(fd, size), s1);
    MarksSlot(c, s0, s1, AfterGet(c, s));
  }

  /** A call up to the point where it looks at the oldest slot. */
  function Called(c: Config, s: State, fd: int, size: int): State
    requires WellFormed(c, s)
  {
    var p, f := PollReader(fd, size), s.slots[s.r];
    if f.owner == Faio then
      s.(consumer := p, r := Inc(s.r, c.slots), freed := s.freed + 1, slots := s.slots[s.r := f.(owner := Writer)])
    else s.(consumer := p)
  }

  lemma Calls(c: Config, s0: State, s: State, fd: int, size: int)
    requires WellFormed(c, s0) && WellFormed(c, s) && Reaches(c, s0, s) && s.consumer.Idle? && fd != -1
    ensures WellFormed(c, Called(c, s, fd, size)) && Reaches(c, s0, Called(c, s, fd, size))
  {
    var ch := MoveConsumer(fd, size);
    var s1, s2 := s.(consumer := Enter(fd, size)), s.(consumer := Release(fd, size));
    ConsumerNext(c, s0, s, ch, s1);
    if s.slots[s.r].owner == Faio {
      ConsumerNext(c, s0, s1, ch, s2);
      ConsumerNext(c, s0, s2, ch, Called(c, s, fd, size));
    } else {
      ConsumerNext(c, s0, s1, ch, Called(c, s, fd, size));
    }
  }

  /** await_faio with three slots, none of them for standard input. */
  lemma Awaits(c: Config, s0: State, s: State)
    requires WellFormed(c, s0) && WellFormed(c, s) && Reaches(c, s0, s) && s.consumer.Await? && c.slots == 3
    requires s.slots[2].owner == Reader && forall i :: 0 <= i < 3 ==> s.slots[i].fd != STDIN
    ensures WellFormed(c, s.(consumer := Idle)) && Reaches(c, s0, s.(consumer := Idle))
  {
    var ch := MoveConsumer(0, 0);
    var s1, s2 := s.(consumer := Scan(0, -1)), s.(consumer := Scan(1, s.slots[0].fd));
    var s3, s4 := s.(consumer := Scan(2, s.slots[1].fd)), s.(consumer := Scan(3, s.slots[2].fd));
    ConsumerNext(c, s0, s, ch, s1);
    ConsumerNext(c, s0, s1, ch, s2);
    ConsumerNext(c, s0, s2, ch, s3);
    ConsumerNext(c, s0, s3, ch, s4);
    ConsumerNext(c, s0, s4, ch, s.(consumer := Idle));
  }

  // ------------------------------------------------------------------ an empty track

  /** Three slots of one byte, and two tracks: the first has size 0, the second is one byte. */
  const EMPTY_FIRST := Config(3, 1, [Track(5, 1, 1, 0), Track(6, 1, 1, 1)])

  /** Both tracks are read, the first with an empty segment; the filler has marked slot 2 and exited. */
  function BothRead(s0: State): State
    requires Init(EMPTY_FIRST, s0)
  {
    var s1 := AfterTrack(EMPTY_FIRST, s0, 0, 0);
    var s2 := AfterTrack(EMPTY_FIRST, s1, 1, 1);
    s2.(filler := Exited, done := 1, handed := true, slots := s2.slots[2 := s2.slots[2].(owner := Reader)])
  }

  lemma BothReadIsReached(s0: State)
    requires Init(EMPTY_FIRST, s0)
    ensures WellFormed(EMPTY_FIRST, BothRead(s0)) && Reaches(EMPTY_FIRST, s0, BothRead(s0))
  {
    var c, ch := EMPTY_FIRST, MoveFiller(0, 0, 0, 0);
    var s1 := AfterTrack(c, s0, 0, 0);
    var s2 := AfterTrack(c, s1, 1, 1);
    ReachesStart(c, s0);
    StoresTrack(c, s0, s0, 0, 0);
    StoresTrack(c, s0, s1, 1, 1);
    FillerNext(c, s0, s2, ch, s2.(filler := Done));
    FillerNext(c, s0, s2.(filler := Done), ch, s2.(filler := CheckGets, done := 1));
    FillerNext(c, s0, s2.(filler := CheckGets, done := 1), ch, s2.(filler := HandOver, done := 1));
    FillerNext(c, s0, s2.(filler := HandOver, done := 1), ch, BothRead(s0));
  }

  /** There is nothing to write for the first track, so the consumer asks for the second. */
  lemma MismatchIsReached(s0: State)
    requires Init(EMPTY_FIRST, s0)
    ensures exists run :: RealFiles(run) && Mismatched(EMPTY_FIRST, After(EMPTY_FIRST, s0, run), 6)
  {
    var c, s1 := EMPTY_FIRST, BothRead(s0);
    BothReadIsReached(s0);
    Awaits(c, s0, s1);
    Calls(c, s0, s1.(consumer := Idle), 6, 1);
    var s := Called(c, s1.(consumer := Idle), 6, 1);
    var run :| RealFiles(run) && After(c, s0, run) == s;
    RunKeepsInv(c, s0, run);
    assert Mismatched(c, s, 6);
  }

  // ------------------------------------------------------------------ a late mark

  /** Three slots of one byte, and three files of one byte. */
  const THREE_FILES := Config(3, 1, [Track(5, 1, 1, 1), Track(6, 1, 1, 1), Track(7, 1, 1, 1)])

  /** All three files are stored, and the filler has found that nothing was taken yet. */
  function AllStored(s0: State): State
    requires Init(THREE_FILES, s0)
  {
    var c := THREE_FILES;
    var s1 := AfterTrack(c, s0, 0, 1);
    var s2 := AfterTrack(c, s1, 1, 1);
    AfterTrack(c, s2, 2, 1).(filler := HandOver, done := 1)
  }

  lemma AllStoredIsReached(s0: State)
    requires Init(THREE_FILES, s0)
    ensures WellFormed(THREE_FILES, AllStored(s0)) && Reaches(THREE_FILES, s0, AllStored(s0))
  {
    var c, ch := THREE_FILES, MoveFiller(0, 0, 0, 0);
    var s1 := AfterTrack(c, s0, 0, 1);
    var s2 := AfterTrack(c, s1, 1, 1);
    var s3 := AfterTrack(c, s2, 2, 1);
    ReachesStart(c, s0);
    StoresTrack(c, s0, s0, 0, 1);
    StoresTrack(c, s0, s1, 1, 1);
    StoresTrack(c, s0, s2, 2, 1);
    FillerNext(c, s0, s3, ch, s3.(filler := Done));
    FillerNext(c, s0, s3.(filler := Done), ch, s3.(filler := CheckGets, done := 1));
    FillerNext(c, s0, s3.(filler := CheckGets, done := 1), ch, AllStored(s0));
  }

  /** Before the filler marks slot 2, the consumer takes all three segments. */
  lemma LateMarkIsReached(s0: State)
    requires Init(THREE_FILES, s0)
    ensures exists run :: RealFiles(run) && After(THREE_FILES, s0, run).filler.HandOver?
                       && StillHeld(THREE_FILES, After(THREE_FILES, s0, run))
  {
    var c, s := THREE_FILES, AllStored(s0);
    AllStoredIsReached(s0);
    Awaits(c, s0, s);
    Calls(c, s0, s.(consumer := Idle), 5, 1);
    var t1 := Called(c, s.(consumer := Idle), 5, 1);
    TakesSegment(c, s0, t1, 5, 1);
    Calls(c, s0, AfterGet(c, t1), 6, 1);
    var t2 := Called(c, AfterGet(c, t1), 6, 1);
    TakesSegment(c, s0, t2, 6, 1);
    Calls(c, s0, AfterGet(c, t2), 7, 1);
    var t3 := Called(c, AfterGet(c, t2), 7, 1);
    TakesSegment(c, s0, t3, 7, 1);
    assert StillHeld(c, AfterGet(c, t3));
  }

  lemma Continued(c: Config, s0: State, run: seq<Choice>, ch: Choice, s: State, more: seq<Choice>)
    requires WellFormed(c, s0) && RealFiles(run) && ch.MoveFiller? && RealFiles(more)
    requires s == Step(c, After(c, s0, run), ch) && WellFormed(c, s)
    ensures RealFiles(run + [ch] + more) && After(c, s0, run + [ch] + more) == After(c, s, more)
  {
    AfterMore(c, s0, run, ch);
    AfterConcat(c, s0, run + [ch], more);
  }

  lemma RepeatingRun(c: Config, s0: State, run: seq<Choice>, mark: Choice) returns (all: seq<Choice>)
    requires Init(c, s0) && RealFiles(run) && mark.MoveFiller?
    requires After(c, s0, run).filler.HandOver? && StillHeld(c, After(c, s0, run))
    ensures RealFiles(all) && |After(c, s0, all).got| > |After(c, s0, all).put|
  {
    RepeatsIffStillHeld(c, s0, run, mark);
    var s := Step(c, After(c, s0, run), mark);
    var more :| RealFiles(more) && |After(c, s, more).got| > |After(c, s, more).put|;
    Continued(c, s0, run, mark, s, more);
    all := run + [mark] + more;
  }

  /** So a run of three one-byte files hands out four segments, the last one twice. */
  lemma LastSegmentTwice(s0: State)
    requires Init(THREE_FILES, s0)
    ensures exists run :: RealFiles(run) &&
              var s := After(THREE_FILES, s0, run); |s.put| == 3 && s.got == s.put + [s.put[2]]
  {
    var c := THREE_FILES;
    LateMarkIsReached(s0);
    var run :| RealFiles(run) && After(c, s0, run).filler.HandOver? && StillHeld(c, After(c, s0, run));
    var all := RepeatingRun(c, s0, run, MoveFiller(0, 0, 0, 0));
    AtMostOneMore(c, s0, all);
  }
}
