/**
 The two-process FIFO of cdrecord (cdrecord/fifo.c).

 A background process (the filler) reads the tracks into N slots of shared memory, the
 writing process (the consumer) drains them. There is no lock: a slot carries an owner
 word, and each process keeps a private slot index. The model is a transition system
 whose atomic steps are single shared loads or stores, and a run is any sequence of
 choices of who moves next and what the environment supplies.
 */
module Fifo {
  import opened Bytes
  import opened Cyclic

  // ------------------------------------------------------------------ data

  datatype Owner = Writer | Faio | Reader

  /** struct faio. `errno` is saved_errno, `data` the bytes behind bufp. */
  datatype Slot = Slot(owner: Owner, users: int, fd: int, len: int, errno: int, data: seq<Byte>)

  /** The part of track_t the filler uses; tracksize is negative when it is unknown. */
  datatype Track = Track(fd: int, secsize: nat, secspt: nat, tracksize: int)

  datatype Config = Config(slots: nat, bufSize: nat, tracks: seq<Track>)

  /** What one call of faio_read_segment stored in its slot. */
  datatype Segment = Segment(fd: int, len: int, errno: int, data: seq<Byte>)

  /** Where the filler is inside faio_read_track and faio_read_segment. */
  datatype Stage = Poll | SetFd | Fill | SetLen | SetErrno | SetOwner | SetUsers | Puts | Next

  datatype FillerPc =
    | Start(t: nat)
    | At(stage: Stage, t: nat, bytesRead: int, l: int, left: nat)
    | Done | CheckGets | HandOver | Exited
    | Dead                                   // comerrno: a transfer is larger than a slot

  datatype ConsumerPc =
    | Await
    | Scan(n: nat, lastFd: int)
    | Idle                                   // between two calls, using the last segment
    | Enter(fd: int, size: int)
    | Release(fd: int, size: int)
    | PollReader(fd: int, size: int)
    | ReadLen(fd: int, size: int)
    | CheckFd(fd: int, size: int, len: int)
    | Gets(fd: int, size: int, len: int)
    | LoadUsers
    | StoreUsers(u: int)
    | SetFaio
    | Fatal                                  // comerrno: wrong file or short request
    | PrematureEof

  /**
   `slots`, `puts`, `gets` and `done` are shared; `w` is buf_idx_reader and `r` is
   buf_idx. The last five fields only record history: segments stored and the track of
   each, segments handed out, slots given back to the filler, and whether the exiting
   filler marked slot N-1.
   */
  datatype State = State(
    slots: seq<Slot>, puts: int, gets: int, done: int,
    filler: FillerPc, w: nat,
    consumer: ConsumerPc, r: nat,
    put: seq<Segment>, putTrack: seq<nat>, got: seq<Segment>, freed: nat, handed: bool)

  /** A scheduling choice: which process moves, and the values the environment supplies. */
  datatype Choice =
    | MoveFiller(n: nat, b: Byte, l: int, errno: int)
    | MoveConsumer(fd: int, size: int)

  const STDIN := 0

  /** With fewer slots init_faio does without a FIFO. */
  const MIN_BUFFERS := 3

  // ------------------------------------------------------------------ the filler

  function BytesPerTransfer(t: Track): nat { t.secsize * t.secspt }

  /** How much the next read of a track asks for (lines 567-574). */
  function BytesToRead(t: Track, bytesRead: int): int {
    var bytespt := BytesPerTransfer(t);
    if t.tracksize > 0 && t.tracksize - bytesRead <= bytespt then t.tracksize - bytesRead else bytespt
  }

  ghost predicate WellFormed(c: Config, s: State) {
    && c.slots >= MIN_BUFFERS && |s.slots| == c.slots && s.w < c.slots && s.r < c.slots
    && (forall i :: 0 <= i < c.slots ==> |s.slots[i].data| == c.bufSize)
    && (s.filler.At? ==> s.filler.t < |c.tracks|)
  }

  function Content(f: Slot): Segment { Segment(f.fd, f.len, f.errno, f.data) }

  function WithSlot(s: State, i: nat, f: Slot): State
    requires i < |s.slots|
  {
    s.(slots := s.slots[i := f])
  }

  function FillerStep(c: Config, s: State, ch: Choice): State
    requires WellFormed(c, s) && ch.MoveFiller?
  {
    match s.filler
    case Start(t) =>
      if t >= |c.tracks| then s.(filler := Done)
      else if BytesPerTransfer(c.tracks[t]) > c.bufSize then s.(filler := Dead)
      else s.(filler := At(Poll, t, 0, 0, 0))
    case At(stage, t, bytesRead, l, left) => SegmentStep(c, s, ch, stage, t, bytesRead, l, left)
    case Done => s.(done := s.done + 1, filler := CheckGets)
    case CheckGets => s.(filler := if s.gets == 0 then HandOver else Exited)
    case HandOver =>
      var i := c.slots - 1;
      WithSlot(s, i, s.slots[i].(owner := Reader)).(filler := Exited, handed := true)
    case Exited => s
    case Dead => s
  }

  function SegmentStep(c: Config, s: State, ch: Choice,
                       stage: Stage, t: nat, bytesRead: int, l: int, left: nat): State
    requires WellFormed(c, s) && ch.MoveFiller? && t < |c.tracks|
  {
    var f := s.slots[s.w];
    var tr := c.tracks[t];
    match stage
    case Poll => if f.owner == Writer then s.(filler := At(SetFd, t, bytesRead, 0, 0)) else s
    case SetFd => WithSlot(s, s.w, f.(fd := tr.fd)).(filler := At(Fill, t, bytesRead, 0, ch.n))
    case Fill =>
      // fill_buf stores any number of bytes in any order and returns at most what was asked
      if left > 0 then
        WithSlot(s, s.w, if ch.n < |f.data| then f.(data := f.data[ch.n := ch.b]) else f)
          .(filler := At(Fill, t, bytesRead, 0, left - 1))
      else
        var want := BytesToRead(tr, bytesRead);
        s.(filler := At(SetLen, t, bytesRead, if ch.l <= want then ch.l else want, 0))
    case SetLen => WithSlot(s, s.w, f.(len := l)).(filler := At(SetErrno, t, bytesRead, l, 0))
    case SetErrno => WithSlot(s, s.w, f.(errno := ch.errno)).(filler := At(SetOwner, t, bytesRead, l, 0))
    case SetOwner =>
      WithSlot(s, s.w, f.(owner := Reader))
        .(filler := At(SetUsers, t, bytesRead, l, 0),
          put := s.put + [Content(f)], putTrack := s.putTrack + [t])
    case SetUsers => WithSlot(s, s.w, f.(users := 1)).(filler := At(Puts, t, bytesRead, l, 0))
    case Puts => s.(puts := s.puts + 1, filler := At(Next, t, bytesRead, l, 0))
    case Next =>
      s.(w := Inc(s.w, c.slots),
         filler := if l <= 0 then Start(t + 1)
                   else if tr.tracksize < 0 || bytesRead + l < tr.tracksize
                   then At(Poll, t, bytesRead + l, 0, 0)
                   else Start(t + 1))
  }

  // ------------------------------------------------------------------ the consumer

  function ConsumerStep(c: Config, s: State, ch: Choice): State
    requires WellFormed(c, s) && ch.MoveConsumer?
  {
    var f := s.slots[s.r];
    match s.consumer
    case Await => if s.slots[c.slots - 1].owner == Reader then s.(consumer := Scan(0, -1)) else s
    case Scan(n, lastFd) =>
      if n >= c.slots then s.(consumer := Idle)
      else
        var g := s.slots[n];
        s.(consumer := if g.fd != lastFd && g.fd == STDIN && g.len == 0 then PrematureEof
                       else Scan(n + 1, g.fd))
    case Idle => s.(consumer := Enter(ch.fd, ch.size))
    case Enter(fd, size) =>
      s.(consumer := if f.owner == Faio then Release(fd, size) else PollReader(fd, size))
    case Release(fd, size) =>
      WithSlot(s, s.r, f.(owner := Writer))
        .(r := Inc(s.r, c.slots), freed := s.freed + 1, consumer := PollReader(fd, size))
    case PollReader(fd, size) => if f.owner == Reader then s.(consumer := ReadLen(fd, size)) else s
    case ReadLen(fd, size) => s.(consumer := CheckFd(fd, size, f.len))
    case CheckFd(fd, size, len) =>
      s.(consumer := if f.fd != fd then (if f.len == 0 then Enter(fd, size) else Fatal)
                     else if size < len then Fatal
                     else Gets(fd, size, len))
    case Gets(fd, size, len) =>
      s.(gets := s.gets + 1, consumer := LoadUsers,
         got := s.got + [Segment(fd, len, f.errno, f.data)])
    case LoadUsers => s.(consumer := StoreUsers(f.users - 1))
    case StoreUsers(u) =>
      WithSlot(s, s.r, f.(users := u)).(consumer := if u <= 0 then SetFaio else Idle)
    case SetFaio => WithSlot(s, s.r, f.(owner := Faio)).(consumer := Idle)
    case Fatal => s
    case PrematureEof => s
  }

  // ------------------------------------------------------------------ runs

  function Step(c: Config, s: State, ch: Choice): State
    requires WellFormed(c, s)
  {
    if ch.MoveFiller? then FillerStep(c, s, ch) else ConsumerStep(c, s, ch)
  }

  /** What init_faio leaves behind: every slot owned by the writer into the FIFO. */
  ghost predicate Init(c: Config, s: State) {
    && c.slots >= MIN_BUFFERS
    && |s.slots| == c.slots
    && (forall i :: 0 <= i < c.slots ==>
          s.slots[i].owner == Writer && s.slots[i].users == 0 && s.slots[i].fd == -1 &&
          |s.slots[i].data| == c.bufSize)
    && s.puts == s.gets == s.done == 0
    && s.filler == Start(0) && s.w == 0 && s.consumer == Await && s.r == 0
    && s.put == [] && s.putTrack == [] && s.got == [] && s.freed == 0 && !s.handed
  }

  lemma SegmentStepWellFormed(c: Config, s: State, ch: Choice,
                              stage: Stage, t: nat, bytesRead: int, l: int, left: nat)
    requires WellFormed(c, s) && ch.MoveFiller? && t < |c.tracks|
    ensures WellFormed(c, SegmentStep(c, s, ch, stage, t, bytesRead, l, left))
  {
  }

  lemma StepWellFormed(c: Config, s: State, ch: Choice)
    requires WellFormed(c, s)
    ensures WellFormed(c, Step(c, s, ch))
  {
    if ch.MoveFiller? && s.filler.At? {
      SegmentStepWellFormed(c, s, ch, s.filler.stage, s.filler.t, s.filler.bytesRead, s.filler.l, s.filler.left);
    }
  }

  /** The state after a run: `run` lists the choices, oldest first. */
  ghost function After(c: Config, s: State, run: seq<Choice>): (s': State)
    requires WellFormed(c, s)
    ensures WellFormed(c, s')
  {
    if run == [] then s
    else
      var p := After(c, s, run[..|run| - 1]);
      StepWellFormed(c, p, run[|run| - 1]);
      Step(c, p, run[|run| - 1])
  }

  lemma AfterMore(c: Config, s: State, run: seq<Choice>, ch: Choice)
    requires WellFormed(c, s)
    ensures After(c, s, run + [ch]) == Step(c, After(c, s, run), ch)
  {
    assert (run + [ch])[..|run|] == run;
  }

  /** The same, with names for the two states. */
  lemma Then(c: Config, s: State, run: seq<Choice>, s1: State, ch: Choice, s2: State)
    requires WellFormed(c, s) && After(c, s, run) == s1 && Step(c, s1, ch) == s2
    ensures After(c, s, run + [ch]) == s2
  {
    AfterMore(c, s, run, ch);
  }

  lemma {:induction false} AfterConcat(c: Config, s: State, a: seq<Choice>, b: seq<Choice>)
    requires WellFormed(c, s)
    ensures After(c, s, a + b) == After(c, After(c, s, a), b)
  {
    if b == [] {
      assert a + b == a;
    } else {
      var b', ch := b[..|b| - 1], b[|b| - 1];
      assert b == b' + [ch] && a + b == (a + b') + [ch];
      AfterConcat(c, s, a, b');
      AfterMore(c, s, a + b', ch);
      AfterMore(c, After(c, s, a), b', ch);
    }
  }
}
