/**
 Splitting the sample stream among track files (do_write of cdda2wav/cdda2wav.c, bulk mode): what
 the loop does to its counters and to the samples, whether or not its counters agree.
 */
module TrackSplit {
  import opened Bytes
  import opened Decimation
  import opened Converter

  const SECTOR := 588

  /** A saved sample, and the track whose file was open; None after a file was closed and none opened. */
  datatype Saved = Saved(sample: Stereo, file: Option<nat>)

  /** What SaveBuffer makes of samples, given all input before them. */
  type Saving = (seq<Stereo>, seq<Stereo>) -> Effect

  /** As the sample converter does it. */
  function SavingOf(d: Divisor, f: Format): Saving { (h: seq<Stereo>, ss: seq<Stereo>) => EffectOf(d, f, h, ss) }

  /** The settings: first sectors of the tracks, the lead-out last; where to begin, and how many samples to do. */
  datatype Session = Session(starts: seq<nat>, begin: nat, toDo: nat, d: Divisor, effect: Saving)

  /**
   nSamplesDone, current_track, SamplesToWrite (an unsigned long may wrap around), the open file,
   and all samples saved; `stopped` after a write to a closed file, which ends the program.
   */
  datatype Book = Book(done: nat, track: nat, toWrite: int, file: Option<nat>, log: seq<Saved>, stopped: bool)

  /** int_part is twice the divisor. */
  function IntPart(d: Divisor): (i: nat)
    ensures i > 0
  {
    2 * d.u + if d.halved then 1 else 0
  }

  /** SamplesToWrite as it is set up: in output samples. */
  function SamplesToWrite(c: Session): nat { c.toDo * 2 / IntPart(c.d) }

  /** The wanted samples divided by u, or by u + 1/2, rounded down. */
  lemma SamplesToWriteIs(c: Session)
    ensures var w, u := SamplesToWrite(c), c.d.u;
            if c.d.halved then (2 * u + 1) * w <= 2 * c.toDo < (2 * u + 1) * w + (2 * u + 1)
            else u * w <= c.toDo < u * w + u
  {
    var w, m := SamplesToWrite(c), IntPart(c.d);
    assert c.toDo * 2 == m * w + (c.toDo * 2) % m;
    if !c.d.halved {
      assert m * w == 2 * (c.d.u * w);
    }
  }

  function Begin(c: Session, track: nat): Book { Book(0, track, SamplesToWrite(c), Some(track), [], false) }

  function Inputs(log: seq<Saved>): (r: seq<Stereo>)
    ensures |r| == |log|
  {
    seq(|log|, i requires 0 <= i < |log| => log[i].sample)
  }

  function Marked(samples: seq<Stereo>, file: Option<nat>): (r: seq<Saved>)
    ensures |r| == |samples|
  {
    seq(|samples|, i requires 0 <= i < |samples| => Saved(samples[i], file))
  }

  // ------------------------------------------------------------------ the loop

  /** Get_StartSector: -1 behind the lead-out. */
  function StartSector(c: Session, t: nat): int { if t < |c.starts| then c.starts[t] else -1 }

  function LeftInTrack(c: Session, track: nat, done: nat): int {
    StartSector(c, track + 1) * SECTOR - (c.begin + done)
  }

  /** The smaller of the two as unsigned numbers: a negative one is larger than any buffer. */
  function HowMuch(left: int, n: nat): (k: nat)
    ensures k <= n
  {
    if 0 <= left < n then left else n
  }

  /** The next file is opened unless SamplesToWrite is 0. */
  function NextFile(b: Book): Book {
    b.(track := b.track + 1, file := if b.toWrite != 0 then Some(b.track + 1) else None)
  }

  function Chunk(c: Session, b: Book, ss: seq<Stereo>): seq<Stereo> {
    ss[..HowMuch(LeftInTrack(c, b.track, b.done), |ss|)]
  }

  function ChunkEffect(c: Session, b: Book, ss: seq<Stereo>): Effect {
    if Chunk(c, b, ss) == [] then Holds else c.effect(Inputs(b.log), Chunk(c, b, ss))
  }

  /** SaveBuffer counts the samples it is given. */
  predicate ChunkCounts(c: Session, b: Book, ss: seq<Stereo>) {
    Chunk(c, b, ss) == [] || ChunkEffect(c, b, ss) != Holds
  }

  /** Bytes come out, and there is no file for them. */
  predicate Fails(c: Session, b: Book, ss: seq<Stereo>) { b.file == None && ChunkEffect(c, b, ss) == Gives }

  /** The samples of a round are saved; SaveBuffer may or may not count them, SamplesToWrite does. */
  function Kept(c: Session, b: Book, ss: seq<Stereo>): Book {
    var chunk := Chunk(c, b, ss);
    b.(done := if ChunkCounts(c, b, ss) then b.done + |chunk| else b.done,
       toWrite := b.toWrite - |chunk|, log := b.log + Marked(chunk, b.file))
  }

  /** One round, with the samples `ss` in the buffer. */
  function Round(c: Session, b: Book, ss: seq<Stereo>): Book {
    if Fails(c, b, ss) then b.(stopped := true)
    else if 0 <= LeftInTrack(c, b.track, b.done) <= |ss| then NextFile(Kept(c, b, ss)) else Kept(c, b, ss)
  }

  function TracksLeft(c: Session, b: Book): nat { if b.track < |c.starts| then |c.starts| - b.track else 0 }

  /** The rounds that use up the samples `ss`. */
  function Rounds(c: Session, b: Book, ss: seq<Stereo>): Book
    decreases |ss|, TracksLeft(c, b)
  {
    if b.stopped || b.done >= c.toDo || ss == [] then b
    else Rounds(c, Round(c, b, ss), ss[|Chunk(c, b, ss)|..])
  }

  lemma RoundsStep(c: Session, b: Book, ss: seq<Stereo>, rest: seq<Stereo>)
    requires !b.stopped && b.done < c.toDo && ss != [] && rest == ss[|Chunk(c, b, ss)|..]
    ensures Rounds(c, b, ss) == Rounds(c, Round(c, b, ss), rest)
    ensures |rest| < |ss| || (|rest| == |ss| && TracksLeft(c, Round(c, b, ss)) < TracksLeft(c, b))
  {
  }

  lemma RoundsEnd(c: Session, b: Book, ss: seq<Stereo>)
    requires b.stopped || b.done >= c.toDo || ss == []
    ensures Rounds(c, b, ss) == b
  {
  }

  /** In each of them SaveBuffer counts the samples it was given. */
  predicate AllCount(c: Session, b: Book, ss: seq<Stereo>)
    decreases |ss|, TracksLeft(c, b)
  {
    b.stopped || b.done >= c.toDo || ss == [] ||
    (ChunkCounts(c, b, ss) && AllCount(c, Round(c, b, ss), ss[|Chunk(c, b, ss)|..]))
  }

  /** do_write takes as many samples as are still wanted. */
  function Wanted(c: Session, b: Book, buffer: seq<Stereo>): (ss: seq<Stereo>) {
    if b.done <= c.toDo && c.toDo - b.done < |buffer| then buffer[..c.toDo - b.done] else buffer
  }

  /** All calls of do_write so far. */
  function Writes(c: Session, track: nat, buffers: seq<seq<Stereo>>): Book {
    if buffers == [] then Begin(c, track)
    else
      var last := |buffers| - 1;
      var b := Writes(c, track, buffers[..last]);
      Rounds(c, b, Wanted(c, b, buffers[last]))
  }

  // ------------------------------------------------------------------ every sample is saved once

  lemma InputsMore(log: seq<Saved>, chunk: seq<Stereo>, file: Option<nat>)
    ensures Inputs(log + Marked(chunk, file)) == Inputs(log) + chunk
  {
  }

  lemma RoundSaves(c: Session, b: Book, ss: seq<Stereo>)
    requires !Fails(c, b, ss)
    ensures var b', chunk := Round(c, b, ss), Chunk(c, b, ss);
            && b'.log == b.log + Marked(chunk, b.file) && Inputs(b'.log) == Inputs(b.log) + chunk
            && b'.toWrite == b.toWrite - |chunk| && b.done <= b'.done <= b.done + |chunk| && b'.stopped == b.stopped
  {
    InputsMore(b.log, Chunk(c, b, ss), b.file);
  }

  /** The book after a call goes on from that before: `k` more samples, all of them unless the program ended. */
  ghost predicate GoesOn(b: Book, ss: seq<Stereo>, b': Book, k: nat) {
    && k <= |ss| && |b'.log| == |b.log| + k && b'.log[..|b.log|] == b.log
    && Inputs(b'.log) == Inputs(b.log) + ss[..k]
    && b'.toWrite == b.toWrite - k && (k < |ss| ==> b'.stopped)
  }

  lemma GoesOnStep(b: Book, b1: Book, b2: Book, chunk: seq<Stereo>, rest: seq<Stereo>, ss: seq<Stereo>, k: nat)
    requires ss == chunk + rest && GoesOn(b1, rest, b2, k)
    requires b1.log == b.log + Marked(chunk, b.file) && b1.toWrite == b.toWrite - |chunk|
    ensures GoesOn(b, ss, b2, |chunk| + k)
  {
    InputsMore(b.log, chunk, b.file);
    assert ss[..|chunk| + k] == chunk + rest[..k];
    assert b2.log[..|b.log|] == b2.log[..|b1.log|][..|b.log|];
    assert Inputs(b2.log) == Inputs(b.log) + (chunk + rest[..k]);
  }

  /**
   Whatever the counters say: the samples wanted are saved once each, in order, and
   SamplesToWrite counts all of them, until the program ends.
   */
  lemma {:induction false} SavedOnce(c: Session, b: Book, ss: seq<Stereo>) returns (k: nat)
    requires b.done + |ss| <= c.toDo
    ensures GoesOn(b, ss, Rounds(c, b, ss), k) && Rounds(c, b, ss).done <= c.toDo
    decreases |ss|, TracksLeft(c, b)
  {
    if b.stopped || ss == [] || Fails(c, b, ss) {
      k := 0;
      assert Inputs(b.log) + ss[..0] == Inputs(b.log) && b.log[..|b.log|] == b.log;
    } else {
      var chunk := Chunk(c, b, ss);
      RoundSaves(c, b, ss);
      k := SavedOnce(c, Round(c, b, ss), ss[|chunk|..]);
      GoesOnStep(b, Round(c, b, ss), Rounds(c, b, ss), chunk, ss[|chunk|..], ss, k);
      k := |chunk| + k;
    }
  }

  // ------------------------------------------------------------------ what is saved and not counted

  /** How far nSamplesDone is behind. */
  function Lag(b: Book): int { |b.log| - b.done }

  lemma RoundLag(c: Session, b: Book, ss: seq<Stereo>)
    ensures Lag(Round(c, b, ss)) == Lag(b) + if ChunkCounts(c, b, ss) then 0 else |Chunk(c, b, ss)|
  {
  }

  /** The lag never shrinks, and it stays the same if and only if every round counts. */
  lemma {:induction false} LagIff(c: Session, b: Book, ss: seq<Stereo>)
    ensures Lag(Rounds(c, b, ss)) >= Lag(b)
    ensures Lag(Rounds(c, b, ss)) == Lag(b) <==> AllCount(c, b, ss)
    decreases |ss|, TracksLeft(c, b)
  {
    if !b.stopped && b.done < c.toDo && ss != [] {
      RoundLag(c, b, ss);
      LagIff(c, Round(c, b, ss), ss[|Chunk(c, b, ss)|..]);
    }
  }

  /** Every cut comes late by the lag: it is at the start of the next track exactly if there is none. */
  lemma CutIsLate(c: Session, b: Book, ss: seq<Stereo>)
    requires 0 <= LeftInTrack(c, b.track, b.done) <= |ss| && !Fails(c, b, ss)
    ensures c.begin + |Round(c, b, ss).log| == SECTOR * StartSector(c, b.track + 1) + Lag(b)
  {
  }

  /** Without a wait, an integral divisor u gives bytes for n samples after a others iff they end a window. */
  lemma GivesIffWindow(d: Divisor, f: Format, h: seq<Stereo>, ss: seq<Stereo>)
    requires !d.halved && !f.wait
    ensures EffectOf(d, f, h, ss) == if |h| % d.u + |ss| >= d.u then Gives else Holds
  {
    var u, a, n := d.u, |h|, |ss|;
    assert a == (a / u) * u + a % u;
    if a % u + n < u {
      DivModUnique(a + n, u, a / u, a % u + n);
    } else {
      var q, r := (a + n) / u, (a + n) % u;
      assert a + n == q * u + r;
      if q <= a / u {
        QuotientBelow(u, q, a / u);
      }
    }
  }

  lemma QuotientBelow(u: nat, q: nat, p: nat)
    requires q <= p
    ensures q * u <= p * u
  {
  }

  // ------------------------------------------------------------------ the right files

  /** Position `pos` lies in track `t`, where `starts[t]` is the first sector of track `t`. */
  predicate InTrack(starts: seq<nat>, t: nat, pos: nat) {
    t + 1 < |starts| && SECTOR * starts[t] <= pos < SECTOR * starts[t + 1]
  }

  predicate Increasing(starts: seq<nat>) { forall i, j | 0 <= i < j < |starts| :: starts[i] < starts[j] }

  /** A position lies in one track only. */
  lemma InOneTrack(starts: seq<nat>, t: nat, u: nat, pos: nat)
    requires Increasing(starts) && InTrack(starts, t, pos) && InTrack(starts, u, pos)
    ensures t == u
  {
  }

  /** The session begins at a sector and lies on the disc. */
  ghost predicate OnDisc(c: Session) {
    && Increasing(c.starts) && |c.starts| > 0
    && c.begin % SECTOR == 0 && c.begin + c.toDo <= SECTOR * c.starts[|c.starts| - 1]
  }

  /**
   The file for the samples of track `t`. At a track end the next file is opened only if
   SamplesToWrite has not come down to zero.
   */
  function Target(c: Session, t: nat): Option<nat>
    requires t < |c.starts|
  {
    if SECTOR * c.starts[t] > c.begin && SECTOR * c.starts[t] - c.begin == SamplesToWrite(c) then None else Some(t)
  }

  /** Two tracks do not share a file. */
  lemma TargetsDiffer(c: Session, t: nat, u: nat)
    requires Increasing(c.starts) && t < u < |c.starts|
    ensures Target(c, t) != Target(c, u)
  {
  }

  ghost predicate RightFile(c: Session, file: Option<nat>, pos: nat) {
    exists t: nat :: InTrack(c.starts, t, pos) && file == Target(c, t)
  }

  /** Every sample in order, in the file of the track that contains its position. */
  ghost predicate Routed(c: Session, log: seq<Saved>) {
    forall i | 0 <= i < |log| :: RightFile(c, log[i].file, c.begin + i)
  }

  lemma RoutedMore(c: Session, log: seq<Saved>, t: nat, more: seq<Stereo>)
    requires Routed(c, log) && InTrack(c.starts, t, c.begin + |log|)
    requires c.begin + |log| + |more| <= SECTOR * c.starts[t + 1]
    ensures Routed(c, log + Marked(more, Target(c, t)))
  {
    var all := log + Marked(more, Target(c, t));
    forall i | 0 <= i < |all|
      ensures RightFile(c, all[i].file, c.begin + i)
    {
      if i < |log| {
        assert all[i] == log[i];
      } else {
        assert InTrack(c.starts, t, c.begin + i) && all[i].file == Target(c, t);
      }
    }
  }

  lemma RoutedPrefix(c: Session, log: seq<Saved>, n: nat)
    requires Routed(c, log) && n <= |log|
    ensures Routed(c, log[..n])
  {
    forall i | 0 <= i < n
      ensures RightFile(c, log[..n][i].file, c.begin + i)
    {
      assert log[..n][i] == log[i];
    }
  }

  /** The end of the track whose samples go to the open file. */
  function TrackEnd(c: Session, b: Book): int { SECTOR * StartSector(c, b.track + 1) }

  /**
   Everything saved went where it belongs, and the open file is that of the position reached, or of
   the track just passed.
   */
  ghost predicate OnTrack(c: Session, b: Book) {
    && Routed(c, b.log) && Lag(b) >= 0 && b.toWrite == SamplesToWrite(c) - |b.log|
    && (b.done < c.toDo ==>
          && b.track < |c.starts| && SECTOR * c.starts[b.track] <= c.begin + |b.log|
          && (b.track + 1 < |c.starts| ==> c.begin + |b.log| <= TrackEnd(c, b))
          && (Lag(b) == 0 ==> c.begin + |b.log| < TrackEnd(c, b))
          && b.file == Target(c, b.track))
  }

  /** With agreeing counters a round stays within its track and cuts at its end. */
  lemma RoundInStep(c: Session, b: Book, ss: seq<Stereo>)
    requires OnDisc(c) && OnTrack(c, b) && Lag(b) == 0 && 0 < |ss| <= c.toDo - b.done && !Fails(c, b, ss)
    ensures OnTrack(c, Round(c, b, ss))
  {
    var chunk := Chunk(c, b, ss);
    RoutedMore(c, b.log, b.track, chunk);
    RoundLag(c, b, ss);
    if LeftInTrack(c, b.track, b.done) <= |ss| {
      NextOnTrack(c, Kept(c, b, ss));
    }
  }

  /** At the start of the next track. */
  lemma NextOnTrack(c: Session, b: Book)
    requires OnDisc(c) && Routed(c, b.log) && |b.log| > 0 && Lag(b) >= 0 && b.toWrite == SamplesToWrite(c) - |b.log|
    requires b.track + 1 < |c.starts| && c.begin + |b.log| == TrackEnd(c, b)
    ensures OnTrack(c, NextFile(b))
  {
    if b.done < c.toDo && Lag(b) == 0 {
      assert b.track + 2 < |c.starts|;
    }
  }

  /** With a lag, samples that do not pass the track end are not cut. */
  lemma RoundWithin(c: Session, b: Book, ss: seq<Stereo>)
    requires OnDisc(c) && OnTrack(c, b) && Lag(b) > 0 && 0 < |ss| <= c.toDo - b.done && !Fails(c, b, ss)
    requires c.begin + |b.log| + |ss| <= TrackEnd(c, b)
    ensures OnTrack(c, Round(c, b, ss))
  {
    RoutedMore(c, b.log, b.track, Chunk(c, b, ss));
    RoundLag(c, b, ss);
  }

  /** Behind its end a track's file is the wrong one. */
  lemma WrongFile(c: Session, track: nat, pos: nat)
    requires Increasing(c.starts) && track < |c.starts|
    requires pos >= SECTOR * c.starts[if track + 1 < |c.starts| then track + 1 else track]
    ensures !RightFile(c, Target(c, track), pos)
  {
    forall t: nat | InTrack(c.starts, t, pos)
      ensures Target(c, track) != Target(c, t)
    {
      if track < t {
        TargetsDiffer(c, track, t);
      }
    }
  }

  /** With a lag, the sample at the track end goes to the file of the track before. */
  lemma RoundMisroutes(c: Session, b: Book, ss: seq<Stereo>)
    requires OnDisc(c) && OnTrack(c, b) && Lag(b) > 0 && 0 < |ss| <= c.toDo - b.done && !Fails(c, b, ss)
    requires c.begin + |b.log| + |ss| > TrackEnd(c, b)
    ensures !Routed(c, Round(c, b, ss).log)
  {
    var log, chunk := Round(c, b, ss).log, Chunk(c, b, ss);
    var i := if b.track + 1 < |c.starts| then TrackEnd(c, b) - c.begin else |b.log|;
    assert |b.log| <= i < |log| && log[i] == Marked(chunk, b.file)[i - |b.log|];
    WrongFile(c, b.track, c.begin + i);
  }

  /** In every round the counters agree, or the samples in the buffer do not pass the end of the track. */
  predicate Stays(c: Session, b: Book, ss: seq<Stereo>)
    decreases |ss|, TracksLeft(c, b)
  {
    b.stopped || b.done >= c.toDo || ss == [] || Fails(c, b, ss) ||
    ((Lag(b) == 0 || c.begin + |b.log| + |ss| <= TrackEnd(c, b)) &&
     Stays(c, Round(c, b, ss), ss[|Chunk(c, b, ss)|..]))
  }

  /** A call of do_write puts every sample into the file of its track if and only if it stays so. */
  lemma {:induction false} RoutedIff(c: Session, b: Book, ss: seq<Stereo>)
    requires OnDisc(c) && OnTrack(c, b) && b.done + |ss| <= c.toDo
    ensures Routed(c, Rounds(c, b, ss).log) <==> Stays(c, b, ss)
    ensures Stays(c, b, ss) ==> OnTrack(c, Rounds(c, b, ss))
    decreases |ss|, TracksLeft(c, b)
  {
    if !b.stopped && b.done < c.toDo && ss != [] && !Fails(c, b, ss) {
      var b1, rest := Round(c, b, ss), ss[|Chunk(c, b, ss)|..];
      RoundSaves(c, b, ss);
      if Lag(b) == 0 {
        RoundInStep(c, b, ss);
        RoutedIff(c, b1, rest);
      } else if c.begin + |b.log| + |ss| <= TrackEnd(c, b) {
        RoundWithin(c, b, ss);
        RoutedIff(c, b1, rest);
      } else {
        RoundMisroutes(c, b, ss);
        StaysMisrouted(c, b1, rest);
      }
    }
  }

  lemma StaysMisrouted(c: Session, b: Book, ss: seq<Stereo>)
    requires b.done + |ss| <= c.toDo && !Routed(c, b.log)
    ensures !Routed(c, Rounds(c, b, ss).log)
  {
    var b' := Rounds(c, b, ss);
    var k := SavedOnce(c, b, ss);
    if Routed(c, b'.log) {
      RoutedPrefix(c, b'.log, |b.log|);
    }
  }

  /** If every round counts, the counters agree all the time. */
  lemma {:induction false} CountedStays(c: Session, b: Book, ss: seq<Stereo>)
    requires Lag(b) == 0 && AllCount(c, b, ss)
    ensures Stays(c, b, ss)
    decreases |ss|, TracksLeft(c, b)
  {
    if !b.stopped && b.done < c.toDo && ss != [] {
      RoundLag(c, b, ss);
      CountedStays(c, Round(c, b, ss), ss[|Chunk(c, b, ss)|..]);
    }
  }

  // ------------------------------------------------------------------ whole sessions

  /** Every round of every call counts. */
  predicate SessionCounts(c: Session, track: nat, buffers: seq<seq<Stereo>>) {
    buffers == [] ||
    (var last := |buffers| - 1;
     var b := Writes(c, track, buffers[..last]);
     SessionCounts(c, track, buffers[..last]) && AllCount(c, b, Wanted(c, b, buffers[last])))
  }

  /** No round of any call passes a track end while nSamplesDone is behind. */
  predicate SessionStays(c: Session, track: nat, buffers: seq<seq<Stereo>>) {
    buffers == [] ||
    (var last := |buffers| - 1;
     var b := Writes(c, track, buffers[..last]);
     SessionStays(c, track, buffers[..last]) && Stays(c, b, Wanted(c, b, buffers[last])))
  }

  lemma {:induction false} DoneIsBounded(c: Session, track: nat, buffers: seq<seq<Stereo>>)
    ensures Writes(c, track, buffers).done <= c.toDo
  {
    if buffers != [] {
      var last := |buffers| - 1;
      var b := Writes(c, track, buffers[..last]);
      DoneIsBounded(c, track, buffers[..last]);
      var _ := SavedOnce(c, b, Wanted(c, b, buffers[last]));
    }
  }

  /** nSamplesDone keeps up with the samples saved if and only if every round counts. */
  lemma {:induction false} SessionLag(c: Session, track: nat, buffers: seq<seq<Stereo>>)
    ensures Lag(Writes(c, track, buffers)) >= 0
    ensures Lag(Writes(c, track, buffers)) == 0 <==> SessionCounts(c, track, buffers)
  {
    if buffers != [] {
      var last := |buffers| - 1;
      var b := Writes(c, track, buffers[..last]);
      SessionLag(c, track, buffers[..last]);
      LagIff(c, b, Wanted(c, b, buffers[last]));
    }
  }

  /**
   In bulk mode, for any cutting into buffers: every sample saved is in the file of its track if
   and only if no track end is passed while nSamplesDone is behind.
   */
  lemma {:induction false} SessionRoutedIff(c: Session, track: nat, buffers: seq<seq<Stereo>>)
    requires OnDisc(c) && InTrack(c.starts, track, c.begin)
    ensures Routed(c, Writes(c, track, buffers).log) <==> SessionStays(c, track, buffers)
    ensures SessionStays(c, track, buffers) ==> OnTrack(c, Writes(c, track, buffers))
  {
    if buffers != [] {
      var last := |buffers| - 1;
      var b := Writes(c, track, buffers[..last]);
      SessionRoutedIff(c, track, buffers[..last]);
      DoneIsBounded(c, track, buffers[..last]);
      if SessionStays(c, track, buffers[..last]) {
        RoutedIff(c, b, Wanted(c, b, buffers[last]));
      } else {
        StaysMisrouted(c, b, Wanted(c, b, buffers[last]));
      }
    }
  }

  lemma {:induction false} SessionCountedStays(c: Session, track: nat, buffers: seq<seq<Stereo>>)
    requires SessionCounts(c, track, buffers)
    ensures SessionStays(c, track, buffers)
  {
    if buffers != [] {
      var last := |buffers| - 1;
      var b := Writes(c, track, buffers[..last]);
      SessionCountedStays(c, track, buffers[..last]);
      SessionLag(c, track, buffers[..last]);
      CountedStays(c, b, Wanted(c, b, buffers[last]));
    }
  }

  /**
   When the reader has delivered all samples wanted, the writer is through if and only if every
   round counted. Otherwise it goes on waiting for samples.
   */
  lemma WriterEndsIff(c: Session, track: nat, buffers: seq<seq<Stereo>>)
    requires |Writes(c, track, buffers).log| == c.toDo
    ensures Writes(c, track, buffers).done == c.toDo <==> SessionCounts(c, track, buffers)
  {
    SessionLag(c, track, buffers);
  }

  // ------------------------------------------------------------------ tracks without a file

  /**
   Where samples are routed, a track has no file if and only if it starts exactly SamplesToWrite
   samples after the beginning.
   */
  lemma TrackWithoutFile(c: Session, log: seq<Saved>, i: nat, t: nat)
    requires OnDisc(c) && Routed(c, log) && i < |log| && InTrack(c.starts, t, c.begin + i)
    ensures log[i].file == None <==>
              SECTOR * c.starts[t] > c.begin && SECTOR * c.starts[t] - c.begin == SamplesToWrite(c)
    ensures log[i].file != None ==> log[i].file == Some(t)
  {
    assert RightFile(c, log[i].file, c.begin + i);
    var u: nat :| InTrack(c.starts, u, c.begin + i) && log[i].file == Target(c, u);
    InOneTrack(c.starts, t, u, c.begin + i);
  }

  /** And the program ends with the first bytes for such a track, and only then. */
  lemma StopsIff(c: Session, b: Book, ss: seq<Stereo>)
    requires OnTrack(c, b) && !b.stopped && b.done < c.toDo
    ensures Round(c, b, ss).stopped <==>
              && SECTOR * c.starts[b.track] > c.begin && SECTOR * c.starts[b.track] - c.begin == SamplesToWrite(c)
              && ChunkEffect(c, b, ss) == Gives
  {
  }

  // ------------------------------------------------------------------ the full rate

  ghost predicate FullRate(c: Session, f: Format) {
    OnDisc(c) && c.d.u == 1 && !c.d.halved && c.effect == SavingOf(c.d, f)
  }

  lemma {:induction false} FullRateAllCount(c: Session, f: Format, b: Book, ss: seq<Stereo>)
    requires FullRate(c, f)
    ensures AllCount(c, b, ss)
    decreases |ss|, TracksLeft(c, b)
  {
    if !b.stopped && b.done < c.toDo && ss != [] {
      if Chunk(c, b, ss) != [] {
        FullRateCounts(c.d, f, Inputs(b.log), Chunk(c, b, ss));
      }
      FullRateAllCount(c, f, Round(c, b, ss), ss[|Chunk(c, b, ss)|..]);
    }
  }

  lemma {:induction false} FullRateSessionCounts(c: Session, f: Format, track: nat, buffers: seq<seq<Stereo>>)
    requires FullRate(c, f)
    ensures SessionCounts(c, track, buffers)
  {
    if buffers != [] {
      var last := |buffers| - 1;
      var b := Writes(c, track, buffers[..last]);
      FullRateSessionCounts(c, f, track, buffers[..last]);
      FullRateAllCount(c, f, b, Wanted(c, b, buffers[last]));
    }
  }

  /** At the full rate every track reached before the end has a file. */
  lemma FullRateTarget(c: Session, f: Format, t: nat, pos: nat)
    requires FullRate(c, f) && t < |c.starts| && SECTOR * c.starts[t] <= pos < c.begin + c.toDo
    ensures Target(c, t) == Some(t)
  {
    assert SamplesToWrite(c) == c.toDo;
  }

  lemma {:induction false} FullRateRuns(c: Session, f: Format, b: Book, ss: seq<Stereo>)
    requires FullRate(c, f) && OnTrack(c, b) && Lag(b) == 0 && !b.stopped && b.done + |ss| <= c.toDo
    ensures !Rounds(c, b, ss).stopped
    decreases |ss|, TracksLeft(c, b)
  {
    if b.done < c.toDo && ss != [] {
      FullRateTarget(c, f, b.track, c.begin + |b.log|);
      FullRateAllCount(c, f, b, ss);
      RoundInStep(c, b, ss);
      RoundLag(c, b, ss);
      RoundSaves(c, b, ss);
      FullRateRuns(c, f, Round(c, b, ss), ss[|Chunk(c, b, ss)|..]);
    }
  }

  /**
   At the full rate no session ends early, the counters agree, and every sample is in the file of the
   one track that contains it.
   */
  lemma {:induction false} FullRateSession(c: Session, f: Format, track: nat, buffers: seq<seq<Stereo>>)
    requires FullRate(c, f) && InTrack(c.starts, track, c.begin)
    ensures var b := Writes(c, track, buffers); !b.stopped && b.done == |b.log| && OnTrack(c, b)
  {
    FullRateSessionCounts(c, f, track, buffers);
    SessionCountedStays(c, track, buffers);
    SessionRoutedIff(c, track, buffers);
    SessionLag(c, track, buffers);
    if buffers != [] {
      var last := |buffers| - 1;
      var b := Writes(c, track, buffers[..last]);
      FullRateSession(c, f, track, buffers[..last]);
      DoneIsBounded(c, track, buffers[..last]);
      FullRateRuns(c, f, b, Wanted(c, b, buffers[last]));
    }
  }

  lemma FullRateRouting(c: Session, f: Format, track: nat, buffers: seq<seq<Stereo>>, i: nat, t: nat)
    requires FullRate(c, f) && InTrack(c.starts, track, c.begin)
    requires i < |Writes(c, track, buffers).log| && InTrack(c.starts, t, c.begin + i)
    ensures Writes(c, track, buffers).log[i].file == Some(t)
  {
    FullRateSession(c, f, track, buffers);
    DoneIsBounded(c, track, buffers);
    FullRateTarget(c, f, t, c.begin + i);
    TrackWithoutFile(c, Writes(c, track, buffers).log, i, t);
  }

  // ------------------------------------------------------------------ where it goes wrong

  /** Three tracks at half the rate. */
  function HalfRate(f: Format): Session {
    var d := Rate(2, false);
    Session([0, 3, 5, 7], 0, 4116, d, SavingOf(d, f))
  }

  /** A round of n samples that are no more than what is left in the track: the counters after it. */
  lemma HalfRateRound(c: Session, f: Format, b: Book, ss: seq<Stereo>, n: nat)
    requires c == HalfRate(f) && !f.wait && !b.stopped && b.file.Some? && ss != []
    requires n == HowMuch(LeftInTrack(c, b.track, b.done), |ss|) && n > 0
    ensures var b' := Round(c, b, ss);
            && b'.log == b.log + Marked(ss[..n], b.file) && !b'.stopped && b'.toWrite == b.toWrite - n
            && b'.done == (if |b.log| % 2 + n >= 2 then b.done + n else b.done)
            && if 0 <= LeftInTrack(c, b.track, b.done) <= |ss|
               then b'.track == b.track + 1 && b'.file == (if b'.toWrite != 0 then Some(b'.track) else None)
               else b'.track == b.track && b'.file == b.file
  {
    GivesIffWindow(c.d, f, Inputs(b.log), Chunk(c, b, ss));
  }

  /** A call that is a single round. */
  lemma HalfRateCall(c: Session, f: Format, b: Book, ss: seq<Stereo>)
    requires c == HalfRate(f) && !f.wait && !b.stopped && b.file.Some? && ss != [] && b.done < c.toDo
    requires HowMuch(LeftInTrack(c, b.track, b.done), |ss|) == |ss|
    ensures Rounds(c, b, ss) == Round(c, b, ss) && Round(c, b, ss).log == b.log + Marked(ss, b.file)
  {
    HalfRateRound(c, f, b, ss, |ss|);
    assert ss[..|ss|] == ss;
    RoundsStep(c, b, ss, []);
    RoundsEnd(c, Round(c, b, ss), []);
  }

  lemma WritesMore(c: Session, track: nat, front: seq<seq<Stereo>>, buffer: seq<Stereo>)
    ensures Writes(c, track, front + [buffer]) ==
              Rounds(c, Writes(c, track, front), Wanted(c, Writes(c, track, front), buffer))
  {
    assert (front + [buffer])[..|front|] == front;
  }

  /** Where a session stands. */
  ghost predicate At(b: Book, saved: nat, done: nat, track: nat, toWrite: int) {
    && |b.log| == saved && b.done == done && b.track == track
    && b.file == Some(track) && b.toWrite == toWrite && !b.stopped
  }

  /** A call of 588 samples that stays within the track, or ends with it. */
  lemma SectorCall(f: Format, front: seq<seq<Stereo>>, buffer: seq<Stereo>,
                   saved: nat, done: nat, track: nat, toWrite: int)
    requires !f.wait && |buffer| == 588 && done + 588 <= 4116 && track < 3
    requires At(Writes(HalfRate(f), 0, front), saved, done, track, toWrite)
    requires done + 588 <= SECTOR * HalfRate(f).starts[track + 1]
    ensures var b, b' := Writes(HalfRate(f), 0, front), Writes(HalfRate(f), 0, front + [buffer]);
            && b'.log == b.log + Marked(buffer, Some(track)) && b'.done == done + 588
            && (done + 588 < SECTOR * HalfRate(f).starts[track + 1] ==>
                  At(b', saved + 588, done + 588, track, toWrite - 588))
  {
    var c := HalfRate(f);
    var b := Writes(c, 0, front);
    WritesMore(c, 0, front, buffer);
    HalfRateRound(c, f, b, buffer, 588);
    HalfRateCall(c, f, b, buffer);
  }

  /** After the first call everything is counted. */
  lemma FirstCall(f: Format, b1: seq<Stereo>)
    requires !f.wait && |b1| == 1176
    ensures At(Writes(HalfRate(f), 0, [b1]), 1176, 1176, 0, 882)
  {
    var c := HalfRate(f);
    WritesMore(c, 0, [], b1);
    assert [] + [b1] == [b1];
    HalfRateRound(c, f, Begin(c, 0), b1, 1176);
    HalfRateCall(c, f, Begin(c, 0), b1);
  }

  /** After the second call one sample is not. */
  lemma SecondCall(f: Format, b1: seq<Stereo>, b2: seq<Stereo>)
    requires !f.wait && |b2| == 589 && At(Writes(HalfRate(f), 0, [b1]), 1176, 1176, 0, 882)
    ensures At(Writes(HalfRate(f), 0, [b1] + [b2]), 1765, 1764, 1, 293)
  {
    var c := HalfRate(f);
    var w1 := Writes(c, 0, [b1]);
    WritesMore(c, 0, [b1], b2);
    HalfRateRound(c, f, w1, b2, 588);
    var w2, rest := Round(c, w1, b2), b2[588..];
    RoundsStep(c, w1, b2, rest);
    HalfRateRound(c, f, w2, rest, 1);
    HalfRateCall(c, f, w2, rest);
  }

  /**
   Buffers as jitter correction delivers them: the second call has one sample more. After the cut
   within it one sample is left, completes no output and is not counted. So the next cut comes one
   sample late, and the first sample of track 2 is in the file of track 1.
   */
  lemma LateCut(f: Format, b1: seq<Stereo>, b2: seq<Stereo>, b3: seq<Stereo>, b4: seq<Stereo>)
    requires !f.wait && |b1| == 1176 && |b2| == 589 && |b3| == |b4| == 588
    ensures OnDisc(HalfRate(f)) && InTrack(HalfRate(f).starts, 0, 0) && InTrack(HalfRate(f).starts, 2, 2940)
    ensures var b := Writes(HalfRate(f), 0, [b1, b2, b3, b4]);
            |b.log| == 2941 && b.done == 2940 && b.log[2940] == Saved(b4[587], Some(1))
  {
    FirstCall(f, b1);
    SecondCall(f, b1, b2);
    SectorCall(f, [b1] + [b2], b3, 1765, 1764, 1, 293);
    SectorCall(f, [b1] + [b2] + [b3], b4, 2353, 2352, 1, -295);
    assert [b1] + [b2] + [b3] + [b4] == [b1, b2, b3, b4];
  }

  /** Two tracks of one sector each at half the rate: all counts, but the program ends at the start of the second. */
  lemma TrackLost(f: Format, ss: seq<Stereo>)
    requires !f.wait && |ss| == 1176
    ensures var c := Session([0, 1, 2], 0, 1176, Rate(2, false), SavingOf(Rate(2, false), f));
            OnDisc(c) && Rounds(c, Begin(c, 0), ss) == Book(588, 1, 0, None, Marked(ss[..588], Some(0)), true)
  {
    var c := Session([0, 1, 2], 0, 1176, Rate(2, false), SavingOf(Rate(2, false), f));
    var b0, b1, rest := Begin(c, 0), Round(c, Begin(c, 0), ss), ss[588..];
    GivesIffWindow(c.d, f, [], ss[..588]);
    assert Inputs(b0.log) == [] && b1 == Book(588, 1, 0, None, Marked(ss[..588], Some(0)), false);
    GivesIffWindow(c.d, f, Inputs(b1.log), rest);
    assert rest[..588] == rest && Chunk(c, b1, rest) == rest;
    RoundsStep(c, b0, ss, rest);
    RoundsStep(c, b1, rest, []);
    RoundsEnd(c, Round(c, b1, rest), []);
  }
}
