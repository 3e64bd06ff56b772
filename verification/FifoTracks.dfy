/** The filler cuts every track into segments without losing or adding a byte. */
module FifoTracks {
  import opened Fifo

  /** Bytes of track `t` among the segments: an error or end of file counts for nothing. */
  ghost function TrackBytes(put: seq<Segment>, tracks: seq<nat>, t: nat): (n: int)
    requires |put| == |tracks|
    ensures n >= 0
  {
    if put == [] then 0
    else
      var last := |put| - 1;
      TrackBytes(put[..last], tracks[..last], t) +
      if tracks[last] == t && put[last].len > 0 then put[last].len else 0
  }

  /** How many segments track `t` has. */
  ghost function TrackSegments(tracks: seq<nat>, t: nat): nat {
    if tracks == [] then 0
    else TrackSegments(tracks[..|tracks| - 1], t) + if tracks[|tracks| - 1] == t then 1 else 0
  }

  /** The source of track `t` ended early: a read returned 0 or an error. */
  ghost predicate EndedEarly(put: seq<Segment>, tracks: seq<nat>, t: nat)
    requires |put| == |tracks|
  {
    exists k :: 0 <= k < |put| && tracks[k] == t && put[k].len <= 0
  }

  /** The track is finished: all of it was stored, or its source ended early. */
  ghost predicate Finished(tr: Track, put: seq<Segment>, tracks: seq<nat>, t: nat)
    requires |put| == |tracks|
  {
    tr.tracksize > 0 ==> TrackBytes(put, tracks, t) == tr.tracksize || EndedEarly(put, tracks, t)
  }

  /** The number of tracks the filler has left behind. */
  function TracksDone(c: Config, p: FillerPc): nat {
    match p
    case Start(t) => t
    case At(_, t, _, _, _) => t
    case Dead => 0
    case _ => |c.tracks|
  }

  predicate Stored(p: FillerPc) { p.At? && p.stage in {SetUsers, Puts, Next} }

  ghost predicate TracksOk(c: Config, s: State) {
    && |s.put| == |s.putTrack|
    && (forall t :: 0 <= t < |c.tracks| && t < TracksDone(c, s.filler) ==>
          Finished(c.tracks[t], s.put, s.putTrack, t))
    && (forall t :: 0 <= t < |c.tracks| && c.tracks[t].tracksize > 0 ==>
          TrackBytes(s.put, s.putTrack, t) <= c.tracks[t].tracksize)
    && (!s.filler.Dead? ==>
          forall t :: TracksDone(c, s.filler) < t ==> TrackBytes(s.put, s.putTrack, t) == 0)
    && (s.filler.Start? ==> s.filler.t <= |c.tracks| && TrackBytes(s.put, s.putTrack, s.filler.t) == 0)
    && (s.filler.At? ==> CurrentOk(c, s, s.filler.t, s.filler.bytesRead, s.filler.l))
  }

  /** The track being read: what is stored so far, and what the next segment may add. */
  ghost predicate CurrentOk(c: Config, s: State, t: nat, bytesRead: int, l: int)
    requires s.filler.At? && |s.put| == |s.putTrack|
  {
    && t < |c.tracks| && s.w < |s.slots|
    && var tr := c.tracks[t];
       var stage := s.filler.stage;
    && bytesRead >= 0
    && (tr.tracksize > 0 ==> bytesRead < tr.tracksize)
    && (stage in {SetLen, SetErrno, SetOwner, SetUsers, Puts, Next} ==> l <= BytesToRead(tr, bytesRead))
    && (stage in {SetErrno, SetOwner} ==> s.slots[s.w].len == l)
    && (Stored(s.filler) ==> s.put != [] && s.putTrack[|s.put| - 1] == t && s.put[|s.put| - 1].len == l)
    && TrackBytes(s.put, s.putTrack, t) ==
         bytesRead + if Stored(s.filler) && l > 0 then l else 0
  }

  lemma AppendSegment(put: seq<Segment>, tracks: seq<nat>, seg: Segment, t: nat)
    requires |put| == |tracks|
    ensures forall u :: TrackBytes(put + [seg], tracks + [t], u) ==
              TrackBytes(put, tracks, u) + if u == t && seg.len > 0 then seg.len else 0
    ensures forall u :: EndedEarly(put, tracks, u) ==> EndedEarly(put + [seg], tracks + [t], u)
  {
    assert (put + [seg])[..|put|] == put && (tracks + [t])[..|put|] == tracks;
    forall u | EndedEarly(put, tracks, u)
      ensures EndedEarly(put + [seg], tracks + [t], u)
    {
      var k :| 0 <= k < |put| && tracks[k] == u && put[k].len <= 0;
      assert (put + [seg])[k] == put[k] && (tracks + [t])[k] == tracks[k];
    }
  }

  /** The store that adds a segment. */
  lemma StoreKeepsTracks(c: Config, s: State, ch: Choice)
    requires WellFormed(c, s) && TracksOk(c, s) && ch.MoveFiller?
    requires s.filler.At? && s.filler.stage == SetOwner
    ensures TracksOk(c, Step(c, s, ch))
  {
    AppendSegment(s.put, s.putTrack, Content(s.slots[s.w]), s.filler.t);
    var s' := Step(c, s, ch);
    forall t | 0 <= t < s.filler.t
      ensures Finished(c.tracks[t], s'.put, s'.putTrack, t)
    {
      assert Finished(c.tracks[t], s.put, s.putTrack, t);
    }
  }

  /** The end of a pass through the loop of faio_read_track. */
  lemma NextKeepsTracks(c: Config, s: State, ch: Choice)
    requires WellFormed(c, s) && TracksOk(c, s) && ch.MoveFiller?
    requires s.filler.At? && s.filler.stage == Next
    ensures TracksOk(c, Step(c, s, ch))
  {
    var t, k := s.filler.t, |s.put| - 1;
    assert s.putTrack[k] == t && s.put[k].len == s.filler.l;
    assert s.filler.l <= 0 ==> EndedEarly(s.put, s.putTrack, t);
    assert Step(c, s, ch).filler.Start? ==> Finished(c.tracks[t], s.put, s.putTrack, t);
  }

  /** Stores and moves within one pass of the loop. */
  ghost predicate SamePass(s: State, s': State) {
    && s'.put == s.put && s'.putTrack == s.putTrack
    && s.filler.At? && s'.filler.At? && s'.filler.t == s.filler.t && s'.filler.bytesRead == s.filler.bytesRead
    && Stored(s'.filler) == Stored(s.filler)
  }

  lemma StageIsSamePass(c: Config, s: State, ch: Choice)
    requires WellFormed(c, s) && ch.MoveFiller? && s.filler.At? && s.filler.stage != SetOwner && s.filler.stage != Next
    ensures SamePass(s, Step(c, s, ch))
  {
  }

  lemma PassKeepsTracks(c: Config, s: State, s': State)
    requires TracksOk(c, s) && SamePass(s, s')
    requires CurrentOk(c, s', s'.filler.t, s'.filler.bytesRead, s'.filler.l)
    ensures TracksOk(c, s')
  {
  }

  lemma StageKeepsCurrent(c: Config, s: State, ch: Choice)
    requires WellFormed(c, s) && ch.MoveFiller? && s.filler.At? && |s.put| == |s.putTrack|
    requires s.filler.stage != SetOwner && s.filler.stage != Next
    requires CurrentOk(c, s, s.filler.t, s.filler.bytesRead, s.filler.l)
    ensures var s' := Step(c, s, ch);
            SamePass(s, s') && CurrentOk(c, s', s'.filler.t, s'.filler.bytesRead, s'.filler.l)
  {
    StageIsSamePass(c, s, ch);
  }

  /** Every other store of the filler leaves the stored segments alone. */
  lemma StageKeepsTracks(c: Config, s: State, ch: Choice)
    requires WellFormed(c, s) && TracksOk(c, s) && ch.MoveFiller?
    requires s.filler.At? && s.filler.stage != SetOwner && s.filler.stage != Next
    ensures TracksOk(c, Step(c, s, ch))
  {
    StageKeepsCurrent(c, s, ch);
    PassKeepsTracks(c, s, Step(c, s, ch));
  }

  lemma ConsumerTracksFrame(c: Config, s: State, ch: Choice)
    requires WellFormed(c, s) && ch.MoveConsumer?
    ensures var s' := Step(c, s, ch);
            && s'.put == s.put && s'.putTrack == s.putTrack && s'.filler == s.filler && s'.w == s.w
            && |s'.slots| == |s.slots| && s'.slots[s.w].len == s.slots[s.w].len
  {
  }

  lemma TracksFrame(c: Config, s: State, s': State)
    requires TracksOk(c, s) && WellFormed(c, s) && s.w < |s.slots|
    requires s'.put == s.put && s'.putTrack == s.putTrack && s'.filler == s.filler && s'.w == s.w
    requires |s'.slots| == |s.slots| && s'.slots[s.w].len == s.slots[s.w].len
    ensures TracksOk(c, s')
  {
  }

  lemma ConsumerKeepsTracks(c: Config, s: State, ch: Choice)
    requires WellFormed(c, s) && TracksOk(c, s) && ch.MoveConsumer?
    ensures TracksOk(c, Step(c, s, ch))
  {
    ConsumerTracksFrame(c, s, ch);
    TracksFrame(c, s, Step(c, s, ch));
  }

  lemma StepKeepsTracks(c: Config, s: State, ch: Choice)
    requires WellFormed(c, s) && TracksOk(c, s)
    ensures TracksOk(c, Step(c, s, ch))
  {
    if ch.MoveConsumer? {
      ConsumerKeepsTracks(c, s, ch);
    } else if s.filler.At? {
      if s.filler.stage == SetOwner {
        StoreKeepsTracks(c, s, ch);
      } else if s.filler.stage == Next {
        NextKeepsTracks(c, s, ch);
      } else {
        StageKeepsTracks(c, s, ch);
      }
    }
  }

  lemma {:induction false} RunKeepsTracks(c: Config, s0: State, run: seq<Choice>)
    requires Init(c, s0)
    ensures TracksOk(c, After(c, s0, run))
  {
    if run != [] {
      RunKeepsTracks(c, s0, run[..|run| - 1]);
      StepKeepsTracks(c, After(c, s0, run[..|run| - 1]), run[|run| - 1]);
    }
  }

  /**
   With a known tracksize the segments of a track never add up to more than tracksize, and
   to exactly tracksize once the filler has left the track, unless a read returned 0 or an
   error.
   */
  lemma TracksAreWhole(c: Config, s0: State, run: seq<Choice>, t: nat)
    requires Init(c, s0) && t < |c.tracks| && c.tracks[t].tracksize > 0
    ensures var s := After(c, s0, run);
            && |s.put| == |s.putTrack|
            && TrackBytes(s.put, s.putTrack, t) <= c.tracks[t].tracksize
            && (t < TracksDone(c, s.filler) && !EndedEarly(s.put, s.putTrack, t) ==>
                  TrackBytes(s.put, s.putTrack, t) == c.tracks[t].tracksize)
  {
    RunKeepsTracks(c, s0, run);
    var s := After(c, s0, run);
    if t < TracksDone(c, s.filler) {
      assert Finished(c.tracks[t], s.put, s.putTrack, t);
    }
  }

  // ------------------------------------------------------------------ a tracksize of 0

  /** Track `t` is read once and no more. */
  ghost predicate ReadOnce(c: Config, t: nat) { t < |c.tracks| && c.tracks[t].tracksize == 0 }

  ghost predicate OnceOk(c: Config, s: State) {
    && |s.put| == |s.putTrack|
    && (forall t: nat :: ReadOnce(c, t) ==> TrackSegments(s.putTrack, t) <= 1)
    && (forall t: nat :: ReadOnce(c, t) && t < TracksDone(c, s.filler) ==> TrackSegments(s.putTrack, t) == 1)
    && (!s.filler.Dead? ==> forall t: nat :: TracksDone(c, s.filler) < t ==> TrackSegments(s.putTrack, t) == 0)
    && (s.filler.Start? ==> s.filler.t <= |c.tracks| && TrackSegments(s.putTrack, s.filler.t) == 0)
    && (s.filler.At? && ReadOnce(c, s.filler.t) ==>
          s.filler.bytesRead == 0 && TrackSegments(s.putTrack, s.filler.t) == if Stored(s.filler) then 1 else 0)
  }

  lemma CountSegment(tracks: seq<nat>, t: nat)
    ensures forall u :: TrackSegments(tracks + [t], u) == TrackSegments(tracks, u) + if u == t then 1 else 0
  {
    assert (tracks + [t])[..|tracks|] == tracks;
  }

  lemma StoreKeepsOnce(c: Config, s: State, ch: Choice)
    requires WellFormed(c, s) && OnceOk(c, s) && ch.MoveFiller?
    requires s.filler.At? && s.filler.stage == SetOwner
    ensures OnceOk(c, Step(c, s, ch))
  {
    CountSegment(s.putTrack, s.filler.t);
  }

  lemma OnceFrame(c: Config, s: State, s': State)
    requires OnceOk(c, s) && s'.put == s.put && s'.putTrack == s.putTrack && s'.filler == s.filler
    ensures OnceOk(c, s')
  {
  }

  lemma PassKeepsOnce(c: Config, s: State, s': State)
    requires OnceOk(c, s) && SamePass(s, s')
    ensures OnceOk(c, s')
  {
  }

  /** The end of a pass, and moves between tracks. */
  lemma MoveKeepsOnce(c: Config, s: State, ch: Choice)
    requires WellFormed(c, s) && OnceOk(c, s) && ch.MoveFiller?
    requires s.filler.At? ==> s.filler.stage == Next
    ensures OnceOk(c, Step(c, s, ch))
  {
  }

  lemma StepKeepsOnce(c: Config, s: State, ch: Choice)
    requires WellFormed(c, s) && OnceOk(c, s)
    ensures OnceOk(c, Step(c, s, ch))
  {
    if ch.MoveConsumer? {
      ConsumerTracksFrame(c, s, ch);
      OnceFrame(c, s, Step(c, s, ch));
    } else if s.filler.At? && s.filler.stage == SetOwner {
      StoreKeepsOnce(c, s, ch);
    } else if s.filler.At? && s.filler.stage != Next {
      StageIsSamePass(c, s, ch);
      PassKeepsOnce(c, s, Step(c, s, ch));
    } else {
      MoveKeepsOnce(c, s, ch);
    }
  }

  lemma {:induction false} RunKeepsOnce(c: Config, s0: State, run: seq<Choice>)
    requires Init(c, s0)
    ensures OnceOk(c, After(c, s0, run))
  {
    if run != [] {
      RunKeepsOnce(c, s0, run[..|run| - 1]);
      StepKeepsOnce(c, After(c, s0, run[..|run| - 1]), run[|run| - 1]);
    }
  }

  /** With a tracksize of 0 a single transfer is read, whatever it gives. */
  lemma ZeroSizeIsReadOnce(c: Config, s0: State, run: seq<Choice>, t: nat)
    requires Init(c, s0) && t < |c.tracks| && c.tracks[t].tracksize == 0
    ensures var s := After(c, s0, run);
            && TrackSegments(s.putTrack, t) <= 1
            && (t < TracksDone(c, s.filler) ==> TrackSegments(s.putTrack, t) == 1)
  {
    RunKeepsOnce(c, s0, run);
  }
}
