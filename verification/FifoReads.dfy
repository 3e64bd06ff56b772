/**
 From fill_buf to faio_get_buf: what a call of fill_buf returned, left in errno and stored in
 the slot is what a request hands out, and its result decides when the filler leaves a track.
 */
module FifoReads {
  import opened Bytes
  import opened Fifo
  import opened FifoSafety
  import opened FifoLate
  import opened FifoTheorems
  import opened FifoTracks

  // ------------------------------------------------------------------ history

  /** A call of fill_buf: the byte it stored last at each place, what it would return, the error number after it. */
  datatype Call = Call(bytes: map<nat, Byte>, result: int, errno: int)

  function WithLast(calls: seq<Call>, call: Call): seq<Call> {
    if calls == [] then calls else calls[|calls| - 1 := call]
  }

  function Recorded(s: State, ch: Choice, calls: seq<Call>): seq<Call> {
    if !(ch.MoveFiller? && s.filler.At?) then calls
    else if s.filler.stage == SetFd then calls + [Call(map[], 0, 0)]
    else if calls == [] then calls
    else
      var call := calls[|calls| - 1];
      match s.filler.stage
      case Fill =>
        WithLast(calls, if s.filler.left > 0 then call.(bytes := call.bytes[ch.n := ch.b]) else call.(result := ch.l))
      case SetErrno => WithLast(calls, call.(errno := ch.errno))
      case _ => calls
  }

  /** The calls of fill_buf in a run, oldest first. */
  ghost function Calls(c: Config, s0: State, run: seq<Choice>): seq<Call>
    requires WellFormed(c, s0)
  {
    if run == [] then []
    else
      var prefix := run[..|run| - 1];
      Recorded(After(c, s0, prefix), run[|run| - 1], Calls(c, s0, prefix))
  }

  // ------------------------------------------------------------------ a call and its segment

  /**
   The length stored for a result, `before` bytes into the track: the result itself, unless that is
   more than a transfer, or more than what is left of a track of known size.
   */
  ghost predicate StoredLength(tr: Track, before: int, result: int, len: int) {
    && (tr.tracksize > 0 ==> before < tr.tracksize)
    && len <= result && len <= tr.secsize * tr.secspt && (tr.tracksize > 0 ==> len <= tr.tracksize - before)
    && (len == result || len == tr.secsize * tr.secspt || (tr.tracksize > 0 && len == tr.tracksize - before))
  }

  predicate HasBytes(data: seq<Byte>, bytes: map<nat, Byte>) {
    forall n | n in bytes && n < |data| :: data[n] == bytes[n]
  }

  /** The segment carries what the call gave. */
  ghost predicate Carries(tr: Track, before: int, call: Call, seg: Segment) {
    && seg.fd == tr.fd && seg.errno == call.errno && HasBytes(seg.data, call.bytes)
    && StoredLength(tr, before, call.result, seg.len)
  }

  /** The first segments carry the first calls. */
  ghost predicate AllCarry(c: Config, put: seq<Segment>, tracks: seq<nat>, calls: seq<Call>) {
    && |put| == |tracks| <= |calls|
    && forall k | 0 <= k < |put| ::
         && tracks[k] < |c.tracks|
         && Carries(c.tracks[tracks[k]], TrackBytes(put[..k], tracks[..k], tracks[k]), calls[k], put[k])
  }

  predicate Reading(p: FillerPc) { p.At? && p.stage in {Fill, SetLen, SetErrno, SetOwner} }

  /** The slot being filled, so far. */
  ghost predicate SlotCarries(tr: Track, p: FillerPc, call: Call, f: Slot)
    requires p.At?
  {
    && f.fd == tr.fd && HasBytes(f.data, call.bytes)
    && (p.stage != Fill ==> StoredLength(tr, p.bytesRead, call.result, p.l))
    && (p.stage in {SetErrno, SetOwner} ==> f.len == p.l)
    && (p.stage == SetOwner ==> f.errno == call.errno)
  }

  ghost predicate CallsOk(c: Config, s: State, calls: seq<Call>) {
    && AllCarry(c, s.put, s.putTrack, calls)
    && |calls| == |s.put| + (if Reading(s.filler) then 1 else 0)
    && (Reading(s.filler) ==>
          && s.filler.t < |c.tracks| && s.w < |s.slots|
          && SlotCarries(c.tracks[s.filler.t], s.filler, calls[|s.put|], s.slots[s.w]))
  }

  lemma ConsumerLeavesContent(c: Config, s: State, ch: Choice)
    requires WellFormed(c, s) && ch.MoveConsumer?
    ensures var s' := Step(c, s, ch);
            && s'.put == s.put && s'.putTrack == s.putTrack && s'.filler == s.filler && s'.w == s.w
            && Content(s'.slots[s.w]) == Content(s.slots[s.w])
  {
  }

  lemma CallsFrame(c: Config, s: State, s': State, calls: seq<Call>)
    requires WellFormed(c, s) && WellFormed(c, s') && CallsOk(c, s, calls)
    requires s'.put == s.put && s'.putTrack == s.putTrack && s'.filler == s.filler && s'.w == s.w
    requires Content(s'.slots[s.w]) == Content(s.slots[s.w])
    ensures CallsOk(c, s', calls)
  {
  }

  /** What happens to the call being made does not touch the segments before it. */
  lemma LaterCall(c: Config, put: seq<Segment>, tracks: seq<nat>, calls: seq<Call>, calls': seq<Call>)
    requires AllCarry(c, put, tracks, calls) && |put| <= |calls'| && calls'[..|put|] == calls[..|put|]
    ensures AllCarry(c, put, tracks, calls')
  {
    assert forall k | 0 <= k < |put| :: calls'[k] == calls'[..|put|][k] == calls[..|put|][k] == calls[k];
  }

  /** The slot being filled carries what the latest of `calls` gave so far. */
  ghost predicate FillingCarries(c: Config, s: State, calls: seq<Call>) {
    && s.filler.At? && s.filler.t < |c.tracks| && s.w < |s.slots| && calls != []
    && SlotCarries(c.tracks[s.filler.t], s.filler, calls[|calls| - 1], s.slots[s.w])
  }

  lemma SetFdCarries(c: Config, s: State, ch: Choice, calls: seq<Call>)
    requires WellFormed(c, s) && ch.MoveFiller? && s.filler.At? && s.filler.stage == SetFd
    ensures FillingCarries(c, Step(c, s, ch), Recorded(s, ch, calls))
  {
  }

  lemma ByteCarries(c: Config, s: State, ch: Choice, calls: seq<Call>)
    requires WellFormed(c, s) && ch.MoveFiller? && FillingCarries(c, s, calls)
    requires s.filler.stage == Fill && s.filler.left > 0
    ensures FillingCarries(c, Step(c, s, ch), Recorded(s, ch, calls))
  {
  }

  /** fill_buf returns. */
  lemma ResultCarries(c: Config, s: State, ch: Choice, calls: seq<Call>)
    requires WellFormed(c, s) && ch.MoveFiller? && FillingCarries(c, s, calls) && TracksOk(c, s)
    requires s.filler.stage == Fill && s.filler.left == 0
    ensures FillingCarries(c, Step(c, s, ch), Recorded(s, ch, calls))
  {
    var tr, p := c.tracks[s.filler.t], s.filler;
    var l := if ch.l <= BytesToRead(tr, p.bytesRead) then ch.l else BytesToRead(tr, p.bytesRead);
    assert StoredLength(tr, p.bytesRead, ch.l, l);
  }

  lemma LengthCarries(c: Config, s: State, ch: Choice, calls: seq<Call>)
    requires WellFormed(c, s) && ch.MoveFiller? && FillingCarries(c, s, calls) && s.filler.stage == SetLen
    ensures FillingCarries(c, Step(c, s, ch), Recorded(s, ch, calls))
  {
  }

  lemma ErrnoCarries(c: Config, s: State, ch: Choice, calls: seq<Call>)
    requires WellFormed(c, s) && ch.MoveFiller? && FillingCarries(c, s, calls) && s.filler.stage == SetErrno
    ensures FillingCarries(c, Step(c, s, ch), Recorded(s, ch, calls))
  {
  }

  lemma FillFrame(c: Config, s: State, ch: Choice, calls: seq<Call>)
    requires WellFormed(c, s) && ch.MoveFiller? && s.filler.At? && s.filler.stage in {SetFd, Fill, SetLen, SetErrno}
    ensures var s', calls' := Step(c, s, ch), Recorded(s, ch, calls);
            && s'.put == s.put && s'.putTrack == s.putTrack && Reading(s'.filler)
            && |calls'| == |calls| + (if s.filler.stage == SetFd then 1 else 0)
            && forall k | 0 <= k < |calls| && (s.filler.stage == SetFd || k < |calls| - 1) :: calls'[k] == calls[k]
  {
  }

  /** How the call and the slot being filled change before the slot is handed over. */
  lemma FillKeepsSlot(c: Config, s: State, ch: Choice, calls: seq<Call>)
    requires WellFormed(c, s) && CallsOk(c, s, calls) && TracksOk(c, s) && ch.MoveFiller?
    requires s.filler.At? && s.filler.stage in {SetFd, Fill, SetLen, SetErrno}
    ensures FillingCarries(c, Step(c, s, ch), Recorded(s, ch, calls))
  {
    if s.filler.stage == SetFd {
      SetFdCarries(c, s, ch, calls);
    } else if s.filler.stage == SetLen {
      LengthCarries(c, s, ch, calls);
    } else if s.filler.stage == SetErrno {
      ErrnoCarries(c, s, ch, calls);
    } else if s.filler.left > 0 {
      ByteCarries(c, s, ch, calls);
    } else {
      ResultCarries(c, s, ch, calls);
    }
  }

  lemma FillKeepsCalls(c: Config, s: State, ch: Choice, calls: seq<Call>)
    requires WellFormed(c, s) && CallsOk(c, s, calls) && TracksOk(c, s) && ch.MoveFiller?
    requires s.filler.At? && s.filler.stage in {SetFd, Fill, SetLen, SetErrno}
    ensures CallsOk(c, Step(c, s, ch), Recorded(s, ch, calls))
  {
    FillKeepsSlot(c, s, ch, calls);
    FillFrame(c, s, ch, calls);
    LaterCall(c, s.put, s.putTrack, calls, Recorded(s, ch, calls));
  }

  lemma AppendCarries(c: Config, put: seq<Segment>, tracks: seq<nat>, calls: seq<Call>, seg: Segment, t: nat)
    requires AllCarry(c, put, tracks, calls) && |calls| == |put| + 1 && t < |c.tracks|
    requires Carries(c.tracks[t], TrackBytes(put, tracks, t), calls[|put|], seg)
    ensures AllCarry(c, put + [seg], tracks + [t], calls)
  {
    forall k | 0 <= k <= |put|
      ensures (put + [seg])[..k] == put[..k] && (tracks + [t])[..k] == tracks[..k]
    {
    }
    assert put[..|put|] == put && tracks[..|put|] == tracks;
  }

  lemma StoreKeepsCalls(c: Config, s: State, ch: Choice, calls: seq<Call>)
    requires WellFormed(c, s) && CallsOk(c, s, calls) && TracksOk(c, s) && ch.MoveFiller?
    requires s.filler.At? && s.filler.stage == SetOwner
    ensures CallsOk(c, Step(c, s, ch), Recorded(s, ch, calls))
  {
    AppendCarries(c, s.put, s.putTrack, calls, Content(s.slots[s.w]), s.filler.t);
  }

  lemma NoCall(c: Config, s: State, ch: Choice, calls: seq<Call>)
    requires WellFormed(c, s) && ch.MoveFiller?
    requires s.filler.At? ==> s.filler.stage in {Poll, SetUsers, Puts, Next}
    ensures var s' := Step(c, s, ch);
            && s'.put == s.put && s'.putTrack == s.putTrack && !Reading(s.filler) && !Reading(s'.filler)
            && Recorded(s, ch, calls) == calls
  {
  }

  /** No call is going on before or afterwards. */
  lemma OtherKeepsCalls(c: Config, s: State, s': State, calls: seq<Call>)
    requires CallsOk(c, s, calls) && s'.put == s.put && s'.putTrack == s.putTrack
    requires !Reading(s.filler) && !Reading(s'.filler)
    ensures CallsOk(c, s', calls)
  {
  }

  lemma StepKeepsCalls(c: Config, s: State, ch: Choice, calls: seq<Call>)
    requires WellFormed(c, s) && CallsOk(c, s, calls) && TracksOk(c, s)
    ensures CallsOk(c, Step(c, s, ch), Recorded(s, ch, calls))
  {
    if ch.MoveConsumer? {
      ConsumerLeavesContent(c, s, ch);
      StepWellFormed(c, s, ch);
      CallsFrame(c, s, Step(c, s, ch), calls);
    } else if s.filler.At? && s.filler.stage == SetOwner {
      StoreKeepsCalls(c, s, ch, calls);
    } else if s.filler.At? && s.filler.stage in {SetFd, Fill, SetLen, SetErrno} {
      FillKeepsCalls(c, s, ch, calls);
    } else {
      NoCall(c, s, ch, calls);
      OtherKeepsCalls(c, s, Step(c, s, ch), calls);
    }
  }

  lemma {:induction false} RunKeepsCalls(c: Config, s0: State, run: seq<Choice>)
    requires Init(c, s0)
    ensures CallsOk(c, After(c, s0, run), Calls(c, s0, run))
  {
    if run != [] {
      var prefix := run[..|run| - 1];
      RunKeepsCalls(c, s0, prefix);
      RunKeepsTracks(c, s0, prefix);
      StepKeepsCalls(c, After(c, s0, prefix), run[|run| - 1], Calls(c, s0, prefix));
    }
  }

  lemma CarriesLength(tr: Track, before: int, call: Call, seg: Segment)
    requires Carries(tr, before, call, seg)
    ensures call.result <= tr.secsize * tr.secspt && (tr.tracksize > 0 ==> call.result <= tr.tracksize - before)
            ==> seg.len == call.result
    ensures call.result > 0 && tr.secsize * tr.secspt > 0 ==> seg.len > 0
  {
  }

  /**
   The k-th segment carries the descriptor of its track, the error number, the bytes and the result of
   the k-th call of fill_buf; the result is cut only to a whole transfer, or to the end of the track.
   */
  lemma SegmentsCarryCalls(c: Config, s0: State, run: seq<Choice>, k: nat)
    requires Init(c, s0) && k < |After(c, s0, run).put|
    ensures var s, calls := After(c, s0, run), Calls(c, s0, run);
            && k < |s.putTrack| && k < |calls| && s.putTrack[k] < |c.tracks|
            && var tr, seg := c.tracks[s.putTrack[k]], s.put[k];
               var rest := tr.tracksize - TrackBytes(s.put[..k], s.putTrack[..k], s.putTrack[k]);
            && seg.fd == tr.fd && seg.errno == calls[k].errno
            && (forall n | n in calls[k].bytes && n < |seg.data| :: seg.data[n] == calls[k].bytes[n])
            && seg.len <= calls[k].result
            && (calls[k].result <= tr.secsize * tr.secspt && (tr.tracksize > 0 ==> calls[k].result <= rest)
                ==> seg.len == calls[k].result)
            && (calls[k].result > 0 && tr.secsize * tr.secspt > 0 ==> seg.len > 0)
  {
    RunKeepsCalls(c, s0, run);
    var s, calls := After(c, s0, run), Calls(c, s0, run);
    var t := s.putTrack[k];
    CarriesLength(c.tracks[t], TrackBytes(s.put[..k], s.putTrack[..k], t), calls[k], s.put[k]);
  }

  /** What a request hands out, while there are no more requests than segments, is what a call of fill_buf gave. */
  lemma RequestsGetCalls(c: Config, s0: State, run: seq<Choice>, k: nat)
    requires Init(c, s0) && k < |After(c, s0, run).got| && k < |After(c, s0, run).put|
    ensures var s, calls := After(c, s0, run), Calls(c, s0, run);
            && k < |s.putTrack| && k < |calls| && s.putTrack[k] < |c.tracks|
            && var t := s.putTrack[k];
               Carries(c.tracks[t], TrackBytes(s.put[..k], s.putTrack[..k], t), calls[k], s.got[k])
  {
    RunKeepsCalls(c, s0, run);
    Delivery(c, s0, run);
    var s := After(c, s0, run);
    assert s.got[k] == s.put[k];
  }

  // ------------------------------------------------------------------ when a track is left

  /** The last segment is the end of its track: nothing was read, or all of a known size is there. */
  ghost predicate EndsTrack(c: Config, put: seq<Segment>, tracks: seq<nat>)
    requires |put| == |tracks| && put != [] && tracks[|put| - 1] < |c.tracks|
  {
    var n := |put| - 1;
    var size := c.tracks[tracks[n]].tracksize;
    put[n].len <= 0 || (size >= 0 && TrackBytes(put, tracks, tracks[n]) >= size)
  }

  /** The track of the next segment. */
  ghost function NextTrack(c: Config, put: seq<Segment>, tracks: seq<nat>): nat
    requires |put| == |tracks| && forall k | 0 <= k < |put| :: tracks[k] < |c.tracks|
  {
    if put == [] then 0
    else tracks[|put| - 1] + if EndsTrack(c, put, tracks) then 1 else 0
  }

  ghost predicate InTurn(c: Config, put: seq<Segment>, tracks: seq<nat>) {
    && |put| == |tracks|
    && (forall k | 0 <= k < |put| :: tracks[k] < |c.tracks|)
    && (forall k | 0 <= k < |put| :: tracks[k] == NextTrack(c, put[..k], tracks[..k]))
  }

  ghost predicate OrderOk(c: Config, s: State) {
    && InTurn(c, s.put, s.putTrack)
    && (match s.filler
        case Start(t) => t == NextTrack(c, s.put, s.putTrack) <= |c.tracks|
        case At(_, t, _, _, _) =>
          && t < |c.tracks|
          && if Stored(s.filler) then s.put != [] && s.putTrack[|s.put| - 1] == t
             else t == NextTrack(c, s.put, s.putTrack)
        case Dead => NextTrack(c, s.put, s.putTrack) < |c.tracks|
        case _ => NextTrack(c, s.put, s.putTrack) == |c.tracks|)
  }

  lemma AppendInTurn(c: Config, put: seq<Segment>, tracks: seq<nat>, seg: Segment, t: nat)
    requires InTurn(c, put, tracks) && t == NextTrack(c, put, tracks) < |c.tracks|
    ensures InTurn(c, put + [seg], tracks + [t])
  {
    forall k | 0 <= k <= |put|
      ensures (put + [seg])[..k] == put[..k] && (tracks + [t])[..k] == tracks[..k]
    {
    }
    assert put[..|put|] == put && tracks[..|put|] == tracks;
  }

  lemma OrderFrame(c: Config, s: State, s': State)
    requires OrderOk(c, s) && s'.put == s.put && s'.putTrack == s.putTrack && s'.filler == s.filler
    ensures OrderOk(c, s')
  {
  }

  lemma PassKeepsOrder(c: Config, s: State, s': State)
    requires OrderOk(c, s) && SamePass(s, s')
    ensures OrderOk(c, s')
  {
  }

  lemma StoreKeepsOrder(c: Config, s: State, ch: Choice)
    requires WellFormed(c, s) && OrderOk(c, s) && ch.MoveFiller? && s.filler.At? && s.filler.stage == SetOwner
    ensures OrderOk(c, Step(c, s, ch))
  {
    AppendInTurn(c, s.put, s.putTrack, Content(s.slots[s.w]), s.filler.t);
  }

  /** The segment just stored ends its track exactly if the loop of faio_read_track ends. */
  lemma LoopEndsWithTrack(c: Config, s: State)
    requires TracksOk(c, s) && OrderOk(c, s) && s.filler.At? && s.filler.stage == Next
    ensures var p, size := s.filler, c.tracks[s.filler.t].tracksize;
            && s.put != [] && s.putTrack[|s.put| - 1] == p.t
            && (EndsTrack(c, s.put, s.putTrack) <==> p.l <= 0 || !(size < 0 || p.bytesRead + p.l < size))
  {
  }

  lemma NextKeepsOrder(c: Config, s: State, ch: Choice)
    requires WellFormed(c, s) && OrderOk(c, s) && TracksOk(c, s)
    requires ch.MoveFiller? && s.filler.At? && s.filler.stage == Next
    ensures OrderOk(c, Step(c, s, ch))
  {
    LoopEndsWithTrack(c, s);
  }

  /** Between the tracks, and behind the last one. */
  lemma MoveKeepsOrder(c: Config, s: State, ch: Choice)
    requires WellFormed(c, s) && OrderOk(c, s) && ch.MoveFiller? && !s.filler.At?
    ensures OrderOk(c, Step(c, s, ch))
  {
  }

  lemma StepKeepsOrder(c: Config, s: State, ch: Choice)
    requires WellFormed(c, s) && OrderOk(c, s) && TracksOk(c, s)
    ensures OrderOk(c, Step(c, s, ch))
  {
    if ch.MoveConsumer? {
      ConsumerLeavesContent(c, s, ch);
      OrderFrame(c, s, Step(c, s, ch));
    } else if !s.filler.At? {
      MoveKeepsOrder(c, s, ch);
    } else if s.filler.stage == SetOwner {
      StoreKeepsOrder(c, s, ch);
    } else if s.filler.stage == Next {
      NextKeepsOrder(c, s, ch);
    } else {
      StageIsSamePass(c, s, ch);
      PassKeepsOrder(c, s, Step(c, s, ch));
    }
  }

  lemma {:induction false} RunKeepsOrder(c: Config, s0: State, run: seq<Choice>)
    requires Init(c, s0)
    ensures OrderOk(c, After(c, s0, run))
  {
    if run != [] {
      var prefix := run[..|run| - 1];
      RunKeepsOrder(c, s0, prefix);
      RunKeepsTracks(c, s0, prefix);
      StepKeepsOrder(c, After(c, s0, prefix), run[|run| - 1]);
    }
  }

  /** Segment `k` is the end of its track. */
  ghost predicate EndsAt(c: Config, put: seq<Segment>, tracks: seq<nat>, k: nat)
    requires k < |put| == |tracks| && tracks[k] < |c.tracks|
  {
    EndsTrack(c, put[..k + 1], tracks[..k + 1])
  }

  /** Some segment is the end of track `t`. */
  ghost predicate Ended(c: Config, put: seq<Segment>, tracks: seq<nat>, t: nat)
    requires |put| == |tracks| && forall k | 0 <= k < |put| :: tracks[k] < |c.tracks|
  {
    exists k | 0 <= k < |put| :: tracks[k] == t && EndsAt(c, put, tracks, k)
  }

  lemma EndsAtPrefix(c: Config, put: seq<Segment>, tracks: seq<nat>, n: nat, k: nat)
    requires k < n <= |put| == |tracks| && tracks[k] < |c.tracks|
    ensures EndsAt(c, put[..n], tracks[..n], k) == EndsAt(c, put, tracks, k)
  {
    assert put[..n][..k + 1] == put[..k + 1] && tracks[..n][..k + 1] == tracks[..k + 1];
  }

  lemma InTurnPrefix(c: Config, put: seq<Segment>, tracks: seq<nat>, n: nat)
    requires InTurn(c, put, tracks) && n <= |put|
    ensures InTurn(c, put[..n], tracks[..n])
  {
    forall k | 0 <= k < n
      ensures put[..n][..k] == put[..k] && tracks[..n][..k] == tracks[..k]
    {
    }
  }

  lemma EndedMore(c: Config, put: seq<Segment>, tracks: seq<nat>, t: nat, n: nat)
    requires InTurn(c, put, tracks) && |put| == n + 1
    ensures |put[..n]| == |tracks[..n]| && forall k | 0 <= k < n :: tracks[..n][k] < |c.tracks|
    ensures Ended(c, put, tracks, t) <==>
              Ended(c, put[..n], tracks[..n], t) || (tracks[n] == t && EndsAt(c, put, tracks, n))
  {
    forall k | 0 <= k < n
      ensures EndsAt(c, put[..n], tracks[..n], k) == EndsAt(c, put, tracks, k)
    {
      EndsAtPrefix(c, put, tracks, n, k);
    }
    assert forall k | 0 <= k < n :: tracks[..n][k] == tracks[k];
  }

  /** The tracks before the next one are those that have an end. */
  lemma {:induction false} PassedTracksEnded(c: Config, put: seq<Segment>, tracks: seq<nat>, t: nat)
    requires InTurn(c, put, tracks)
    ensures t < NextTrack(c, put, tracks) <==> Ended(c, put, tracks, t)
  {
    if put != [] {
      var n := |put| - 1;
      InTurnPrefix(c, put, tracks, n);
      PassedTracksEnded(c, put[..n], tracks[..n], t);
      EndedMore(c, put, tracks, t, n);
      assert put[..n + 1] == put && tracks[..n + 1] == tracks;
      assert tracks[n] == NextTrack(c, put[..n], tracks[..n]);
    }
  }

  /**
   The tracks are read in turn, from the first one on: the filler goes on to the next track exactly
   after a segment of length 0, an error, or the last byte of a track of known size, and it exits
   behind the last track.
   */
  lemma TracksInTurn(c: Config, s0: State, run: seq<Choice>)
    requires Init(c, s0)
    ensures var s := After(c, s0, run);
            && |s.putTrack| == |s.put|
            && (forall k | 0 <= k < |s.put| :: s.putTrack[k] < |c.tracks|)
            && (s.put != [] ==> s.putTrack[0] == 0)
            && (forall k | 0 < k < |s.put| ::
                  s.putTrack[k] == s.putTrack[k - 1] + if EndsAt(c, s.put, s.putTrack, k - 1) then 1 else 0)
            && (s.filler.Exited? ==> TracksDone(c, s.filler) == |c.tracks| == NextTrack(c, s.put, s.putTrack))
  {
    RunKeepsOrder(c, s0, run);
    var s := After(c, s0, run);
    forall k | 0 < k < |s.put|
      ensures s.putTrack[k] == s.putTrack[k - 1] + if EndsAt(c, s.put, s.putTrack, k - 1) then 1 else 0
    {
      NextInTurn(c, s.put, s.putTrack, k);
    }
  }

  lemma UnknownSizeEndsAt(c: Config, put: seq<Segment>, tracks: seq<nat>, k: nat)
    requires k < |put| == |tracks| && tracks[k] < |c.tracks| && c.tracks[tracks[k]].tracksize < 0
    ensures EndsAt(c, put, tracks, k) <==> put[k].len <= 0
  {
  }

  lemma NextInTurn(c: Config, put: seq<Segment>, tracks: seq<nat>, k: nat)
    requires InTurn(c, put, tracks) && 0 < k < |put|
    ensures tracks[k] == tracks[k - 1] + if EndsAt(c, put, tracks, k - 1) then 1 else 0
  {
    assert tracks[k] == NextTrack(c, put[..k], tracks[..k]);
  }

  lemma UnknownSizeEnds(c: Config, put: seq<Segment>, tracks: seq<nat>, t: nat)
    requires InTurn(c, put, tracks) && t < |c.tracks| && c.tracks[t].tracksize < 0
    ensures forall k | 0 < k < |put| && tracks[k - 1] == t :: tracks[k] == t <==> put[k - 1].len > 0
    ensures t < NextTrack(c, put, tracks) <==> exists k | 0 <= k < |put| :: tracks[k] == t && put[k].len <= 0
  {
    PassedTracksEnded(c, put, tracks, t);
    forall k | 0 <= k < |put| && tracks[k] == t
      ensures EndsAt(c, put, tracks, k) <==> put[k].len <= 0
    {
      UnknownSizeEndsAt(c, put, tracks, k);
    }
    forall k | 0 < k < |put| && tracks[k - 1] == t
      ensures tracks[k] == t <==> put[k - 1].len > 0
    {
      NextInTurn(c, put, tracks, k);
    }
  }

  /**
   A track of unknown size is read until a read gives nothing or an error, and no further: between two
   passes of the loop it is behind the filler if and only if such a read has been made.
   */
  lemma UnknownSizeIsReadToTheEnd(c: Config, s0: State, run: seq<Choice>, t: nat)
    requires Init(c, s0) && t < |c.tracks| && c.tracks[t].tracksize < 0
    ensures var s := After(c, s0, run);
            && |s.putTrack| == |s.put|
            && (forall k | 0 < k < |s.put| && s.putTrack[k - 1] == t ::
                  s.putTrack[k] == t <==> s.put[k - 1].len > 0)
            && (!s.filler.Dead? && !Stored(s.filler) ==>
                  (t < TracksDone(c, s.filler) <==>
                     exists k | 0 <= k < |s.put| :: s.putTrack[k] == t && s.put[k].len <= 0))
  {
    var s := After(c, s0, run);
    RunKeepsOrder(c, s0, run);
    UnknownSizeEnds(c, s.put, s.putTrack, t);
  }
}
