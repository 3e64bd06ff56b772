/**
 Rewriting a full table of contents in the buffer it was read into (collect_tracks and dvd_lba
 of cdda2wav/scsi_cmds.c): what the scan over the 11-byte records keeps.
 */
module FullToc {
  import opened Bytes

  /** A struct tocdesc: session, adrctl, tno, point, three bytes address, and zero, min, sec, frame. */
  type Rec = r: seq<Byte> | |r| == 11 witness [0, 0, 0, 0, 0, 0, 0, 0, 0, 0, 0]

  const SESSION := 0
  const POINT := 3
  const PMIN := 8

  function FromBcd(b: Byte): Byte { b % 16 + 10 * (b / 16) }

  /** dvd_lba of the last four bytes of a record. */
  function DvdLba(r: Rec): nat {
    r[7] as int * 1053696 + r[8] as int * 60 * 75 + r[9] as int * 75 + r[10] as int
  }

  /** The session and the two addresses are decoded in place; the point only where it is a track number. */
  function Decoded(r: Rec, bcd: bool): Rec {
    if bcd
    then [FromBcd(r[0]), r[1], r[2], r[3], FromBcd(r[4]), FromBcd(r[5]), FromBcd(r[6]), r[7],
          FromBcd(r[8]), FromBcd(r[9]), FromBcd(r[10])]
    else r
  }

  function WithPoint(r: Rec, bcd: bool): Rec { if bcd then r[POINT := FromBcd(r[POINT])] else r }

  /** A track record as it is kept. */
  function Track(r: Rec, bcd: bool): Rec { WithPoint(Decoded(r, bcd), bcd) }

  /** The variables of the loop: bufferTOC[2] and [3], session, the three positions, and the records kept. */
  datatype Scan = Scan(first: Byte, last: Byte, session: nat, lastStart: nat,
                       leadout: nat, leadoutOrig: nat, kept: seq<Rec>)

  const START := Scan(0, 0, 0, 0, 0, 0, [])

  predicate Special(point: Byte) {
    || point == 0xa0 || point == 0xa1 || point == 0xa2 || 0xb0 <= point <= 0xb6 || point == 0xc0 || point == 0xc1
  }

  /** A track record of the current session: its number in range, its start not before the last one. */
  function KeepTrack(s: Scan, t: Rec): Scan {
    if t[POINT] < s.first || t[POINT] > s.last then s
    else
      var start := DvdLba(t);
      var leadout := if s.leadout < start then start + 1 else s.leadout;
      if start < s.lastStart || start >= leadout then s.(leadout := leadout)
      else s.(leadout := leadout, lastStart := start, kept := s.kept + [t])
  }

  function Step(s: Scan, r: Rec, bcd: bool): Scan {
    var d := Decoded(r, bcd);
    if r[POINT] == 0xa0 then
      s.(session := if s.session + 1 == d[SESSION] then d[SESSION] else s.session,
         first := if s.first < d[PMIN] && s.last < d[PMIN] then d[PMIN] else s.first)
    else if r[POINT] == 0xa1 then
      s.(last := if s.first <= d[PMIN] && s.last < d[PMIN] then d[PMIN] else s.last)
    else if r[POINT] == 0xa2 then
      if DvdLba(d) > s.leadout then s.(leadout := DvdLba(d), leadoutOrig := DvdLba(d)) else s
    else if Special(r[POINT]) || s.session != d[SESSION] then s
    else KeepTrack(s, WithPoint(d, bcd))
  }

  function ScanAll(recs: seq<Rec>, bcd: bool): Scan {
    if recs == [] then START else Step(ScanAll(recs[..|recs| - 1], bcd), recs[|recs| - 1], bcd)
  }

  // ------------------------------------------------------------------ what is kept

  /** `kept` are the tracks of the records numbered `from`, in the order of the input. */
  ghost predicate Chosen(kept: seq<Rec>, recs: seq<Rec>, bcd: bool, from: seq<nat>) {
    && |from| == |kept|
    && (forall k | 0 <= k < |from| :: from[k] < |recs| && kept[k] == Track(recs[from[k]], bcd))
    && (forall k | 0 < k < |from| :: from[k - 1] < from[k])
  }

  /** When record `i` was kept: a track of the current session, its number between the bounds known by then. */
  ghost predicate InRange(recs: seq<Rec>, bcd: bool, i: nat)
    requires i < |recs|
  {
    var s, t := ScanAll(recs[..i], bcd), Track(recs[i], bcd);
    && recs[i][POINT] !in {0xa0, 0xa1, 0xa2, 0xb0, 0xb1, 0xb2, 0xb3, 0xb4, 0xb5, 0xb6, 0xc0, 0xc1}
    && t[SESSION] == s.session
    && s.first <= t[POINT] <= s.last && DvdLba(t) >= s.lastStart
  }

  /** Which records are kept: their numbers, in order. */
  ghost function Sources(recs: seq<Rec>, bcd: bool): (from: seq<nat>)
    ensures |from| == |ScanAll(recs, bcd).kept|
  {
    if recs == [] then []
    else
      var n := |recs| - 1;
      var before := Sources(recs[..n], bcd);
      if |ScanAll(recs, bcd).kept| > |ScanAll(recs[..n], bcd).kept| then before + [n] else before
  }

  /** A record adds itself to the kept ones exactly if it is in range and does not start at the lead-out. */
  lemma StepKeeps(recs: seq<Rec>, bcd: bool)
    requires recs != []
    ensures var n := |recs| - 1;
            var s, s' := ScanAll(recs[..n], bcd), ScanAll(recs, bcd);
            s'.kept == if InRange(recs, bcd, n) && DvdLba(Track(recs[n], bcd)) != s.leadout
                       then s.kept + [Track(recs[n], bcd)] else s.kept
  {
  }

  lemma {:induction false} InRangePrefix(recs: seq<Rec>, bcd: bool, i: nat)
    requires i < |recs| - 1
    ensures InRange(recs[..|recs| - 1], bcd, i) == InRange(recs, bcd, i)
  {
    assert recs[..|recs| - 1][..i] == recs[..i];
  }

  /** Looking at one record more does not change what is known of earlier ones. */
  lemma ChosenGrows(kept: seq<Rec>, recs: seq<Rec>, bcd: bool, from: seq<nat>)
    requires recs != [] && Chosen(kept, recs[..|recs| - 1], bcd, from)
    requires forall k | 0 <= k < |from| :: InRange(recs[..|recs| - 1], bcd, from[k])
    ensures Chosen(kept, recs, bcd, from)
    ensures forall k | 0 <= k < |from| :: InRange(recs, bcd, from[k])
  {
    forall k | 0 <= k < |from|
      ensures recs[from[k]] == recs[..|recs| - 1][from[k]] && InRange(recs, bcd, from[k])
    {
      InRangePrefix(recs, bcd, from[k]);
    }
  }

  /** The last record, when it is kept. */
  lemma ChosenMore(kept: seq<Rec>, recs: seq<Rec>, bcd: bool, from: seq<nat>, from': seq<nat>)
    requires recs != [] && Chosen(kept, recs, bcd, from) && InRange(recs, bcd, |recs| - 1)
    requires from' == from + [|recs| - 1]
    requires forall k | 0 <= k < |from| :: from[k] < |recs| - 1 && InRange(recs, bcd, from[k])
    ensures Chosen(kept + [Track(recs[|recs| - 1], bcd)], recs, bcd, from')
    ensures forall k | 0 <= k < |from'| :: InRange(recs, bcd, from'[k])
  {
  }

  /** The kept records are a subsequence of the input's tracks, and each was in range when it was kept. */
  lemma {:induction false} KeptAreChosen(recs: seq<Rec>, bcd: bool)
    ensures Chosen(ScanAll(recs, bcd).kept, recs, bcd, Sources(recs, bcd))
    ensures forall k | 0 <= k < |Sources(recs, bcd)| :: InRange(recs, bcd, Sources(recs, bcd)[k])
  {
    if recs != [] {
      var n := |recs| - 1;
      var kept, from := ScanAll(recs[..n], bcd).kept, Sources(recs[..n], bcd);
      KeptAreChosen(recs[..n], bcd);
      StepKeeps(recs, bcd);
      ChosenGrows(kept, recs, bcd, from);
      if ScanAll(recs, bcd).kept != kept {
        ChosenMore(kept, recs, bcd, from, Sources(recs, bcd));
      }
    }
  }

  /** Starts never decrease, and all lie before the corrected lead-out. */
  ghost predicate Ordered(s: Scan) {
    && (forall k | 0 < k < |s.kept| :: DvdLba(s.kept[k - 1]) <= DvdLba(s.kept[k]))
    && (forall k | 0 <= k < |s.kept| :: DvdLba(s.kept[k]) <= s.lastStart)
    && (forall k | 0 <= k < |s.kept| :: DvdLba(s.kept[k]) < s.leadout)
  }

  lemma KeepOrdered(s: Scan, t: Rec)
    requires Ordered(s)
    ensures Ordered(KeepTrack(s, t))
  {
  }

  /** Moving the lead-out up, or changing session and bounds, keeps the order. */
  lemma LaterLeadOut(s: Scan, s': Scan)
    requires Ordered(s) && s'.kept == s.kept && s'.lastStart == s.lastStart && s'.leadout >= s.leadout
    ensures Ordered(s')
  {
  }

  lemma StepOrdered(s: Scan, r: Rec, bcd: bool)
    requires Ordered(s)
    ensures Ordered(Step(s, r, bcd))
  {
    if Special(r[POINT]) {
      LaterLeadOut(s, Step(s, r, bcd));
    } else {
      KeepOrdered(s, Track(r, bcd));
    }
  }

  lemma {:induction false} KeptAreOrdered(recs: seq<Rec>, bcd: bool)
    ensures Ordered(ScanAll(recs, bcd))
  {
    if recs != [] {
      KeptAreOrdered(recs[..|recs| - 1], bcd);
      StepOrdered(ScanAll(recs[..|recs| - 1], bcd), recs[|recs| - 1], bcd);
    }
  }

  // ------------------------------------------------------------------ the final header

  /** A record raises the first track number: a session starts behind all track numbers known by then. */
  predicate RaisesFirst(s: Scan, r: Rec, bcd: bool) {
    r[POINT] == 0xa0 && s.first < Decoded(r, bcd)[PMIN] && s.last < Decoded(r, bcd)[PMIN]
  }

  predicate Raises(recs: seq<Rec>, bcd: bool, j: nat)
    requires j < |recs|
  {
    RaisesFirst(ScanAll(recs[..j], bcd), recs[j], bcd)
  }

  /** What a record does to the two track numbers. */
  lemma BoundsStep(s: Scan, r: Rec, bcd: bool)
    ensures var s' := Step(s, r, bcd);
            && s.last <= s'.last && s.first <= s'.first
            && (if RaisesFirst(s, r, bcd) then s'.first > s.last else s'.first == s.first)
  {
  }

  lemma ScanNext(recs: seq<Rec>, bcd: bool, m: nat)
    requires 0 < m <= |recs|
    ensures ScanAll(recs[..m], bcd) == Step(ScanAll(recs[..m - 1], bcd), recs[m - 1], bcd)
  {
    assert recs[..m][..m - 1] == recs[..m - 1];
  }

  /** Between two records the bounds only grow; the first number stays, or passes the last one known before. */
  lemma {:induction false} BoundsGrow(recs: seq<Rec>, bcd: bool, i: nat, m: nat)
    requires i <= m <= |recs|
    ensures var s, s' := ScanAll(recs[..i], bcd), ScanAll(recs[..m], bcd);
            && s.last <= s'.last
            && if exists j | i <= j < m :: Raises(recs, bcd, j) then s'.first > s.last else s'.first == s.first
    decreases m
  {
    if i < m {
      BoundsGrow(recs, bcd, i, m - 1);
      ScanNext(recs, bcd, m);
      BoundsStep(ScanAll(recs[..m - 1], bcd), recs[m - 1], bcd);
      assert Raises(recs, bcd, m - 1) == RaisesFirst(ScanAll(recs[..m - 1], bcd), recs[m - 1], bcd);
    }
  }

  /** A kept track lies in the range of the final header exactly if no record after it raises the first number. */
  lemma FinalRange(recs: seq<Rec>, bcd: bool, k: nat)
    requires k < |Sources(recs, bcd)|
    ensures k < |ScanAll(recs, bcd).kept| && Sources(recs, bcd)[k] < |recs|
    ensures var s := ScanAll(recs, bcd);
            s.first <= s.kept[k][POINT] <= s.last
            <==> forall j | Sources(recs, bcd)[k] <= j < |recs| :: !Raises(recs, bcd, j)
  {
    KeptAreChosen(recs, bcd);
    BoundsGrow(recs, bcd, Sources(recs, bcd)[k], |recs|);
    assert recs[..|recs|] == recs;
  }

  /** With a second session the first track number of the header is that session's, past kept tracks. */
  lemma SecondSessionRaisesFirst(recs: seq<Rec>)
    requires recs == [
      [1, 0x14, 0, 0xa0, 0, 0, 0, 0, 1, 0, 0], [1, 0x14, 0, 0xa1, 0, 0, 0, 0, 1, 0, 0],
      [1, 0x14, 0, 0xa2, 0, 0, 0, 0, 9, 0, 0], [1, 0x14, 0, 1, 0, 0, 0, 0, 0, 2, 0],
      [2, 0x14, 0, 0xa0, 0, 0, 0, 0, 2, 0, 0]]
    ensures var s := ScanAll(recs, false); |s.kept| == 1 && s.kept[0][POINT] == 1 && s.first == 2
  {
    assert recs[..1][..0] == [] && recs[..2][..1] == recs[..1] && recs[..3][..2] == recs[..2];
    assert recs[..4][..3] == recs[..3];
    assert DvdLba(recs[2]) == 40500 && DvdLba(recs[3]) == 150;
    assert ScanAll(recs[..1], false) == Scan(1, 0, 1, 0, 0, 0, []);
    assert ScanAll(recs[..2], false) == Scan(1, 1, 1, 0, 0, 0, []);
    assert ScanAll(recs[..3], false) == Scan(1, 1, 1, 0, 40500, 40500, []);
    assert ScanAll(recs[..4], false) == Scan(1, 1, 1, 150, 40500, 40500, [recs[3]]);
  }

  // ------------------------------------------------------------------ tracks behind the lead-out

  /** A record moves the lead-out up to the position it gives. */
  predicate SetsLeadOut(s: Scan, r: Rec, bcd: bool) { r[POINT] == 0xa2 && DvdLba(Decoded(r, bcd)) > s.leadout }

  /** A track of the current session, in range, starts behind the lead-out, which is corrected for it. */
  predicate CorrectsLeadOut(s: Scan, r: Rec, bcd: bool) {
    var t := Track(r, bcd);
    !Special(r[POINT]) && t[SESSION] == s.session && s.first <= t[POINT] <= s.last && s.leadout < DvdLba(t)
  }

  predicate Sets(recs: seq<Rec>, bcd: bool, i: nat)
    requires i < |recs|
  {
    SetsLeadOut(ScanAll(recs[..i], bcd), recs[i], bcd)
  }

  predicate Corrects(recs: seq<Rec>, bcd: bool, i: nat)
    requires i < |recs|
  {
    CorrectsLeadOut(ScanAll(recs[..i], bcd), recs[i], bcd)
  }

  /** The lead-out is the one last set, or was corrected for the track kept last. */
  ghost predicate LeadOutOk(s: Scan) {
    && Ordered(s)
    && (s.kept != [] ==> DvdLba(s.kept[|s.kept| - 1]) == s.lastStart)
    && (s.kept == [] ==> s.lastStart == 0)
    && (s.leadout == s.leadoutOrig || (s.kept != [] && s.leadoutOrig < s.lastStart && s.leadout == s.lastStart + 1))
  }

  lemma KeepLeadOut(s: Scan, t: Rec)
    requires LeadOutOk(s)
    ensures var s' := KeepTrack(s, t);
            && LeadOutOk(s') && s'.leadoutOrig == s.leadoutOrig
            && if s.first <= t[POINT] <= s.last && s.leadout < DvdLba(t) then s'.leadout != s'.leadoutOrig
               else s'.leadout == s.leadout
  {
    KeepOrdered(s, t);
  }

  /** The lead-out is set to a new position, or nothing about lead-outs and kept tracks changes. */
  lemma SetLeadOut(s: Scan, s': Scan, moved: bool)
    requires LeadOutOk(s) && s'.kept == s.kept && s'.lastStart == s.lastStart
    requires if moved then s'.leadout == s'.leadoutOrig > s.leadout
             else s'.leadout == s.leadout && s'.leadoutOrig == s.leadoutOrig
    ensures LeadOutOk(s')
  {
    LaterLeadOut(s, s');
  }

  /** What a record does to the two lead-outs. */
  lemma LeadOutStep(s: Scan, r: Rec, bcd: bool)
    requires LeadOutOk(s)
    ensures var s' := Step(s, r, bcd);
            && LeadOutOk(s')
            && (s'.leadout == s'.leadoutOrig <==>
                  SetsLeadOut(s, r, bcd) || (!CorrectsLeadOut(s, r, bcd) && s.leadout == s.leadoutOrig))
  {
    if Special(r[POINT]) {
      SetLeadOut(s, Step(s, r, bcd), SetsLeadOut(s, r, bcd));
    } else {
      KeepLeadOut(s, Track(r, bcd));
    }
  }

  type Marks = nat -> bool

  /** Every correction before `m` was followed by a record before `m` that sets the lead-out behind it. */
  ghost predicate Followed(corrects: Marks, sets: Marks, m: nat) {
    forall i | 0 <= i < m && corrects(i) :: SetAfter(sets, i, m)
  }

  ghost predicate SetAfter(sets: Marks, i: nat, m: nat) { exists j: nat | i < j < m :: sets(j) }

  lemma FollowedStep(corrects: Marks, sets: Marks, m: nat)
    requires m > 0 && !(corrects(m - 1) && sets(m - 1))
    ensures Followed(corrects, sets, m) <==>
              sets(m - 1) || (!corrects(m - 1) && Followed(corrects, sets, m - 1))
  {
    if sets(m - 1) {
      forall i | 0 <= i < m && corrects(i)
        ensures SetAfter(sets, i, m)
      {
        assert i < m - 1;
      }
    } else {
      forall i: nat | i < m - 1
        ensures SetAfter(sets, i, m) == SetAfter(sets, i, m - 1)
      {
      }
    }
  }

  /** Every record for which the lead-out was corrected is followed by one that sets it. */
  ghost predicate Superseded(recs: seq<Rec>, bcd: bool, m: nat)
    requires m <= |recs|
  {
    Followed((i: nat) => i < |recs| && Corrects(recs, bcd, i), (j: nat) => j < |recs| && Sets(recs, bcd, j), m)
  }

  lemma NotBoth(recs: seq<Rec>, bcd: bool, i: nat)
    requires i < |recs|
    ensures !(Corrects(recs, bcd, i) && Sets(recs, bcd, i))
  {
  }

  lemma {:induction false} LeadOutSoFar(recs: seq<Rec>, bcd: bool, m: nat)
    requires m <= |recs|
    ensures var s := ScanAll(recs[..m], bcd);
            LeadOutOk(s) && (s.leadout == s.leadoutOrig <==> Superseded(recs, bcd, m))
  {
    if m > 0 {
      LeadOutSoFar(recs, bcd, m - 1);
      ScanNext(recs, bcd, m);
      LeadOutStep(ScanAll(recs[..m - 1], bcd), recs[m - 1], bcd);
      NotBoth(recs, bcd, m - 1);
      FollowedStep((i: nat) => i < |recs| && Corrects(recs, bcd, i), (j: nat) => j < |recs| && Sets(recs, bcd, j), m);
    }
  }

  /**
   All kept tracks start before the lead-out that is written if and only if every record for which the
   lead-out was corrected is followed by one that sets it.
   */
  lemma TracksBeforeLeadOutIff(recs: seq<Rec>, bcd: bool)
    ensures var s := ScanAll(recs, bcd);
            (forall k | 0 <= k < |s.kept| :: DvdLba(s.kept[k]) < s.leadoutOrig) <==> Superseded(recs, bcd, |recs|)
  {
    LeadOutSoFar(recs, bcd, |recs|);
    assert recs[..|recs|] == recs;
    var s := ScanAll(recs, bcd);
    if s.leadout != s.leadoutOrig {
      assert DvdLba(s.kept[|s.kept| - 1]) == s.lastStart;
    }
  }

  /** A track two minutes in, with the lead-out at one minute. */
  lemma TrackBehindLeadOut(recs: seq<Rec>)
    requires recs == [
      [1, 0x14, 0, 0xa0, 0, 0, 0, 0, 1, 0, 0], [1, 0x14, 0, 0xa1, 0, 0, 0, 0, 1, 0, 0],
      [1, 0x14, 0, 0xa2, 0, 0, 0, 0, 1, 0, 0], [1, 0x14, 0, 1, 0, 0, 0, 0, 2, 0, 0]]
    ensures var s := ScanAll(recs, false); |s.kept| == 1 && DvdLba(s.kept[0]) == 9000 && s.leadoutOrig == 4500
  {
    assert recs[..1][..0] == [] && recs[..2][..1] == recs[..1] && recs[..3][..2] == recs[..2];
    assert DvdLba(recs[2]) == 4500 && DvdLba(recs[3]) == 9000;
    assert ScanAll(recs[..1], false) == Scan(1, 0, 1, 0, 0, 0, []);
    assert ScanAll(recs[..2], false) == Scan(1, 1, 1, 0, 0, 0, []);
    assert ScanAll(recs[..3], false) == Scan(1, 1, 1, 0, 4500, 4500, []);
  }

  // ------------------------------------------------------------------ the lead-out record

  /** The record patched in behind the kept ones; its fields are unsigned chars. */
  function LeadOut(session: nat, orig: nat): Rec {
    [session % 256, 0x10, 0, 0xaa, 0, 0, 0, (orig / 1053696) % 256, (orig / 4500) % 100, (orig / 75) % 60, orig % 75]
  }

  lemma SplitMsf(orig: nat)
    ensures orig == 4500 * (orig / 4500) + 75 * ((orig / 75) % 60) + orig % 75
  {
    assert (orig / 75) / 60 == orig / 4500;
  }

  /** 1053696 and 450000 have no common multiple among the values of the zero byte. */
  lemma NoCommonMultiple(z: nat, q: nat)
    requires 0 < z < 256
    ensures z * 1053696 != 450000 * q
  {
  }

  /** The lead-out position survives exactly below 100 minutes. */
  lemma LeadOutDecodes(session: nat, orig: nat)
    ensures DvdLba(LeadOut(session, orig)) == orig <==> orig < 450000
  {
    var m, z := orig / 4500, (orig / 1053696) % 256;
    SplitMsf(orig);
    assert m == 100 * (m / 100) + m % 100;
    if z > 0 {
      NoCommonMultiple(z, m / 100);
    }
  }
}
