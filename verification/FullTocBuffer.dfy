/** collect_tracks on the buffer: filtering, compacting and reformatting records in place. */
module FullTocBuffer {
  import opened Bytes
  import opened FullToc

  /** Record `i` of the buffer, behind the four header bytes. */
  function Record(s: seq<Byte>, i: nat): Rec
    requires 4 + 11 * i + 11 <= |s|
  {
    s[4 + 11 * i..4 + 11 * i + 11]
  }

  function Put(s: seq<Byte>, i: nat, r: Rec): (t: seq<Byte>)
    requires 4 + 11 * i + 11 <= |s|
    ensures |t| == |s|
  {
    s[..4 + 11 * i] + r + s[4 + 11 * i + 11..]
  }

  /** The buffer while the records are scanned: the kept ones in front, those from `i` on untouched. */
  ghost predicate Holds(s: seq<Byte>, recs: seq<Rec>, i: nat, kept: seq<Rec>) {
    && |kept| <= i <= |recs| && 4 + 11 * (|recs| + 1) <= |s|
    && (forall k | 0 <= k < |kept| :: Record(s, k) == kept[k])
    && (forall k | i <= k < |recs| :: Record(s, k) == recs[k])
  }

  lemma RecordOfPut(s: seq<Byte>, i: nat, r: Rec, k: nat)
    requires 4 + 11 * i + 11 <= |s| && 4 + 11 * k + 11 <= |s|
    ensures Record(Put(s, i, r), k) == if k == i then r else Record(s, k)
    ensures forall h | 0 <= h < 4 :: Put(s, i, r)[h] == s[h]
  {
  }

  /** Decoding record `i` does not disturb what is held elsewhere. */
  lemma HoldsDecoded(s: seq<Byte>, recs: seq<Rec>, i: nat, kept: seq<Rec>, r: Rec)
    requires Holds(s, recs, i, kept) && i < |recs|
    ensures Holds(Put(s, i, r), recs, i + 1, kept) && Record(Put(s, i, r), i) == r
  {
    forall k | 0 <= k < |recs|
      ensures Record(Put(s, i, r), k) == if k == i then r else Record(s, k)
    {
      RecordOfPut(s, i, r, k);
    }
  }

  /** Moving a record to the front part appends it to the kept ones. */
  lemma HoldsKept(s: seq<Byte>, recs: seq<Rec>, i: nat, kept: seq<Rec>, r: Rec)
    requires Holds(s, recs, i, kept) && |kept| < i
    ensures Holds(Put(s, |kept|, r), recs, i, kept + [r])
  {
    forall k | 0 <= k < |recs|
      ensures Record(Put(s, |kept|, r), k) == if k == |kept| then r else Record(s, k)
    {
      RecordOfPut(s, |kept|, r, k);
    }
  }

  // ------------------------------------------------------------------ steps on one record

  /** A buffer that differs from `s` in record `i` only, where it has the bytes of `r`. */
  lemma PutUnique(s: seq<Byte>, t: seq<Byte>, i: nat, r: Rec)
    requires |t| == |s| && 4 + 11 * i + 11 <= |s|
    requires forall k | 0 <= k < 11 :: t[4 + 11 * i + k] == r[k]
    requires forall k | 0 <= k < |s| && !(4 + 11 * i <= k < 4 + 11 * i + 11) :: t[k] == s[k]
    ensures t == Put(s, i, r)
  {
    var at := 4 + 11 * i;
    forall k | 0 <= k < |s|
      ensures t[k] == Put(s, i, r)[k]
    {
      if at <= k < at + 11 {
        assert t[at + (k - at)] == r[k - at];
      }
    }
  }

  /** from_bcd on the three bytes of an address. */
  method DecodeAddress(b: array<Byte>, at: nat)
    requires at + 3 <= b.Length
    modifies b
    ensures forall k | 0 <= k < b.Length :: b[k] == if at <= k < at + 3 then FromBcd(old(b[k])) else old(b[k])
  {
    b[at] := FromBcd(b[at]);
    b[at + 1] := FromBcd(b[at + 1]);
    b[at + 2] := FromBcd(b[at + 2]);
  }

  /** from_bcd on the session and the two addresses. */
  method DecodeRecord(b: array<Byte>, i: nat, bcd: bool)
    requires 4 + 11 * i + 11 <= b.Length
    modifies b
    ensures b[..] == Put(old(b[..]), i, Decoded(Record(old(b[..]), i), bcd))
  {
    var at := 4 + 11 * i;
    ghost var s, r := b[..], Record(b[..], i);
    assert forall k | 0 <= k < 11 :: r[k] == s[at + k];
    if bcd {
      b[at] := FromBcd(b[at]);
      DecodeAddress(b, at + 4);
      DecodeAddress(b, at + 8);
    }
    ghost var d := Decoded(r, bcd);
    assert b[at] == d[0] && b[at + 1] == d[1] && b[at + 2] == d[2] && b[at + 3] == d[3] && b[at + 4] == d[4];
    assert b[at + 5] == d[5] && b[at + 6] == d[6] && b[at + 7] == d[7] && b[at + 8] == d[8] && b[at + 9] == d[9];
    assert b[at + 10] == d[10];
    PutUnique(s, b[..], i, d);
  }

  /** from_bcd on the point. */
  method DecodePoint(b: array<Byte>, i: nat, bcd: bool)
    requires 4 + 11 * i + 11 <= b.Length
    modifies b
    ensures b[..] == Put(old(b[..]), i, WithPoint(Record(old(b[..]), i), bcd))
  {
    if bcd {
      b[4 + 11 * i + 3] := FromBcd(b[4 + 11 * i + 3]);
    }
  }

  /** memcpy of a whole record. */
  method CopyRecord(b: array<Byte>, to: nat, from: nat)
    requires 4 + 11 * to + 11 <= b.Length && 4 + 11 * from + 11 <= b.Length
    modifies b
    ensures b[..] == Put(old(b[..]), to, Record(old(b[..]), from))
  {
    forall k | 0 <= k < 11 {
      b[4 + 11 * to + k] := b[4 + 11 * from + k];
    }
  }

  method PatchLeadOut(b: array<Byte>, i: nat, session: nat, orig: nat)
    requires 4 + 11 * i + 11 <= b.Length
    modifies b
    ensures b[..] == Put(old(b[..]), i, LeadOut(session, orig))
  {
    var at := 4 + 11 * i;
    ghost var s := b[..];
    b[at], b[at + 1], b[at + 2], b[at + 3] := session % 256, 0x10, 0, 0xaa;
    b[at + 4], b[at + 5], b[at + 6] := 0, 0, 0;
    b[at + 7] := (orig / 1053696) % 256;
    b[at + 8] := (orig / (60 * 75)) % 100;
    b[at + 9] := (orig / 75) % 60;
    b[at + 10] := orig % 75;
    PutUnique(s, b[..], i, LeadOut(session, orig));
  }

  // ------------------------------------------------------------------ the scan

  /** The header bytes and the local variables agree with the scan. */
  ghost predicate Agrees(s: seq<Byte>, v: Scan, session: nat, lastStart: nat, leadout: nat, orig: nat, tracks: nat) {
    && |s| >= 4 && s[2] == v.first && s[3] == v.last
    && session == v.session && lastStart == v.lastStart && leadout == v.leadout && orig == v.leadoutOrig
    && tracks == |v.kept|
  }

  /** Moves an accepted record behind the kept ones. */
  method Accept(b: array<Byte>, i: nat, tracks: nat, ghost recs: seq<Rec>, ghost kept: seq<Rec>, ghost t: Rec)
    requires i < |recs| && Holds(b[..], recs, i + 1, kept) && tracks == |kept| <= i && Record(b[..], i) == t
    modifies b
    ensures Holds(b[..], recs, i + 1, kept + [t])
    ensures b[2] == old(b[2]) && b[3] == old(b[3])
  {
    ghost var s := b[..];
    CopyRecord(b, tracks, i);
    HoldsKept(s, recs, i + 1, kept, t);
    RecordOfPut(s, tracks, t, tracks);
    assert b[..][2] == s[2] && b[..][3] == s[3];
  }

  /** The branch for track records: checks the number and the start, corrects an illegal lead-out. */
  method KeepRecord(b: array<Byte>, i: nat, lastStart0: nat, leadout0: nat, tracks0: nat,
                    ghost recs: seq<Rec>, ghost v: Scan, ghost t: Rec)
    returns (lastStart: nat, leadout: nat, tracks: nat)
    requires i < |recs| && Holds(b[..], recs, i + 1, v.kept) && |v.kept| <= i && Record(b[..], i) == t
    requires Agrees(b[..], v, v.session, lastStart0, leadout0, v.leadoutOrig, tracks0)
    modifies b
    ensures var v' := KeepTrack(v, t);
            && Holds(b[..], recs, i + 1, v'.kept)
            && Agrees(b[..], v', v.session, lastStart, leadout, v.leadoutOrig, tracks)
  {
    lastStart, leadout, tracks := lastStart0, leadout0, tracks0;
    var at := 4 + 11 * i;
    assert t[POINT] == b[at + 3];
    if b[at + 3] < b[2] || b[at + 3] > b[3] {
      return;
    }
    var trackstart := DvdLbaAt(b, i);
    if leadout < trackstart {
      leadout := trackstart + 1;
    }
    if trackstart < lastStart || trackstart >= leadout {
      return;
    }
    lastStart := trackstart;
    Accept(b, i, tracks, recs, v.kept, t);
    tracks := tracks + 1;
  }

  /** dvd_lba of the second address of record `i`. */
  method DvdLbaAt(b: array<Byte>, i: nat) returns (lba: nat)
    requires 4 + 11 * i + 11 <= b.Length
    ensures lba == DvdLba(Record(b[..], i))
  {
    var at := 4 + 11 * i + 7;
    lba := b[at] as int * 1053696 + b[at + 1] as int * 60 * 75 + b[at + 2] as int * 75 + b[at + 3] as int;
  }

  lemma HoldsAgain(s: seq<Byte>, recs: seq<Rec>, i: nat, kept: seq<Rec>, r: Rec)
    requires Holds(s, recs, i + 1, kept) && i < |recs| && |kept| <= i
    ensures Holds(Put(s, i, r), recs, i + 1, kept) && Record(Put(s, i, r), i) == r
    ensures forall h | 0 <= h < 4 :: Put(s, i, r)[h] == s[h]
  {
    forall k | 0 <= k < |recs|
      ensures Record(Put(s, i, r), k) == if k == i then r else Record(s, k)
    {
      RecordOfPut(s, i, r, k);
    }
  }

  /** The body of the first loop: one record. */
  method ScanRecord(b: array<Byte>, i: nat, bcd: bool, ghost recs: seq<Rec>, ghost v: Scan,
                    session0: nat, lastStart0: nat, leadout0: nat, orig0: nat, tracks0: nat)
    returns (session: nat, lastStart: nat, leadout: nat, orig: nat, tracks: nat)
    requires i < |recs| && Holds(b[..], recs, i, v.kept)
    requires Agrees(b[..], v, session0, lastStart0, leadout0, orig0, tracks0)
    modifies b
    ensures var v' := Step(v, recs[i], bcd);
            Holds(b[..], recs, i + 1, v'.kept) && Agrees(b[..], v', session, lastStart, leadout, orig, tracks)
  {
    session, lastStart, leadout, orig, tracks := session0, lastStart0, leadout0, orig0, tracks0;
    ghost var s, d := b[..], Decoded(recs[i], bcd);
    var at := 4 + 11 * i;
    DecodeRecord(b, i, bcd);
    HoldsDecoded(s, recs, i, v.kept, d);
    RecordOfPut(s, i, d, i);
    assert b[at..at + 11] == d;
    var point, mins := b[at + 3], b[at + 8];
    assert point == d[3] == recs[i][POINT] && mins == d[PMIN] && b[at] == d[SESSION];
    if point == 0xa0 {
      if session + 1 == b[at] as int {
        session := b[at] as int;
      }
      if b[2] < mins && b[3] < mins {
        SetHeader(b, 2, mins, recs, i + 1, v.kept);
      }
    } else if point == 0xa1 {
      if b[2] <= mins && b[3] < mins {
        SetHeader(b, 3, mins, recs, i + 1, v.kept);
      }
    } else if point == 0xa2 {
      var tmp := DvdLbaAt(b, i);
      if tmp > leadout {
        leadout, orig := tmp, tmp;
      }
    } else if Special(point) {
      // next program area and skip information
    } else if session == b[at] as int {
      DecodePoint(b, i, bcd);
      HoldsAgain(Put(s, i, d), recs, i, v.kept, WithPoint(d, bcd));
      lastStart, leadout, tracks := KeepRecord(b, i, lastStart, leadout, tracks, recs, v, WithPoint(d, bcd));
    }
  }

  method SetHeader(b: array<Byte>, h: nat, value: Byte, ghost recs: seq<Rec>, ghost i: nat, ghost kept: seq<Rec>)
    requires h < 4 && Holds(b[..], recs, i, kept)
    modifies b
    ensures b[..] == old(b[..])[h := value] && Holds(b[..], recs, i, kept)
  {
    ghost var s := b[..];
    b[h] := value;
    assert forall k | 0 <= k < |recs| :: Record(b[..], k) == Record(s, k);
  }

  // ------------------------------------------------------------------ eleven bytes to eight

  /** (x >> 4) | (x << 4) in an unsigned char. */
  function SwapNibbles(x: Byte): Byte { x / 16 + 16 * (x % 16) }

  /** The standard form of a record: reserved, adr/control, track, reserved, start. */
  function Short(r: Rec): (t: seq<Byte>)
    ensures |t| == 8 && t[1] % 16 == r[1] / 16 && t[1] / 16 == r[1] % 16
  {
    [0, SwapNibbles(r[1]), r[3], 0, r[7], r[8], r[9], r[10]]
  }

  /** The eight bytes, in the order in which they are written. */
  method ShortenRecord(b: array<Byte>, i: nat)
    requires 4 + 11 * i + 11 <= b.Length
    modifies b
    ensures b[4 + 8 * i..4 + 8 * i + 8] == Short(Record(old(b[..]), i))
    ensures b[..4 + 8 * i] == old(b[..4 + 8 * i])
    ensures b[4 + 8 * i + 8..] == old(b[4 + 8 * i + 8..])
  {
    var to, from := 4 + 8 * i, 4 + 11 * i;
    ghost var s, r := b[..], Record(b[..], i);
    assert r[1] == s[from + 1] && r[3] == s[from + 3] && r[7] == s[from + 7];
    assert r[8] == s[from + 8] && r[9] == s[from + 9] && r[10] == s[from + 10];
    ShortenHead(b, to, from);
    ShortenTail(b, to, from);
    assert b[to..to + 8] == [b[to], b[to + 1], b[to + 2], b[to + 3], b[to + 4], b[to + 5], b[to + 6], b[to + 7]];
  }

  method ShortenHead(b: array<Byte>, to: nat, from: nat)
    requires to <= from && from + 11 <= b.Length
    modifies b
    ensures b[to] == 0 && b[to + 1] == SwapNibbles(old(b[from + 1]))
    ensures b[to + 2] == old(b[from + 3]) && b[to + 3] == 0
    ensures forall k | 0 <= k < b.Length && !(to <= k < to + 4) :: b[k] == old(b[k])
  {
    b[to] := 0;
    b[to + 1] := b[from + 1];
    b[to + 1] := SwapNibbles(b[to + 1]);
    b[to + 2] := b[from + 3];
    b[to + 3] := 0;
  }

  method ShortenTail(b: array<Byte>, to: nat, from: nat)
    requires to <= from && from + 11 <= b.Length
    modifies b
    ensures b[to + 4] == old(b[from + 7]) && b[to + 5] == old(b[from + 8])
    ensures b[to + 6] == old(b[from + 9]) && b[to + 7] == old(b[from + 10])
    ensures forall k | 0 <= k < b.Length && !(to + 4 <= k < to + 8) :: b[k] == old(b[k])
  {
    b[to + 4] := b[from + 7];
    b[to + 5] := b[from + 8];
    b[to + 6] := b[from + 9];
    b[to + 7] := b[from + 10];
  }

  ghost predicate Shortened(s: seq<Byte>, recs: seq<Rec>, i: nat) {
    && i <= |recs| && 4 + 11 * |recs| <= |s|
    && (forall k | 0 <= k < i :: s[4 + 8 * k..4 + 8 * k + 8] == Short(recs[k]))
    && (forall k | i <= k < |recs| :: Record(s, k) == recs[k])
  }

  lemma ShortenedMore(s: seq<Byte>, t: seq<Byte>, recs: seq<Rec>, i: nat)
    requires Shortened(s, recs, i) && i < |recs| && |t| == |s|
    requires t[4 + 8 * i..4 + 8 * i + 8] == Short(recs[i])
    requires t[..4 + 8 * i] == s[..4 + 8 * i] && t[4 + 8 * i + 8..] == s[4 + 8 * i + 8..]
    ensures Shortened(t, recs, i + 1)
  {
    forall k | 0 <= k < i
      ensures t[4 + 8 * k..4 + 8 * k + 8] == Short(recs[k])
    {
      assert t[4 + 8 * k..4 + 8 * k + 8] == t[..4 + 8 * i][4 + 8 * k..4 + 8 * k + 8];
      assert s[4 + 8 * k..4 + 8 * k + 8] == s[..4 + 8 * i][4 + 8 * k..4 + 8 * k + 8];
    }
    var c := 4 + 8 * i + 8;
    forall k | i < k < |recs|
      ensures Record(t, k) == recs[k]
    {
      assert Record(t, k) == t[c..][4 + 11 * k - c..4 + 11 * k - c + 11];
      assert Record(s, k) == s[c..][4 + 11 * k - c..4 + 11 * k - c + 11];
    }
  }

  /**
   Entry `k` of the short form: adr and control change places, then the track number, and four bytes of
   the start; the first and the fourth byte are reserved.
   */
  ghost predicate Entry(s: seq<Byte>, k: nat, adrctl: Byte, track: nat, start: seq<nat>) {
    && 4 + 8 * k + 8 <= |s| && |start| == 4
    && s[4 + 8 * k] == 0 && s[4 + 8 * k + 3] == 0
    && s[4 + 8 * k + 1] % 16 == adrctl / 16 && s[4 + 8 * k + 1] / 16 == adrctl % 16
    && s[4 + 8 * k + 2] == track
    && s[4 + 8 * k + 4] == start[0] && s[4 + 8 * k + 5] == start[1]
    && s[4 + 8 * k + 6] == start[2] && s[4 + 8 * k + 7] == start[3]
  }

  lemma ShortBytes(s: seq<Byte>, k: nat, t: Rec)
    requires 4 + 8 * k + 8 <= |s| && s[4 + 8 * k..4 + 8 * k + 8] == Short(t)
    ensures Entry(s, k, t[1], t[3], [t[7], t[8], t[9], t[10]])
  {
    var e := s[4 + 8 * k..4 + 8 * k + 8];
    assert s[4 + 8 * k] == e[0] && s[4 + 8 * k + 1] == e[1] && s[4 + 8 * k + 2] == e[2] && s[4 + 8 * k + 3] == e[3];
    assert s[4 + 8 * k + 4] == e[4] && s[4 + 8 * k + 5] == e[5] && s[4 + 8 * k + 6] == e[6] && s[4 + 8 * k + 7] == e[7];
  }

  /** The second loop: reading and writing the same buffer gives what converting from a copy would. */
  method Reformat(b: array<Byte>, tracks: nat, ghost recs: seq<Rec>)
    requires Shortened(b[..], recs, 0) && tracks == |recs|
    modifies b
    ensures Shortened(b[..], recs, tracks) && b[..4] == old(b[..4])
    ensures forall k | 0 <= k < tracks ::
              Entry(b[..], k, recs[k][1], recs[k][3], [recs[k][7], recs[k][8], recs[k][9], recs[k][10]])
  {
    for i := 0 to tracks
      invariant Shortened(b[..], recs, i) && b[..4] == old(b[..4])
    {
      ghost var s := b[..];
      ShortenRecord(b, i);
      assert b[..4] == b[..4 + 8 * i][..4] && s[..4] == s[..4 + 8 * i][..4];
      ShortenedMore(s, b[..], recs, i);
    }
    forall k | 0 <= k < tracks
      ensures Entry(b[..], k, recs[k][1], recs[k][3], [recs[k][7], recs[k][8], recs[k][9], recs[k][10]])
    {
      ShortBytes(b[..], k, recs[k]);
    }
  }

  // ------------------------------------------------------------------ all of it

  ghost function Records(s: seq<Byte>, n: nat): (recs: seq<Rec>)
    requires 4 + 11 * n <= |s|
    ensures |recs| == n
  {
    seq(n, i requires 0 <= i < n => Record(s, i))
  }

  // ------------------------------------------------------------------ the result, byte by byte

  /** The two hexadecimal digits of `x` as decimal digits. */
  function FromDigits(x: Byte, bcd: bool): nat { if bcd then 10 * (x / 16) + x % 16 else x }

  /** Entry `k` is made of record `r` as it was read. */
  ghost predicate EntryOf(s: seq<Byte>, k: nat, r: Rec, bcd: bool) {
    Entry(s, k, r[1], FromDigits(r[3], bcd),
          [r[7], FromDigits(r[8], bcd), FromDigits(r[9], bcd), FromDigits(r[10], bcd)])
  }

  /** The last entry: track 0xAA with adr 1 and control 0, at the lead-out position. */
  ghost predicate LeadOutEntry(s: seq<Byte>, k: nat, orig: nat) {
    && 4 + 8 * k + 8 <= |s|
    && s[4 + 8 * k..4 + 8 * k + 4] == [0, 0x01, 0xAA, 0]
    && s[4 + 8 * k + 5] < 100 && s[4 + 8 * k + 6] < 60 && s[4 + 8 * k + 7] < 75
    && (orig < 450000 ==>
          s[4 + 8 * k + 4] as int * 1053696 + s[4 + 8 * k + 5] as int * 4500
          + s[4 + 8 * k + 6] as int * 75 + s[4 + 8 * k + 7] as int == orig)
  }

  /** The result consists of entries for the records kept, in their order, and one for the lead-out. */
  ghost predicate Standard(s: seq<Byte>, recs: seq<Rec>, bcd: bool, tracks: nat) {
    var from := Sources(recs, bcd);
    && tracks == |from| + 1
    && (forall k | 0 <= k < |from| :: from[k] < |recs| && EntryOf(s, k, recs[from[k]], bcd))
    && LeadOutEntry(s, |from|, ScanAll(recs, bcd).leadoutOrig)
  }

  lemma TrackEntry(s: seq<Byte>, k: nat, r: Rec, bcd: bool)
    requires 4 + 8 * k + 8 <= |s| && s[4 + 8 * k..4 + 8 * k + 8] == Short(Track(r, bcd))
    ensures EntryOf(s, k, r, bcd)
  {
    ShortBytes(s, k, Track(r, bcd));
  }

  lemma LastEntry(s: seq<Byte>, k: nat, session: nat, orig: nat)
    requires 4 + 8 * k + 8 <= |s| && s[4 + 8 * k..4 + 8 * k + 8] == Short(LeadOut(session, orig))
    ensures LeadOutEntry(s, k, orig)
  {
    ShortBytes(s, k, LeadOut(session, orig));
    LeadOutDecodes(session, orig);
  }

  lemma EntriesStandard(s: seq<Byte>, recs: seq<Rec>, bcd: bool, kept: seq<Rec>, from: seq<nat>, last: Rec, tracks: nat)
    requires Shortened(s, kept + [last], tracks) && tracks == |kept| + 1 && Chosen(kept, recs, bcd, from)
    ensures forall k | 0 <= k < |from| :: EntryOf(s, k, recs[from[k]], bcd)
    ensures s[4 + 8 * |from|..4 + 8 * |from| + 8] == Short(last)
  {
    var result := kept + [last];
    forall k | 0 <= k < |from|
      ensures EntryOf(s, k, recs[from[k]], bcd)
    {
      assert result[k] == Track(recs[from[k]], bcd);
      TrackEntry(s, k, recs[from[k]], bcd);
    }
    assert result[|from|] == last;
  }

  lemma ShortenedIsStandard(s: seq<Byte>, recs: seq<Rec>, bcd: bool, v: Scan, tracks: nat)
    requires v == ScanAll(recs, bcd) && tracks == |v.kept| + 1
    requires Shortened(s, v.kept + [LeadOut(v.session, v.leadoutOrig)], tracks)
    ensures Standard(s, recs, bcd, tracks)
  {
    KeptAreChosen(recs, bcd);
    EntriesStandard(s, recs, bcd, v.kept, Sources(recs, bcd), LeadOut(v.session, v.leadoutOrig), tracks);
    LastEntry(s, |v.kept|, v.session, v.leadoutOrig);
  }

  /** Clearing the two track numbers in the header leaves the records alone. */
  lemma HeaderCleared(s: seq<Byte>, n: nat, recs: seq<Rec>)
    requires 4 + 11 * (n + 1) <= |s| && recs == Records(s, n)
    ensures Holds(s[2 := 0][3 := 0], recs, 0, [])
  {
    forall k | 0 <= k < n
      ensures Record(s[2 := 0][3 := 0], k) == recs[k]
    {
    }
  }

  /** collect_tracks: there is room for one record more than were read. */
  method CollectTracks(b: array<Byte>, entries: nat, bcd: bool) returns (tracks: nat)
    requires 4 + 11 * (entries + 1) <= b.Length
    modifies b
    ensures Standard(b[..], Records(old(b[..]), entries), bcd, tracks) && tracks <= entries + 1
    ensures b[0] == ((8 * tracks + 2) / 256) % 256 && b[1] == (8 * tracks + 2) % 256
    ensures var v := ScanAll(Records(old(b[..]), entries), bcd); b[2] == v.first && b[3] == v.last
  {
    ghost var recs := Records(b[..], entries);
    HeaderCleared(b[..], entries, recs);
    b[2] := 0;
    b[3] := 0;
    tracks := Rewrite(b, entries, bcd, recs);
  }

  /** collect_tracks with the header cleared. */
  method Rewrite(b: array<Byte>, entries: nat, bcd: bool, ghost recs: seq<Rec>) returns (tracks: nat)
    requires Holds(b[..], recs, 0, []) && entries == |recs| && b[2] == b[3] == 0
    modifies b
    ensures Standard(b[..], recs, bcd, tracks) && tracks <= entries + 1
    ensures b[0] == ((8 * tracks + 2) / 256) % 256 && b[1] == (8 * tracks + 2) % 256
    ensures var v := ScanAll(recs, bcd); b[2] == v.first && b[3] == v.last
  {
    var session, orig;
    session, orig, tracks := ScanRecords(b, entries, bcd, recs);
    tracks := Finish(b, recs, ScanAll(recs, bcd), session, orig, tracks);
    ShortenedIsStandard(b[..], recs, bcd, ScanAll(recs, bcd), tracks);
  }

  /** The first loop. */
  method ScanRecords(b: array<Byte>, entries: nat, bcd: bool, ghost recs: seq<Rec>)
    returns (session: nat, orig: nat, tracks: nat)
    requires Holds(b[..], recs, 0, []) && entries == |recs| && b[2] == b[3] == 0
    modifies b
    ensures var v := ScanAll(recs, bcd);
            && Holds(b[..], recs, entries, v.kept) && b[2] == v.first && b[3] == v.last
            && session == v.session && orig == v.leadoutOrig && tracks == |v.kept|
  {
    var lastStart, leadout := 0, 0;
    session, orig, tracks := 0, 0, 0;
    ghost var v := START;
    for i := 0 to entries
      invariant v == ScanAll(recs[..i], bcd) && Holds(b[..], recs, i, v.kept)
      invariant Agrees(b[..], v, session, lastStart, leadout, orig, tracks)
    {
      assert recs[..i + 1][..i] == recs[..i];
      session, lastStart, leadout, orig, tracks :=
        ScanRecord(b, i, bcd, recs, v, session, lastStart, leadout, orig, tracks);
      v := Step(v, recs[i], bcd);
    }
    assert recs[..entries] == recs;
  }

  /** Behind the first loop: the lead-out, the length, and the short form. */
  method Finish(b: array<Byte>, ghost recs: seq<Rec>, ghost v: Scan, session: nat, orig: nat, tracks0: nat)
    returns (tracks: nat)
    requires Holds(b[..], recs, |recs|, v.kept) && b[2] == v.first && b[3] == v.last
    requires session == v.session && orig == v.leadoutOrig && tracks0 == |v.kept|
    modifies b
    ensures tracks == tracks0 + 1 && Shortened(b[..], v.kept + [LeadOut(session, orig)], tracks)
    ensures b[0] == ((8 * tracks + 2) / 256) % 256 && b[1] == (8 * tracks + 2) % 256
    ensures b[2] == v.first && b[3] == v.last
  {
    ghost var result := v.kept + [LeadOut(session, orig)];
    AddLeadOut(b, tracks0, session, orig, recs, v.kept);
    tracks := tracks0 + 1;
    HeaderFrame(b[..], result, ((tracks * 8 + 2) / 256) % 256, (tracks * 8 + 2) % 256);
    b[0] := ((tracks * 8 + 2) / 256) % 256;
    b[1] := (tracks * 8 + 2) % 256;
    Reformat(b, tracks, result);
    assert b[..4][2] == v.first;
  }

  /** The lead-out becomes one more record. */
  method AddLeadOut(b: array<Byte>, tracks: nat, session: nat, orig: nat, ghost recs: seq<Rec>, ghost kept: seq<Rec>)
    requires Holds(b[..], recs, |recs|, kept) && tracks == |kept|
    modifies b
    ensures Shortened(b[..], kept + [LeadOut(session, orig)], 0)
    ensures b[2] == old(b[2]) && b[3] == old(b[3])
  {
    ghost var s, result := b[..], kept + [LeadOut(session, orig)];
    PatchLeadOut(b, tracks, session, orig);
    forall k | 0 <= k < |result|
      ensures Record(b[..], k) == result[k]
    {
      RecordOfPut(s, tracks, LeadOut(session, orig), k);
    }
    RecordOfPut(s, tracks, LeadOut(session, orig), 0);
    assert b[..][2] == s[2] && b[..][3] == s[3];
  }

  lemma HeaderFrame(s: seq<Byte>, recs: seq<Rec>, hi: Byte, lo: Byte)
    requires Shortened(s, recs, 0)
    ensures Shortened(s[0 := hi][1 := lo], recs, 0)
  {
    forall k | 0 <= k < |recs|
      ensures Record(s[0 := hi][1 := lo], k) == recs[k]
    {
    }
  }
}
