/**
 Packing CD-Text strings into packs (cdrecord/cdtext.c): fillpacks, fillup_pack, anytext and
 packtext over the buffer of packs they share.
 */
module CdTextPack {
  import opened Bytes
  import opened CdTextFormat
  import opened CdTextDisc
  import opened CdTextSequence

  /** The structure textsizes as far as it is not constant. */
  datatype TextSizes = TextSizes(firstTrack: Byte, lastTrack: Byte, packCount: seq<Byte>, lastSeqnum: Byte)

  // ------------------------------------------------------------------ the buffer while it is filled

  /** The complete packs of the current type, from number `start` up to `tp`. */
  ghost predicate Written(ps: seq<Pack>, start: nat, tp: nat, kind: Byte, cells: seq<Cell>) {
    && start <= tp <= |ps| && 12 * (tp - start) <= |cells|
    && forall k | 0 <= k < tp - start :: ps[start + k] == MakePack(kind, start + k, Chunk(cells, k))
  }

  /** The header that the first cell of a pack decides about. */
  ghost predicate Headed(pack: Pack, kind: Byte, seqNo: nat, head: Cell) {
    && pack.kind == kind && pack.track == head.track % 256 && pack.seqNo == seqNo % 256
    && pack.block == (if head.charPos < 15 then head.charPos else 15)
    && |pack.text| == 12
  }

  /** The pack begun last: its header, and the cells it holds so far. */
  ghost predicate Begun(pack: Pack, kind: Byte, seqNo: nat, cells: seq<Cell>, at: nat) {
    && at < |cells| <= at + 12
    && Headed(pack, kind, seqNo, cells[at])
    && pack.text[..|cells| - at] == Values(cells[at..])
  }

  lemma WrittenFrame(ps: seq<Pack>, qs: seq<Pack>, start: nat, tp: nat, kind: Byte, cells: seq<Cell>, more: seq<Cell>)
    requires Written(ps, start, tp, kind, cells)
    requires |qs| == |ps| && qs[..tp] == ps[..tp]
    ensures Written(qs, start, tp, kind, cells + more)
  {
    forall k | 0 <= k < tp - start
      ensures qs[start + k] == MakePack(kind, start + k, Chunk(cells + more, k))
    {
      assert Chunk(cells + more, k) == Chunk(cells, k);
      assert qs[start + k] == qs[..tp][start + k] == ps[..tp][start + k];
    }
  }

  /** A full pack, once closed, is the pack of its chunk. */
  lemma WrittenMore(ps: seq<Pack>, start: nat, tp: nat, kind: Byte, cells: seq<Cell>)
    requires Written(ps, start, tp, kind, cells) && tp < |ps|
    requires Begun(ps[tp], kind, tp, cells, 12 * (tp - start)) && ps[tp].closed
    requires |cells| == 12 * (tp - start) + 12
    ensures Written(ps, start, tp + 1, kind, cells)
  {
    assert Chunk(cells, tp - start) == cells[12 * (tp - start)..];
    assert ps[tp].text == ps[tp].text[..12];
    assert Zeros(0) == [];
    assert ps[tp] == MakePack(kind, tp, Chunk(cells, tp - start));
  }

  ghost predicate Sized(ps: seq<Pack>) { forall i | 0 <= i < |ps| :: |ps[i].text| == 12 }

  /** Bytes copied behind those of a begun or just headed pack. */
  lemma BegunMore(pack: Pack, kind: Byte, seqNo: nat, cells: seq<Cell>, more: seq<Cell>, at: nat)
    requires at <= |cells| && more != [] && |cells| + |more| <= at + 12
    requires Headed(pack, kind, seqNo, (cells + more)[at])
    requires pack.text[..|cells| + |more| - at] == Values(cells[at..]) + Values(more)
    ensures Begun(pack, kind, seqNo, cells + more, at)
  {
    assert Values((cells + more)[at..]) == Values(cells[at..]) + Values(more);
  }

  /** The packs after CopyText has moved `from[c0..c1]` behind the first `q` bytes of the open pack. */
  lemma CopyKeeps(ps: seq<Pack>, qs: seq<Pack>, start: nat, tp: nat, kind: Byte, cells: seq<Cell>,
                  from: seq<Byte>, trackNo: nat, c0: nat, c1: nat, q: nat, more: seq<Cell>)
    requires c0 < c1 <= |from| && q + c1 - c0 <= 12 && more == Cells(from, trackNo)[c0..c1]
    requires Written(ps, start, tp, kind, cells) && tp < |ps| && |cells| == 12 * (tp - start) + q
    requires |qs| == |ps| && |qs[tp].text| == 12 && qs == ps[tp := ps[tp].(text := qs[tp].text)]
    requires Headed(ps[tp], kind, tp, (cells + [Cell(from[c0], trackNo, c0)])[12 * (tp - start)])
    requires qs[tp].text[..q + c1 - c0] == Values(cells[12 * (tp - start)..]) + from[c0..c1]
    ensures Written(qs, start, tp, kind, cells + more)
    ensures Begun(qs[tp], kind, tp, cells + more, 12 * (tp - start))
  {
    var at := 12 * (tp - start);
    assert Values(more) == from[c0..c1];
    assert (cells + more)[at] == (cells + [Cell(from[c0], trackNo, c0)])[at];
    BegunMore(qs[tp], kind, tp, cells, more, at);
    WrittenFrame(ps, qs, start, tp, kind, cells, more);
  }

  /** `n` more packs of this type; the size packs are not counted. */
  function Counted(tsize: TextSizes, packType: Byte, n: nat): (r: TextSizes)
    requires |tsize.packCount| == 16
    ensures |r.packCount| == 16
  {
    var t := packType % 16;
    if packType == SIZE_KIND then tsize
    else
      var count: Byte := (tsize.packCount[t] + n) % 256;
      tsize.(packCount := tsize.packCount[t := count])
  }

  lemma CountedAgain(tsize: TextSizes, packType: Byte, n: nat)
    requires |tsize.packCount| == 16
    ensures Counted(tsize, packType, 0) == tsize
    ensures Counted(Counted(tsize, packType, n), packType, 1) == Counted(tsize, packType, n + 1)
  {
  }

  /** When the stream of a type ends, its packs are the complete ones and the padded open one. */
  lemma WrittenIsPacks(ps: seq<Pack>, start: nat, tp: nat, kind: Byte, cells: seq<Cell>)
    requires Written(ps, start, tp, kind, cells) && |cells| == 12 * (tp - start)
    ensures ps[..tp] == ps[..start] + Packs(kind, start, cells)
  {
    assert PackCount(|cells|) == tp - start;
    forall k | 0 <= k < tp - start
      ensures ps[start + k] == Packs(kind, start, cells)[k]
    {
      PacksAt(kind, start, cells, k);
    }
  }

  lemma PaddedIsPacks(ps: seq<Pack>, pad: Pack, start: nat, tp: nat, kind: Byte, cells: seq<Cell>, q: nat)
    requires Written(ps, start, tp, kind, cells) && tp < |ps| && 0 < q < 12 && |cells| == 12 * (tp - start) + q
    requires Begun(ps[tp], kind, tp, cells, 12 * (tp - start))
    requires pad == ps[tp].(text := ps[tp].text[..q] + Zeros(12 - q), closed := true)
    ensures ps[tp := pad][..tp + 1] == ps[..start] + Packs(kind, start, cells)
  {
    assert PackCount(|cells|) == tp - start + 1;
    assert pad == MakePack(kind, tp, Chunk(cells, tp - start));
    forall k | 0 <= k <= tp - start
      ensures ps[tp := pad][start + k] == Packs(kind, start, cells)[k]
    {
      PacksAt(kind, start, cells, k);
    }
  }

  lemma NextCells(before: seq<Cell>, all: seq<Cell>, c0: nat, c1: nat)
    requires c0 <= c1 <= |all|
    ensures before + all[..c0] + all[c0..c1] == before + all[..c1]
    ensures c1 == |all| ==> before + all[..c1] == before + all
  {
    assert all[..c1] == all[..c0] + all[c0..c1];
    assert c1 == |all| ==> all[..c1] == all;
  }

  /** txtarg_t, with the buffer of packs it points into. */
  class TextArgs {
    const packs: array<Pack>
    var tp: nat
    var p: Option<nat>
    var seqno: nat
    var tsize: TextSizes

    /** The type being packed: its kind, its first pack, its stream so far, and tsize before it. */
    ghost var kind: Byte
    ghost var start: nat
    ghost var cells: seq<Cell>
    ghost var sizes0: TextSizes

    ghost predicate Valid()
      reads this, packs
    {
      && Written(packs[..], start, tp, kind, cells) && Sized(packs[..])
      && |sizes0.packCount| == 16 && seqno >= start && tsize == Counted(sizes0, kind, seqno - start)
      && match p
         case None => |cells| == 12 * (tp - start) && seqno == tp
         case Some(q) =>
           && 0 < q < 12 && |cells| == 12 * (tp - start) + q && seqno == tp + 1
           && tp < packs.Length && Begun(packs[tp], kind, tp, cells, 12 * (tp - start))
    }

    /** The inner loop of fillpacks: copies until the source or the pack is used up. */
    method CopyText(from: seq<Byte>, charpos0: nat, q0: nat) returns (charpos: nat, q: nat)
      requires charpos0 < |from| && q0 < 12 && tp < packs.Length && |packs[tp].text| == 12
      modifies packs
      ensures charpos0 < charpos <= |from| && q == q0 + charpos - charpos0 <= 12
      ensures charpos == |from| || q == 12
      ensures |packs[tp].text| == 12 && packs[..] == old(packs[..])[tp := old(packs[tp]).(text := packs[tp].text)]
      ensures packs[tp].text[..q] == old(packs[tp].text[..q0]) + from[charpos0..charpos]
    {
      charpos, q := charpos0, q0;
      while charpos < |from| && q < 12
        invariant charpos0 <= charpos <= |from| && q == q0 + charpos - charpos0 <= 12
        invariant |packs[tp].text| == 12
        invariant packs[..] == old(packs[..])[tp := old(packs[tp]).(text := packs[tp].text)]
        invariant packs[tp].text[..q] == old(packs[tp].text[..q0]) + from[charpos0..charpos]
      {
        ghost var before := packs[tp].text;
        packs[tp] := packs[tp].(text := packs[tp].text[q := from[charpos]]);
        assert packs[tp].text[..q + 1] == before[..q] + [from[charpos]];
        charpos, q := charpos + 1, q + 1;
        assert from[charpos0..charpos] == from[charpos0..charpos - 1] + [from[charpos - 1]];
      }
    }
  
    /** The header that fillpacks writes when it begins a pack. */
    method BeginPack(packType: Byte, trackNo: nat, charpos: nat)
      requires tp < packs.Length && |packs[tp].text| == 12 && |tsize.packCount| == 16
      modifies packs, `seqno, `tsize
      ensures Headed(packs[tp], packType, old(seqno), Cell(0, trackNo, charpos))
      ensures packs[..] == old(packs[..])[tp := packs[tp]]
      ensures seqno == old(seqno) + 1
      ensures tsize == Counted(old(tsize), packType, 1)
    {
      if packType != SIZE_KIND {
        tsize := Counted(tsize, packType, 1);
      }
      packs[tp] := packs[tp].(kind := packType, track := trackNo % 256, seqNo := seqno % 256,
                              block := if charpos < 15 then charpos else 15);
      seqno := seqno + 1;
    }
  
    /** Begins a pack unless one is open; `q` is where its text continues, `first` the cell that comes next. */
    method OpenPack(packType: Byte, trackNo: nat, charpos: nat, ghost first: Cell) returns (q: nat)
      requires Valid() && packType == kind && (p.None? ==> tp < packs.Length)
      requires first.track == trackNo && first.charPos == charpos
      modifies packs, `seqno, `tsize
      ensures Written(packs[..], start, tp, kind, cells) && Sized(packs[..]) && tp < packs.Length
      ensures packs[..start] == old(packs[..start])
      ensures |cells| == 12 * (tp - start) + q && q < 12 && seqno == tp + 1
      ensures Headed(packs[tp], kind, tp, (cells + [first])[12 * (tp - start)])
      ensures packs[tp].text[..q] == Values(cells[12 * (tp - start)..])
      ensures tsize == Counted(sizes0, kind, seqno - start)
    {
      q := 0;
      if p.None? {
        ghost var ps := packs[..];
        CountedAgain(sizes0, kind, seqno - start);
        BeginPack(packType, trackNo, charpos);
        assert cells + [] == cells;
        WrittenFrame(ps, packs[..], start, tp, kind, cells, []);
      } else {
        q := p.value;
      }
    }

    /** One round of the loop in fillpacks: begins a pack if none is open, and fills it as far as possible. */
    method FillOne(from: seq<Byte>, charpos0: nat, trackNo: nat, packType: Byte) returns (charpos: nat)
      requires Valid() && charpos0 < |from| && packType == kind && (p.None? ==> tp < packs.Length)
      modifies packs, `tp, `p, `seqno, `tsize, `cells
      ensures Valid()
      ensures charpos0 < charpos <= |from|
      ensures cells == old(cells) + Cells(from, trackNo)[charpos0..charpos]
      ensures packs[..start] == old(packs[..start])
    {
      var q := OpenPack(packType, trackNo, charpos0, Cell(from[charpos0], trackNo, charpos0));
      ghost var q0, ps := q, packs[..];
      charpos, q := CopyText(from, charpos0, q);
      ghost var more := Cells(from, trackNo)[charpos0..charpos];
      CopyKeeps(ps, packs[..], start, tp, kind, cells, from, trackNo, charpos0, charpos, q0, more);
      cells := cells + more;
      if q >= 12 {
        ClosePack();
      } else {
        LeaveOpen(q);
      }
    }

    /** The source is used up before the pack is full. */
    method LeaveOpen(q: nat)
      requires tp < packs.Length && Written(packs[..], start, tp, kind, cells) && Sized(packs[..])
      requires Begun(packs[tp], kind, tp, cells, 12 * (tp - start)) && |cells| == 12 * (tp - start) + q && q < 12
      requires seqno == tp + 1 && |sizes0.packCount| == 16 && tsize == Counted(sizes0, kind, seqno - start)
      modifies `p
      ensures Valid()
    {
      p := Some(q);
    }

    /** A full pack gets its checksum, and the next one is begun later. */
    method ClosePack()
      requires tp < packs.Length && Written(packs[..], start, tp, kind, cells) && Sized(packs[..])
      requires Begun(packs[tp], kind, tp, cells, 12 * (tp - start)) && |cells| == 12 * (tp - start) + 12
      requires seqno == tp + 1 && |sizes0.packCount| == 16 && tsize == Counted(sizes0, kind, seqno - start)
      modifies packs, `tp, `p
      ensures Valid() && packs[..start] == old(packs[..start])
    {
      ghost var ps := packs[..];
      packs[tp] := packs[tp].(closed := true);
      assert cells + [] == cells;
      WrittenFrame(ps, packs[..], start, tp, kind, cells, []);
      WrittenMore(packs[..], start, tp, kind, cells);
      p := None;
      tp := tp + 1;
    }
  
    /** fillpacks: appends `from` to the stream of the current type. */
    method FillPacks(from: seq<Byte>, trackNo: nat, packType: Byte)
      requires Valid() && from != [] && packType == kind
      requires start + PackCount(|cells| + |from|) <= packs.Length
      modifies packs, `tp, `p, `seqno, `tsize, `cells
      ensures Valid()
      ensures cells == old(cells) + Cells(from, trackNo)
      ensures packs[..start] == old(packs[..start])
    {
      var charpos := 0;
      assert cells + Cells(from, trackNo)[..0] == cells;
      while true
        invariant Valid() && kind == packType && charpos < |from|
        invariant cells == old(cells) + Cells(from, trackNo)[..charpos]
        invariant packs[..start] == old(packs[..start])
        decreases |from| - charpos
      {
        ghost var c0 := charpos;
        charpos := FillOne(from, charpos, trackNo, packType);
        NextCells(old(cells), Cells(from, trackNo), c0, charpos);
        if charpos >= |from| {
          break;
        }
      }
    }
  
    constructor (n: nat, firstTrack: Byte, lastTrack: Byte)
      ensures Valid() && fresh(packs) && packs.Length == n
      ensures tp == start == 0 && cells == [] && p == None
      ensures tsize == TextSizes(firstTrack, lastTrack, Zeros(15) + [3], 0)
    {
      packs := new Pack[n](_ => Pack(0, 0, 0, 0, Zeros(12), false));
      tp, p, seqno := 0, None, 0;
      tsize := TextSizes(firstTrack, lastTrack, Zeros(15) + [3], 0);
      kind, start, cells := 0x80, 0, [];
      sizes0 := TextSizes(firstTrack, lastTrack, Zeros(15) + [3], 0);
      new;
      CountedAgain(sizes0, kind, 0);
    }

    /** The next stream is of this kind. */
    ghost method BeginType(k: Byte)
      requires Valid() && cells == []
      modifies `kind
      ensures Valid() && kind == k && start == tp && sizes0 == tsize
    {
      CountedAgain(sizes0, kind, 0);
      CountedAgain(sizes0, k, 0);
      kind := k;
    }

    /** fillup_pack: pads and closes the open pack. */
    method FillupPack()
      requires Valid()
      modifies packs, `tp, `p
      ensures start <= tp <= packs.Length && seqno == tp && p.None? && Sized(packs[..])
      ensures tp == start + PackCount(|cells|) && tsize == Counted(sizes0, kind, PackCount(|cells|))
      ensures packs[..tp] == old(packs[..start]) + Packs(kind, start, cells)
    {
      ghost var ps := packs[..];
      if p.Some? {
        var q := p.value;
        var pad := packs[tp].(text := packs[tp].text[..q] + Zeros(12 - q), closed := true);
        PaddedIsPacks(ps, pad, start, tp, kind, cells, q);
        packs[tp] := pad;
        assert packs[..] == ps[tp := pad];
        assert packs[..tp + 1] == ps[tp := pad][..tp + 1];
        p := None;
        tp := tp + 1;
      } else {
        WrittenIsPacks(ps, start, tp, kind, cells);
      }
    }

    /** After fillup_pack the stream of the next type begins. */
    ghost method EndType()
      requires start <= tp <= packs.Length && seqno == tp && p.None? && Sized(packs[..])
      requires |tsize.packCount| == 16
      modifies `start, `cells, `sizes0
      ensures Valid() && cells == [] && start == tp && sizes0 == tsize
    {
      start, cells, sizes0 := tp, [], tsize;
      CountedAgain(tsize, kind, 0);
    }
  }

  // ------------------------------------------------------------------ packing a disc

  /** anytext looks at the disc and its tracks, not at entries behind them. */
  method HasText(disc: Disc, tracks: nat, t: nat) returns (any: bool)
    requires tracks < |disc| && forall i | tracks < i < |disc| :: disc[i] == NoText
    ensures any <==> AnyText(disc, t)
  {
    for i := 0 to tracks + 1
      invariant forall j | 0 <= j < i :: StringOf(disc[j], t) == []
    {
      if StringOf(disc[i], t) != [] {
        return true;
      }
    }
    return false;
  }

  lemma {:induction false} StreamFits(strings: Strings, i: nat, n: nat)
    requires i <= n <= |strings|
    ensures |Stream(strings, i)| <= |Stream(strings, n)|
    decreases n
  {
    if i < n {
      StreamFits(strings, i, n - 1);
    }
  }

  lemma TextPacksGrow(disc: Disc, t: nat, u: nat)
    requires t <= u
    ensures |TextPacks(disc, t)| <= |TextPacks(disc, u)|
  {
    TextPacksAreSequence(disc, t);
    TextPacksAreSequence(disc, u);
    SequenceGrows(Own(disc), t, u);
  }

  /** How many packs of type `k` there are among those of the types below `t`. */
  function Tally(disc: Disc, t: nat): nat -> nat
    requires disc != []
  {
    (k: nat) => if k <= LAST_TYPE then |OfKind(TextPacks(disc, t), Kind(k))| else 0
  }

  ghost predicate CountsAre(counts: seq<Byte>, tally: nat -> nat) {
    && |counts| == 16 && counts[15] == 3
    && forall k | 0 <= k <= LAST_TYPE :: counts[k] == tally(k) % 256
  }

  lemma FoundNext(disc: Disc, t: nat, k: nat)
    requires disc != [] && t <= LAST_TYPE && k <= LAST_TYPE
    ensures |OfKind(TextPacks(disc, t + 1), Kind(k))| ==
              |OfKind(TextPacks(disc, t), Kind(k))| + (if k == t then |TypePacks(disc, t, |TextPacks(disc, t)|)| else 0)
  {
    TypeIsOwn(disc, t, |TextPacks(disc, t)|);
    TextPacksAreSequence(disc, t);
    TextPacksAreSequence(disc, t + 1);
    OneMoreType(Own(disc), t, Kind(k));
  }

  lemma CountedAt(tsize: TextSizes, t: nat, n: nat, k: nat, had: nat)
    requires |tsize.packCount| == 16 && t <= LAST_TYPE && k < 16 && tsize.packCount[k] == had % 256
    ensures Counted(tsize, Kind(t), n).packCount[k] == (had + (if k == t then n else 0)) % 256
  {
  }

  lemma CountsStep(tsize: TextSizes, t: nat, n: nat, f: nat -> nat, g: nat -> nat)
    requires t <= LAST_TYPE && CountsAre(tsize.packCount, f)
    requires forall k | 0 <= k <= LAST_TYPE :: g(k) == f(k) + (if k == t then n else 0)
    ensures CountsAre(Counted(tsize, Kind(t), n).packCount, g)
  {
    forall k | 0 <= k <= LAST_TYPE
      ensures Counted(tsize, Kind(t), n).packCount[k] == g(k) % 256
    {
      CountedAt(tsize, t, n, k, f(k));
    }
    CountedAt(tsize, t, n, 15, 3);
  }

  lemma CountsNext(tsize: TextSizes, disc: Disc, t: nat, n: nat)
    requires disc != [] && t <= LAST_TYPE && CountsAre(tsize.packCount, Tally(disc, t))
    requires n == |TypePacks(disc, t, |TextPacks(disc, t)|)|
    ensures CountsAre(Counted(tsize, Kind(t), n).packCount, Tally(disc, t + 1))
  {
    forall k | 0 <= k <= LAST_TYPE
      ensures Tally(disc, t + 1)(k) == Tally(disc, t)(k) + (if k == t then n else 0)
    {
      FoundNext(disc, t, k);
    }
    CountsStep(tsize, t, n, Tally(disc, t), Tally(disc, t + 1));
  }

  lemma NothingCounted(disc: Disc)
    requires disc != []
    ensures CountsAre(Zeros(15) + [3], Tally(disc, 0))
  {
  }

  /** The part of packtext's loop that packs one type, if any track has text of it. */
  method PackType(targ: TextArgs, disc: Disc, tracks: nat, t: nat)
    requires tracks < |disc| && forall i | tracks < i < |disc| :: disc[i] == NoText
    requires WellFormed(disc) && t <= LAST_TYPE && targ.Valid() && targ.cells == []
    requires targ.packs[..targ.tp] == TextPacks(disc, t) && |TextPacks(disc, t + 1)| <= targ.packs.Length
    requires CountsAre(targ.tsize.packCount, Tally(disc, t))
    modifies targ, targ.packs
    ensures targ.Valid() && targ.cells == []
    ensures targ.packs[..targ.tp] == TextPacks(disc, t + 1)
    ensures CountsAre(targ.tsize.packCount, Tally(disc, t + 1))
    ensures targ.tsize.lastTrack == old(targ.tsize.lastTrack) && targ.tsize.firstTrack == old(targ.tsize.firstTrack)
  {
    var any := HasText(disc, tracks, t);
    ghost var before := TextPacks(disc, t);
    ghost var n0 := |TypePacks(disc, t, |before|)|;
    CountsNext(targ.tsize, disc, t, n0);
    if any {
      PackStrings(targ, disc, t);
    } else {
      CountedAgain(targ.tsize, Kind(t), 0);
    }
  }

  method PackStrings(targ: TextArgs, disc: Disc, t: nat)
    requires WellFormed(disc) && t <= LAST_TYPE && targ.Valid() && targ.cells == []
    requires targ.tp + PackCount(|TypeCells(disc, t)|) <= targ.packs.Length
    modifies targ, targ.packs
    ensures targ.Valid() && targ.cells == []
    ensures targ.packs[..targ.tp] == old(targ.packs[..targ.tp]) + Packs(Kind(t), old(targ.tp), TypeCells(disc, t))
    ensures targ.tsize == Counted(old(targ.tsize), Kind(t), PackCount(|TypeCells(disc, t)|))
  {
    targ.BeginType(Kind(t));
    FillFields(targ, disc, t);
    targ.FillupPack();
    targ.EndType();
  }

  /** The loop over the tracks of one type. */
  method FillFields(targ: TextArgs, disc: Disc, t: nat)
    requires WellFormed(disc) && t <= LAST_TYPE && targ.Valid() && targ.cells == [] && targ.kind == Kind(t)
    requires targ.start + PackCount(|TypeCells(disc, t)|) <= targ.packs.Length
    modifies targ.packs, targ`tp, targ`p, targ`seqno, targ`tsize, targ`cells
    ensures targ.Valid() && targ.cells == TypeCells(disc, t)
    ensures targ.packs[..targ.start] == old(targ.packs[..targ.start])
  {
    var n := Fields(disc, t);
    ghost var strings := StringsOf(disc, t);
    for i := 0 to n
      invariant targ.Valid() && targ.cells == Stream(strings, i)
      invariant targ.packs[..targ.start] == old(targ.packs[..targ.start])
    {
      StreamFits(strings, i + 1, n);
      targ.FillPacks(StringOf(disc[i], t) + [0], i, Kind(t));
    }
  }

  /** The bytes of the structure textsizes, for disc-wide settings as packtext makes them. */
  function Layout(tsize: TextSizes): (r: seq<Byte>)
    requires |tsize.packCount| == 16
    ensures |r| == 36
  {
    [0, tsize.firstTrack, tsize.lastTrack, 0] + tsize.packCount + ([tsize.lastSeqnum] + Zeros(7)) + ([9] + Zeros(7))
  }

  lemma LayoutIsSizeInfo(tsize: TextSizes, text: seq<Pack>, entries: nat, firstTrack: nat)
    requires firstTrack < 256 && tsize.firstTrack == firstTrack
    requires 0 < entries <= 256 && tsize.lastTrack == entries - 1 && tsize.lastSeqnum == (|text| + 2) % 256
    requires tsize.packCount == PackCounts(text)
    ensures Layout(tsize) == SizeInfo(text, entries, firstTrack)
  {
  }

  lemma CountsArePackCounts(counts: seq<Byte>, disc: Disc, n: nat)
    requires disc != [] && CountsAre(counts, Tally(disc, n))
    ensures counts == PackCounts(TextPacks(disc, n))
  {
  }

  lemma SizeCellsAre(info: seq<Byte>, cells: seq<Cell>)
    requires |info| == 36
    requires cells == [] + Cells(info[0..12], 0) + Cells(info[12..24], 1) + Cells(info[24..36], 2)
    ensures cells == SizeCells(info) && |cells| == 36
  {
    assert info[..12] == info[0..12] && info[24..] == info[24..36];
    assert [] + Cells(info[0..12], 0) == Cells(info[0..12], 0);
  }

  method PackSizes(targ: TextArgs, info: seq<Byte>)
    requires targ.Valid() && targ.cells == [] && |info| == 36 && targ.tp + 3 <= targ.packs.Length
    modifies targ, targ.packs
    ensures targ.seqno <= targ.packs.Length
    ensures targ.packs[..targ.seqno] == old(targ.packs[..targ.tp]) + Packs(SIZE_KIND, old(targ.tp), SizeCells(info))
  {
    targ.BeginType(SIZE_KIND);
    ghost var tp0 := targ.tp;
    targ.FillPacks(info[0..12], 0, SIZE_KIND);
    targ.FillPacks(info[12..24], 1, SIZE_KIND);
    targ.FillPacks(info[24..36], 2, SIZE_KIND);
    SizeCellsAre(info, targ.cells);
    WrittenIsPacks(targ.packs[..], tp0, targ.tp, SIZE_KIND, targ.cells);
  }

  /** packtext: the packs of all types that occur, and the three size packs. */
  method PackText(disc: Disc, firstTrack: nat) returns (sbuf: seq<Pack>)
    requires Placed(disc, firstTrack) && |Output(disc, firstTrack)| <= 256
    ensures sbuf == Output(disc, firstTrack)
  {
    var tracks := |disc| - firstTrack;
    var targ := new TextArgs(256, firstTrack, firstTrack + tracks - 1);
    NothingCounted(disc);
    for t := 0 to LAST_TYPE + 1
      invariant targ.Valid() && targ.cells == [] && fresh(targ) && fresh(targ.packs) && targ.packs.Length == 256
      invariant targ.packs[..targ.tp] == TextPacks(disc, t)
      invariant CountsAre(targ.tsize.packCount, Tally(disc, t))
      invariant targ.tsize.firstTrack == firstTrack && targ.tsize.lastTrack == |disc| - 1
    {
      TextPacksGrow(disc, t + 1, LAST_TYPE + 1);
      PackType(targ, disc, tracks, t);
    }
    CountsArePackCounts(targ.tsize.packCount, disc, LAST_TYPE + 1);
    sbuf := AddSizes(targ, disc, firstTrack, TextPacks(disc, LAST_TYPE + 1));
  }

  /** The size packs: seqno overshoots by one, and three packs follow. */
  method AddSizes(targ: TextArgs, disc: Disc, firstTrack: nat, ghost text: seq<Pack>) returns (sbuf: seq<Pack>)
    requires WellFormed(disc) && targ.Valid() && targ.cells == [] && targ.tp + 3 <= targ.packs.Length
    requires targ.packs[..targ.tp] == text && targ.tsize.lastTrack == |disc| - 1
    requires targ.tsize.firstTrack == firstTrack && targ.tsize.packCount == PackCounts(text)
    modifies targ, targ.packs
    ensures sbuf == WithSizes(text, |disc|, firstTrack)
  {
    var tsize := targ.tsize.(lastSeqnum := (targ.seqno + 2) % 256);
    LayoutIsSizeInfo(tsize, text, |disc|, firstTrack);
    PackSizes(targ, Layout(tsize));
    sbuf := targ.packs[..targ.seqno];
  }
}
