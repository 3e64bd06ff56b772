/**
 From strings to subchannel bytes and back: packs with their checksum bytes, expanded to six bits,
 decoded, corrected and read (cdrecord/cdtext.c, cdda2wav/cd_text.c).
 */
module CdTextBytes {
  import opened Bytes
  import opened CdTextFormat
  import opened CdTextDisc
  import CdTextPack
  import CdTextCrc
  import CdTextSub

  // ------------------------------------------------------------------ numbers and octets

  function Octet(b: Byte): (v: bv8)
    ensures v as int == b
  {
    if b == 0 then 0 else Octet(b - 1) + 1
  }

  function Octets(s: seq<Byte>): (r: seq<bv8>)
    ensures |r| == |s|
  {
    seq(|s|, i requires 0 <= i < |s| => Octet(s[i]))
  }

  function Numbers(r: seq<bv8>): (s: seq<Byte>)
    ensures |s| == |r|
  {
    seq(|r|, i requires 0 <= i < |r| => r[i] as int)
  }

  lemma NumbersOfOctets(s: seq<Byte>)
    ensures Numbers(Octets(s)) == s
  {
  }

  // ------------------------------------------------------------------ a pack in bytes

  const PACK_SIZE := 18

  /** The fields of struct textpack before the checksum. */
  function Front(p: Pack): (r: seq<Byte>)
    requires |p.text| == 12
    ensures |r| == 16
  {
    [p.kind, p.track, p.seqNo, p.block] + p.text
  }

  /** The bytes `w` are pack `p` with a valid checksum. */
  predicate Carries(w: seq<bv8>, p: Pack) {
    |w| == PACK_SIZE && |p.text| == 12 && p.closed && w[..16] == Octets(Front(p)) && CdTextCrc.Valid(w)
  }

  function Parse(w: seq<bv8>): Pack
    requires |w| == PACK_SIZE
  {
    var b := Numbers(w[..16]);
    Pack(b[0], b[1], b[2], b[3], b[4..], true)
  }

  lemma ParseCarried(w: seq<bv8>, p: Pack)
    requires Carries(w, p)
    ensures Parse(w) == p
  {
    NumbersOfOctets(Front(p));
    assert Front(p)[4..] == p.text;
  }

  /** Pack number `k` of a run of packs. */
  function Piece(bytes: seq<bv8>, k: nat): (w: seq<bv8>)
    requires 18 * k + 18 <= |bytes|
    ensures |w| == PACK_SIZE
  {
    bytes[18 * k..18 * k + 18]
  }

  ghost predicate AllCarry(bytes: seq<bv8>, packs: seq<Pack>) {
    |bytes| == 18 * |packs| && forall k | 0 <= k < |packs| :: Carries(Piece(bytes, k), packs[k])
  }

  ghost predicate Complete(packs: seq<Pack>) { forall k | 0 <= k < |packs| :: |packs[k].text| == 12 && packs[k].closed }

  // ------------------------------------------------------------------ all packs of a disc are complete

  lemma PacksComplete(kind: Byte, first: nat, cells: seq<Cell>)
    ensures Complete(Packs(kind, first, cells))
  {
    forall k | 0 <= k < |Packs(kind, first, cells)|
      ensures |Packs(kind, first, cells)[k].text| == 12 && Packs(kind, first, cells)[k].closed
    {
      PacksAt(kind, first, cells, k);
    }
  }

  lemma TypeComplete(disc: Disc, t: nat, first: nat)
    ensures Complete(Own(disc).packs(t, first))
  {
    if disc != [] && t <= LAST_TYPE {
      PacksComplete(Kind(t), first, TypeCells(disc, t));
    }
  }

  lemma CompleteConcat(a: seq<Pack>, b: seq<Pack>)
    requires Complete(a) && Complete(b)
    ensures Complete(a + b)
  {
  }

  lemma TextPacksComplete(disc: Disc, t: nat)
    ensures Complete(TextPacks(disc, t))
  {
    for u := 0 to t
      invariant Complete(TextPacks(disc, u))
    {
      var before := TextPacks(disc, u);
      TypeComplete(disc, u, |before|);
      CompleteConcat(before, Own(disc).packs(u, |before|));
      TextPacksStep(disc, u);
    }
  }

  lemma OutputComplete(disc: Disc, firstTrack: nat)
    requires disc != []
    ensures Complete(Output(disc, firstTrack)) && |Output(disc, firstTrack)| >= 3
  {
    var text := TextPacks(disc, LAST_TYPE + 1);
    TextPacksComplete(disc, LAST_TYPE + 1);
    PacksComplete(SIZE_KIND, |text|, SizeCells(SizeInfo(text, |disc|, firstTrack)));
  }

  // ------------------------------------------------------------------ writing

  lemma FrontBytes(w: seq<bv8>, p: Pack)
    requires |w| == 18 && |p.text| == 12 && w[..16] == Octets(Front(p))
    ensures w[0] as int == p.kind && w[1] as int == p.track && w[2] as int == p.seqNo && w[3] as int == p.block
    ensures forall i | 0 <= i < 12 :: w[4 + i] as int == p.text[i]
  {
    assert forall k | 0 <= k < 16 :: w[k] == w[..16][k] == Octet(Front(p)[k]);
  }

  /** A pack as bytes; fillcrc adds the checksum. */
  method WritePack(p: Pack) returns (w: array<bv8>)
    requires |p.text| == 12 && p.closed
    ensures fresh(w) && Carries(w[..], p)
    ensures w.Length == 18 && w[0] as int == p.kind && w[1] as int == p.track && w[2] as int == p.seqNo
    ensures w[3] as int == p.block && forall i | 0 <= i < 12 :: w[4 + i] as int == p.text[i]
  {
    var front := Front(p);
    w := new bv8[PACK_SIZE];
    for i := 0 to 16
      invariant forall j | 0 <= j < i :: w[j] == Octet(front[j])
    {
      w[i] := Octet(front[i]);
    }
    assert w[..16] == Octets(front);
    var _ := CdTextCrc.FillCrc(w);
    assert w[..][..16] == w[..16];
    FrontBytes(w[..], p);
  }

  /** One pack's bytes in place of others leave the other packs alone. */
  lemma PiecesAfter(bytes: seq<bv8>, more: seq<bv8>, k: nat, w: seq<bv8>, j: nat)
    requires 18 * k + 18 <= |bytes| && |w| == PACK_SIZE && j <= k
    requires more == bytes[..18 * k] + w + bytes[18 * k + 18..]
    ensures |more| == |bytes| && Piece(more, j) == if j < k then Piece(bytes, j) else w
  {
  }

  lemma CarryMore(bytes: seq<bv8>, more: seq<bv8>, packs: seq<Pack>, k: nat, w: seq<bv8>)
    requires k < |packs| && |bytes| == 18 * |packs|
    requires forall j | 0 <= j < k :: Carries(Piece(bytes, j), packs[j])
    requires Carries(w, packs[k]) && more == bytes[..18 * k] + w + bytes[18 * k + 18..]
    ensures |more| == |bytes| && forall j | 0 <= j <= k :: Carries(Piece(more, j), packs[j])
  {
    forall j | 0 <= j <= k
      ensures |more| == |bytes| && Carries(Piece(more, j), packs[j])
    {
      PiecesAfter(bytes, more, k, w, j);
    }
  }

  /** Copies a pack to place `k`. */
  method PutPack(bp: array<bv8>, k: nat, w: array<bv8>)
    requires 18 * k + 18 <= bp.Length && w.Length == PACK_SIZE && w != bp
    modifies bp
    ensures bp[..] == old(bp[..])[..18 * k] + w[..] + old(bp[..])[18 * k + 18..]
  {
    forall i | 0 <= i < PACK_SIZE {
      bp[18 * k + i] := w[i];
    }
  }

  method WritePacks(packs: seq<Pack>) returns (bp: array<bv8>)
    requires Complete(packs)
    ensures fresh(bp) && AllCarry(bp[..], packs)
  {
    bp := new bv8[18 * |packs|];
    for k := 0 to |packs|
      invariant forall j | 0 <= j < k :: Carries(Piece(bp[..], j), packs[j])
    {
      ghost var before := bp[..];
      var w := WritePack(packs[k]);
      PutPack(bp, k, w);
      CarryMore(before, bp[..], packs, k, w[..]);
    }
  }

  /** What setuptextdata makes of `n` packs. */
  function Subcode(bytes: seq<bv8>, n: nat): seq<bv8>
    requires |bytes| == 18 * n
  {
    CdTextSub.RepeatLength(bytes, n);
    CdTextSub.Expand(CdTextSub.Six, CdTextSub.Repeat(bytes, CdTextSub.Times(n)), 6 * CdTextSub.Scaled(n))
  }

  /** The subcode of these packs, each with a valid checksum. */
  ghost predicate SubcodeOf(textsub: seq<bv8>, packs: seq<Pack>) {
    exists bytes :: AllCarry(bytes, packs) && textsub == Subcode(bytes, |packs|)
  }

  /** packtext with the packs as bytes, and setuptextdata at its end. */
  method SetText(disc: Disc, firstTrack: nat) returns (textsub: array<bv8>)
    requires Placed(disc, firstTrack) && |Output(disc, firstTrack)| <= 256
    ensures SubcodeOf(textsub[..], Output(disc, firstTrack))
    ensures textsub.Length % 96 == 0 && forall i | 0 <= i < textsub.Length :: textsub[i] < 64
  {
    OutputComplete(disc, firstTrack);
    var packs := CdTextPack.PackText(disc, firstTrack);
    var bp := WritePacks(packs);
    ghost var bytes := bp[..];
    textsub := CdTextSub.SetUpTextData(bp, |packs|);
    assert AllCarry(bytes, packs) && textsub[..] == Subcode(bytes, |packs|);
  }

  // ------------------------------------------------------------------ reading

  /** The first `n` packs, decoded by six2eight. */
  function Decoded(textsub: seq<bv8>, n: nat): seq<bv8>
    requires |textsub| >= 24 * n
  {
    CdTextSub.Contract(CdTextSub.Eight, textsub, 6 * n)
  }

  lemma {:induction false} ContractFirst<A, B>(dec: CdTextSub.Quad<B> -> CdTextSub.Triple<A>, s: seq<B>, k: nat, m: nat)
    requires k <= m && 4 * m <= |s|
    ensures CdTextSub.Contract(dec, s, k) == CdTextSub.Contract(dec, s, m)[..3 * k]
  {
    if k < m {
      ContractFirst(dec, s, k, m - 1);
    }
  }

  lemma SubcodeDecodes(bytes: seq<bv8>, n: nat)
    requires n > 0 && |bytes| == 18 * n
    ensures |Subcode(bytes, n)| >= 24 * n && Decoded(Subcode(bytes, n), n) == bytes
  {
    var m := CdTextSub.Scaled(n);
    var sub := Subcode(bytes, n);
    assert m >= n;
    ContractFirst(CdTextSub.Eight, sub, 6 * n, 6 * m);
    forall i | 0 <= i < 18 * n
      ensures CdTextSub.Contract(CdTextSub.Eight, sub, 6 * m)[i] == bytes[i]
    {
      CdTextSub.OutputDecodes(bytes, n, i);
      CdTextSub.ModUnique(i, 18 * n, 0, i);
    }
  }

  function Parsed(pieces: seq<seq<bv8>>): (packs: seq<Pack>)
    requires forall k | 0 <= k < |pieces| :: |pieces[k]| == PACK_SIZE
    ensures |packs| == |pieces|
  {
    seq(|pieces|, k requires 0 <= k < |pieces| => Parse(pieces[k]))
  }

  /** cdtext_crc_ok succeeds on a valid pack with at most one wrong bit. */
  lemma CorrectionSucceeds(w: seq<bv8>, r: seq<bv8>)
    requires |w| == PACK_SIZE && CdTextCrc.Valid(w) && CdTextCrc.Near(w, r)
    ensures CdTextCrc.Near(r, w)
  {
    if r != w {
      var i: nat :| i < 8 * |w| && r == CdTextCrc.FlipBit(w, i);
      CdTextCrc.FlipTwice(w, i);
    }
  }

  /** And the only valid pack it can leave is the one sent. */
  lemma CorrectionIsRight(w: seq<bv8>, r: seq<bv8>, q: seq<bv8>)
    requires |w| == PACK_SIZE && CdTextCrc.Valid(w) && CdTextCrc.Near(w, r)
    requires CdTextCrc.Valid(q) && CdTextCrc.Near(r, q)
    ensures q == w
  {
    if r != w {
      var i: nat :| i < 8 * |w| && r == CdTextCrc.FlipBit(w, i);
      CdTextCrc.SingleErrorIsCorrected(w, i, q);
    } else {
      CdTextCrc.ValidIsUnique(w, q, w);
    }
  }

  /** What was received has at most one wrong bit a pack, and each pack was corrected to a valid one. */
  ghost predicate Transmitted(bytes: seq<bv8>, n: nat, received: seq<seq<bv8>>, corrected: seq<seq<bv8>>)
    requires |bytes| == 18 * n
  {
    && |received| == |corrected| == n
    && forall k | 0 <= k < n ::
         && CdTextCrc.Near(Piece(bytes, k), received[k])
         && CdTextCrc.Valid(corrected[k]) && CdTextCrc.Near(received[k], corrected[k])
  }

  /** The packs are those that were sent. */
  lemma CorrectedPacks(bytes: seq<bv8>, packs: seq<Pack>, received: seq<seq<bv8>>, corrected: seq<seq<bv8>>)
    requires AllCarry(bytes, packs) && Transmitted(bytes, |packs|, received, corrected)
    ensures forall k | 0 <= k < |corrected| :: |corrected[k]| == PACK_SIZE
    ensures Parsed(corrected) == packs
  {
    forall k | 0 <= k < |packs|
      ensures |corrected[k]| == PACK_SIZE && Parse(corrected[k]) == packs[k]
    {
      assert Carries(Piece(bytes, k), packs[k]);
      CorrectionIsRight(Piece(bytes, k), received[k], corrected[k]);
      ParseCarried(corrected[k], packs[k]);
    }
  }

  /**
   End to end: a disc's strings, packed, given checksums, expanded to subcode, decoded, with up to
   one wrong bit in every pack, and corrected, are read back as they were.
   */
  lemma StringsSurvive(disc: Disc, firstTrack: nat, t: nat, bytes: seq<bv8>, textsub: seq<bv8>,
                       received: seq<seq<bv8>>, corrected: seq<seq<bv8>>)
    requires Placed(disc, firstTrack) && t <= LAST_TYPE && AllCarry(bytes, Output(disc, firstTrack))
    requires textsub == Subcode(bytes, |Output(disc, firstTrack)|)
    requires Transmitted(bytes, |Output(disc, firstTrack)|, received, corrected)
    ensures |textsub| >= 24 * |Output(disc, firstTrack)| && Decoded(textsub, |Output(disc, firstTrack)|) == bytes
    ensures forall k | 0 <= k < |corrected| :: |corrected[k]| == PACK_SIZE
    ensures ReadStrings(Parsed(corrected), t, Fields(disc, t)) == StringsOf(disc, t)[..Fields(disc, t)]
  {
    var packs := Output(disc, firstTrack);
    OutputComplete(disc, firstTrack);
    SubcodeDecodes(bytes, |packs|);
    CorrectedPacks(bytes, packs, received, corrected);
    PackingIsInvertible(disc, firstTrack, t);
  }
}
