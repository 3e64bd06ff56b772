/**
 Checksums of CD-Text packs (cdda2wav/cd_text.c, cdrecord/crc16.c, cdrecord/cdtext.c):
 computing them, filling them in, and correcting one wrong bit.
 */
module CdTextCrc {
  import opened LinearCode
  import opened CrcBits
  import opened CrcTable

  const PACK_SIZE := 18

  // ------------------------------------------------------------------ specification

  /** The register after `data`, fed bit by bit. */
  function Crc(data: seq<bv8>): bv16 { Run(CRC16, 0, data) }

  /** `data` with bit `i % 8` of byte `i / 8` changed. */
  function FlipBit(data: seq<bv8>, i: nat): seq<bv8>
    requires i < 8 * |data|
  {
    Flip(CRC16, FlipTab, data, i)
  }

  /** The last two bytes complemented: on the disc the checksum is stored inverted. */
  function Complement(p: seq<bv8>): seq<bv8>
    requires |p| >= 2
  {
    p[|p| - 2 := Xor8(p[|p| - 2], 0xff)][|p| - 1 := Xor8(p[|p| - 1], 0xff)]
  }

  predicate Valid(p: seq<bv8>) { |p| >= 2 && Crc(Complement(p)) == 0 }

  /** `q` is `p` or differs from it in one bit. */
  predicate Near(p: seq<bv8>, q: seq<bv8>) {
    q == p || exists i: nat | i < 8 * |p| :: q == FlipBit(p, i)
  }

  // ------------------------------------------------------------------ laws

  /** A pack and its 144 single-bit changes have 145 different checksums. */
  lemma ChecksumsDiffer(data: seq<bv8>, i: nat, j: nat)
    requires |data| == PACK_SIZE && i < 144 && j < 144 && i != j
    ensures Crc(FlipBit(data, i)) != Crc(data)
    ensures Crc(FlipBit(data, i)) != Crc(FlipBit(data, j))
  {
    Crc16Group();
    Crc16Linear();
    FeedAdditive(CRC16);
    FlipTabUnits();
    Crc16Cancels();
    Crc16Separates();
    FlipsDiffer(CRC16, FlipTab, 0, data, i, j);
  }

  lemma ComplementTwice(p: seq<bv8>)
    requires |p| >= 2
    ensures |Complement(p)| == |p| && Complement(Complement(p)) == p
  {
    Xor8Twice(p[|p| - 2], 0xff);
    Xor8Twice(p[|p| - 1], 0xff);
  }

  lemma ComplementFlip(p: seq<bv8>, i: nat)
    requires |p| >= 2 && i < 8 * |p|
    ensures Complement(FlipBit(p, i)) == FlipBit(Complement(p), i)
  {
    Xor8Swap(p[i / 8], FlipTab(i % 8), 0xff);
  }

  lemma NearComplement(p: seq<bv8>, q: seq<bv8>)
    requires |p| >= 2 && Near(p, q)
    ensures |q| == |p| && Near(Complement(p), Complement(q))
  {
    if q != p {
      var i: nat :| i < 8 * |p| && q == FlipBit(p, i);
      ComplementFlip(p, i);
    }
  }

  /** At most one valid pack lies within one bit of a pack. */
  lemma ValidIsUnique(p: seq<bv8>, q1: seq<bv8>, q2: seq<bv8>)
    requires |p| == PACK_SIZE && Near(p, q1) && Near(p, q2) && Valid(q1) && Valid(q2)
    ensures q1 == q2
  {
    NearComplement(p, q1);
    NearComplement(p, q2);
    ZeroIsUnique(Complement(p), Complement(q1), Complement(q2));
    ComplementTwice(q1);
    ComplementTwice(q2);
  }

  lemma ZeroIsUnique(p: seq<bv8>, q1: seq<bv8>, q2: seq<bv8>)
    requires |p| == PACK_SIZE && Near(p, q1) && Near(p, q2) && Crc(q1) == 0 && Crc(q2) == 0
    ensures q1 == q2
  {
    if q1 != p {
      var i: nat :| i < 8 * |p| && q1 == FlipBit(p, i);
      if q2 != p {
        var j: nat :| j < 8 * |p| && q2 == FlipBit(p, j);
        if i != j {
          ChecksumsDiffer(p, i, j);
        }
      } else {
        ChecksumsDiffer(p, i, if i == 0 then 1 else 0);
      }
    } else if q2 != p {
      var j: nat :| j < 8 * |p| && q2 == FlipBit(p, j);
      ChecksumsDiffer(p, j, if j == 0 then 1 else 0);
    }
  }

  /** A change that makes the complemented pack's checksum zero makes the CD-Text pack valid. */
  lemma FixIsValid(p: seq<bv8>, y: seq<bv8>)
    requires |p| >= 2 && Near(Complement(p), y) && Crc(y) == 0
    ensures |y| == |p| && Valid(Complement(y)) && Near(p, Complement(y))
  {
    NearComplement(Complement(p), y);
    ComplementTwice(p);
    ComplementTwice(y);
  }

  lemma ValidIsFix(p: seq<bv8>, q: seq<bv8>)
    requires |p| >= 2 && Near(p, q) && Valid(q)
    ensures Crc(Complement(p)) == 0 || exists i: nat | i < 8 * |p| :: Crc(FlipBit(Complement(p), i)) == 0
  {
    NearComplement(p, q);
  }

  lemma FlipTwice(w: seq<bv8>, i: nat)
    requires i < 8 * |w|
    ensures |FlipBit(w, i)| == |w| && FlipBit(FlipBit(w, i), i) == w
  {
    Xor8Twice(w[i / 8], FlipTab(i % 8));
  }

  /** One wrong bit in a valid pack: the only valid pack nearby is the original. */
  lemma SingleErrorIsCorrected(w: seq<bv8>, i: nat, q: seq<bv8>)
    requires |w| == PACK_SIZE && Valid(w) && i < 144
    requires Valid(q) && Near(FlipBit(w, i), q)
    ensures q == w
  {
    FlipTwice(w, i);
    ValidIsUnique(FlipBit(w, i), q, w);
  }

  lemma OneMore(data: seq<bv8>, b: bv8)
    ensures Crc(data + [b]) == Update(Crc(data), b)
  {
    assert (data + [b])[..|data|] == data;
    UpdateIsFeed(Crc(data), b);
  }

  /** A message followed by its own checksum has checksum zero. */
  lemma ChecksumClears(data: seq<bv8>, h: bv8, l: bv8)
    requires h == High(Crc(data)) && l == Low(Crc(data))
    ensures Crc(data + [h, l]) == 0
  {
    OneMore(data, h);
    OneMore(data + [h], l);
    assert data + [h, l] == data + [h] + [l];
    UpdateOwnBytes(Crc(data), h, l);
  }

  lemma InverseIsValid(p: seq<bv8>, data: seq<bv8>, c: bv16)
    requires c == Crc(data) && p == data + [High(c ^ 0xffff), Low(c ^ 0xffff)]
    ensures Valid(p)
  {
    HighInverse(c);
    LowInverse(c);
    assert Complement(p) == data + [High(c), Low(c)];
    ChecksumClears(data, High(c), Low(c));
  }

  /** Inverting a byte. */
  lemma Inverted(b: bv8, c: bv8)
    ensures Xor8(b, 0xff) == c <==> b == 255 - c
  {
  }

  /** Exactly the checksum of a message clears the register behind it. */
  lemma ClearedIff(data: seq<bv8>, h: bv8, l: bv8)
    ensures Crc(data + [h, l]) == 0 <==> h == High(Crc(data)) && l == Low(Crc(data))
  {
    if h == High(Crc(data)) && l == Low(Crc(data)) {
      ChecksumClears(data, h, l);
    } else if Crc(data + [h, l]) == 0 {
      OneMore(data, h);
      OneMore(data + [h], l);
      assert data + [h, l] == data + [h] + [l];
      OnlyOwnBytes(Crc(data), h, l);
    }
  }

  lemma ComplementEnd(data: seq<bv8>, h: bv8, l: bv8)
    ensures Complement(data + [h, l]) == data + [Xor8(h, 0xff), Xor8(l, 0xff)]
  {
  }

  /**
   A pack is valid if and only if its last two bytes are the checksum of those before them, the high
   byte first and every bit inverted.
   */
  lemma ValidIff(data: seq<bv8>, h: bv8, l: bv8)
    ensures Valid(data + [h, l]) <==> h == 255 - High(Crc(data)) && l == 255 - Low(Crc(data))
  {
    ComplementEnd(data, h, l);
    Inverted(h, High(Crc(data)));
    Inverted(l, Low(Crc(data)));
    ClearedIff(data, Xor8(h, 0xff), Xor8(l, 0xff));
  }

  // ------------------------------------------------------------------ computing

  /** updcrc: the table does eight bits at once. */
  method UpdateCrc(start: bv16, cp: array<bv8>, cnt: nat) returns (crc: bv16)
    requires cnt <= cp.Length
    ensures crc == Run(CRC16, start, cp[..cnt])
  {
    crc := start;
    var i := 0;
    while i < cnt
      invariant i <= cnt && crc == Run(CRC16, start, cp[..i])
    {
      UpdateIsFeed(crc, cp[i]);
      crc := Update(crc, cp[i]);
      assert cp[..i + 1][..i] == cp[..i];
      i := i + 1;
    }
  }

  /** calcCRC */
  method CalcCrc(buf: array<bv8>, size: nat) returns (crc: bv16)
    requires size <= buf.Length
    ensures crc == Crc(buf[..size])
  {
    crc := UpdateCrc(0, buf, size);
  }

  /** fillcrc: appends the inverted checksum, which makes the CD-Text pack valid. */
  method FillCrc(buf: array<bv8>) returns (crc: bv16)
    requires buf.Length >= 2
    modifies buf
    ensures buf[..buf.Length - 2] == old(buf[..buf.Length - 2])
    ensures Valid(buf[..])
  {
    var n := buf.Length;
    ghost var data := buf[..n - 2];
    crc := CalcCrc(buf, n - 2);
    ghost var c := crc;
    crc := crc ^ 0xffff;
    buf[n - 2] := High(crc);
    buf[n - 1] := Low(crc);
    assert buf[..] == data + [High(crc), Low(crc)];
    InverseIsValid(buf[..], data, c);
  }

  /** Flips bit `i`, and flips it back unless the checksum is zero then. */
  method TryBit(b: array<bv8>, i: nat) returns (r: bv16)
    requires i < 8 * b.Length
    modifies b
    ensures r == Crc(FlipBit(old(b[..]), i))
    ensures b[..] == if r == 0 then FlipBit(old(b[..]), i) else old(b[..])
  {
    ghost var s := b[..];
    var c := FlipTab(i % 8);
    b[i / 8] := Xor8(b[i / 8], c);
    assert b[..] == FlipBit(s, i);
    r := CalcCrc(b, b.Length);
    assert b[..b.Length] == b[..];
    if r != 0 {
      Xor8Twice(s[i / 8], c);
      b[i / 8] := Xor8(b[i / 8], c);
      assert b[..] == s;
    }
  }

  /**
   flip_error_corr: unless the checksum is already zero, tries every single bit and keeps
   the first change that makes it zero.
   */
  method FlipErrorCorr(b: array<bv8>, crc: bv16) returns (r: bv16)
    modifies b
    ensures r == 0 <==> crc == 0 || exists i: nat | i < 8 * b.Length :: Crc(FlipBit(old(b[..]), i)) == 0
    ensures r != 0 || crc == 0 ==> b[..] == old(b[..])
    ensures r == 0 && crc != 0 ==>
              Crc(b[..]) == 0 && exists i: nat | i < 8 * b.Length :: b[..] == FlipBit(old(b[..]), i)
  {
    r := crc;
    ghost var s := b[..];
    if crc != 0 {
      var i := 0;
      while i < 8 * b.Length
        invariant i <= 8 * b.Length && r != 0 && b[..] == s
        invariant forall j: nat | j < i :: Crc(FlipBit(s, j)) != 0
      {
        r := TryBit(b, i);
        if r == 0 {
          return;
        }
        i := i + 1;
      }
    }
  }

  method ComplementInPlace(c: array<bv8>)
    requires c.Length >= 2
    modifies c
    ensures c[..] == Complement(old(c[..]))
  {
    c[c.Length - 2] := Xor8(c[c.Length - 2], 0xff);
    c[c.Length - 1] := Xor8(c[c.Length - 1], 0xff);
  }

  /**
   cdtext_crc_ok: succeeds exactly for the packs within one bit of a valid pack and then
   leaves that valid pack, the only one there is; otherwise the pack is unchanged.
   */
  method CdTextCrcOk(c: array<bv8>) returns (ok: bool)
    requires c.Length == PACK_SIZE
    modifies c
    ensures ok <==> exists q :: Valid(q) && Near(old(c[..]), q)
    ensures ok ==> Valid(c[..]) && Near(old(c[..]), c[..])
    ensures !ok ==> c[..] == old(c[..])
  {
    ghost var p := c[..];
    ComplementInPlace(c);
    var crc := CalcCrc(c, PACK_SIZE);
    assert c[..PACK_SIZE] == c[..] == Complement(p);
    var r := FlipErrorCorr(c, crc);
    ok := r == 0;
    ghost var y := c[..];
    ComplementInPlace(c);
    if ok {
      FixIsValid(p, y);
    } else {
      ComplementTwice(p);
      forall q | Valid(q) && Near(p, q)
        ensures false
      {
        ValidIsFix(p, q);
      }
    }
  }

  /** movebytes between two packs. */
  method MovePack(from: array<bv8>, to: array<bv8>)
    requires from != to && from.Length == to.Length == PACK_SIZE
    modifies to
    ensures to[..] == from[..]
  {
    forall i | 0 <= i < PACK_SIZE {
      to[i] := from[i];
    }
  }

  /** cdrecord's variant works on a copy and moves it back when it succeeds. */
  method CdTextCrcOkCopy(p: array<bv8>) returns (ok: bool)
    requires p.Length == PACK_SIZE
    modifies p
    ensures ok <==> exists q :: Valid(q) && Near(old(p[..]), q)
    ensures ok ==> Valid(p[..]) && Near(old(p[..]), p[..])
    ensures !ok ==> p[..] == old(p[..])
  {
    var copy := new bv8[PACK_SIZE];
    MovePack(p, copy);
    ok := CdTextCrcOk(copy);
    if ok {
      MovePack(copy, p);
    }
  }
}
