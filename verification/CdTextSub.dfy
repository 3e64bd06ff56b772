/**
 From packs to subchannel data (cdrecord/cdtext.c): three bytes of eight bits become four
 of six bits, and the packs are repeated until they fill whole groups of four.
 */
module CdTextSub {

  // ------------------------------------------------------------------ groups

  /** What a group of three becomes. */
  datatype Quad<B> = Quad(w: B, x: B, y: B, z: B) {
    function Items(): seq<B> { [w, x, y, z] }
  }

  datatype Triple<A> = Triple(a: A, b: A, c: A) {
    function Items(): seq<A> { [a, b, c] }
  }

  /** The first `k` groups of three, each as four. */
  function Expand<A, B>(enc: Triple<A> -> Quad<B>, s: seq<A>, k: nat): (r: seq<B>)
    requires 3 * k <= |s|
    ensures |r| == 4 * k
  {
    if k == 0 then []
    else
      var i := 3 * (k - 1);
      Expand(enc, s, k - 1) + enc(Triple(s[i], s[i + 1], s[i + 2])).Items()
  }

  /** The first `k` groups of four, each as three. */
  function Contract<A, B>(dec: Quad<B> -> Triple<A>, s: seq<B>, k: nat): (r: seq<A>)
    requires 4 * k <= |s|
    ensures |r| == 3 * k
  {
    if k == 0 then []
    else
      var i := 4 * (k - 1);
      Contract(dec, s, k - 1) + dec(Quad(s[i], s[i + 1], s[i + 2], s[i + 3])).Items()
  }

  lemma {:induction false} ContractPrefix<A, B>(dec: Quad<B> -> Triple<A>, s: seq<B>, t: seq<B>, k: nat)
    requires 4 * k <= |s| <= |t| && t[..|s|] == s
    ensures Contract(dec, t, k) == Contract(dec, s, k)
  {
    if k > 0 {
      ContractPrefix(dec, s, t, k - 1);
      var i := 4 * (k - 1);
      assert s[i] == t[..|s|][i] && s[i + 1] == t[..|s|][i + 1];
      assert s[i + 2] == t[..|s|][i + 2] && s[i + 3] == t[..|s|][i + 3];
    }
  }

  /** If decoding a group undoes encoding it, decoding all groups gives everything back. */
  lemma {:induction false} ContractExpand<A(!new), B>(enc: Triple<A> -> Quad<B>, dec: Quad<B> -> Triple<A>,
                                                      s: seq<A>, k: nat)
    requires 3 * k <= |s| && forall g :: dec(enc(g)) == g
    ensures Contract(dec, Expand(enc, s, k), k) == s[..3 * k]
  {
    if k > 0 {
      var i := 3 * (k - 1);
      var e, before := Expand(enc, s, k), Expand(enc, s, k - 1);
      var q := enc(Triple(s[i], s[i + 1], s[i + 2]));
      ContractExpand(enc, dec, s, k - 1);
      ContractPrefix(dec, before, e, k - 1);
      assert e == before + [q.w, q.x, q.y, q.z];
      assert s[..3 * k] == s[..i] + [s[i], s[i + 1], s[i + 2]];
    }
  }

  // ------------------------------------------------------------------ eight2six and six2eight

  function Six(g: Triple<bv8>): Quad<bv8> {
    Quad((g.a >> 2) & 0x3f, ((g.a & 0x03) << 4) | ((g.b & 0xf0) >> 4),
         ((g.b & 0x0f) << 2) | ((g.c & 0xc0) >> 6), g.c & 0x3f)
  }

  function Eight(q: Quad<bv8>): Triple<bv8> {
    Triple(((q.w & 0x3f) << 2) | ((q.x & 0x3f) >> 4), ((q.x & 0x3f) << 4) | ((q.y & 0x3f) >> 2),
           ((q.y & 0x3f) << 6) | (q.z & 0x3f))
  }

  lemma EightOfSix(g: Triple<bv8>)
    ensures Eight(Six(g)) == g
  {
  }

  /** A number below 2^24 by its digits to base 64, and to base 256, the highest first. */
  function Base64Value(q: Quad<bv8>): bv32 {
    q.w as bv32 * 0x4_0000 + q.x as bv32 * 0x1000 + q.y as bv32 * 0x40 + q.z as bv32
  }

  function Base256Value(g: Triple<bv8>): bv32 { g.a as bv32 * 0x1_0000 + g.b as bv32 * 0x100 + g.c as bv32 }

  /** Only the lower six bits of the four bytes are used. */
  predicate SixBits(q: Quad<bv8>) { q.w < 64 && q.x < 64 && q.y < 64 && q.z < 64 }

  lemma SixIsSixBits(g: Triple<bv8>)
    ensures SixBits(Six(g))
  {
  }

  /** Three bytes and their four six-bit bytes are the same number. */
  lemma SixIsSameNumber(g: Triple<bv8>)
    ensures Base64Value(Six(g)) == Base256Value(g)
  {
  }

  // ------------------------------------------------------------------ repetition

  function Repeat<A>(s: seq<A>, times: nat): seq<A> {
    if times == 0 then [] else s + Repeat(s, times - 1)
  }

  /** How often `packs` packs have to be repeated to give whole groups of four. */
  function Times(packs: nat): nat {
    if packs % 4 == 0 then 1 else if packs % 4 == 2 then 2 else 4
  }

  lemma MultipleOfFour(n: nat, q: nat)
    requires n == 4 * q
    ensures n % 4 == 0
  {
  }

  /** So many times `packs`. */
  function Scaled(packs: nat): (r: nat)
    ensures r % 4 == 0
  {
    if packs % 4 == 0 then packs
    else if packs % 4 == 2 then
      MultipleOfFour(2 * packs, 2 * (packs / 4) + 1);
      2 * packs
    else
      MultipleOfFour(4 * packs, packs);
      4 * packs
  }

  /** No smaller number of repetitions gives whole groups of four. */
  lemma TimesIsSmallest(packs: nat, r: nat)
    requires 0 < r < Times(packs)
    ensures (r * packs) % 4 != 0
  {
    if r == 1 {
      assert r * packs == packs;
    } else if r == 2 {
      assert r * packs == 2 * packs;
    } else {
      assert r * packs == 3 * packs;
    }
  }

  lemma RepeatLength<A>(s: seq<A>, packs: nat)
    requires |s| == 18 * packs
    ensures |Repeat(s, Times(packs))| == 18 * Scaled(packs)
  {
    assert Repeat(s, 1) == s;
    if Times(packs) == 2 {
      assert Repeat(s, 2) == s + s;
    } else if Times(packs) == 4 {
      assert Repeat(s, 2) == s + s;
      assert Repeat(s, 3) == s + (s + s);
    }
  }

  lemma MultipleApart(n: nat, x: int, y: int)
    requires x > y
    ensures n * x >= n * y + n
    decreases x - y
  {
    assert n * x == n * y + n * (x - y);
    if x - y > 1 {
      MultipleApart(n, x - 1, y);
      assert n * x == n * (x - 1) + n;
    }
  }

  lemma ModUnique(a: nat, n: nat, q: int, r: nat)
    requires n > 0 && r < n && a == n * q + r
    ensures a % n == r
  {
    var q', r' := a / n, a % n;
    assert n * q' + r' == n * q + r;
    if q' < q {
      MultipleApart(n, q, q');
    } else if q' > q {
      MultipleApart(n, q', q);
    }
  }

  lemma ModBack(i: nat, n: nat)
    requires 0 < n <= i
    ensures i % n == (i - n) % n
  {
    var q := i / n;
    assert i == n * q + i % n;
    assert i - n == n * (q - 1) + i % n;
    ModUnique(i - n, n, q - 1, i % n);
  }

  lemma {:induction false} ModOfMultiple(i: nat, n: nat)
    requires n > 0 && n % 3 == 0 && i % 3 == 0
    ensures (i % n) % 3 == 0
  {
    if i >= n {
      ModBack(i, n);
      ModOfMultiple(i - n, n);
    } else {
      ModUnique(i, n, 0, i);
    }
  }

  lemma ThreeInARow(i: nat, n: nat)
    requires n >= 3 && n % 3 == 0 && i % 3 == 0
    ensures i % n + 3 <= n && (i + 1) % n == i % n + 1 && (i + 2) % n == i % n + 2
  {
    var q, at := i / n, i % n;
    assert i == n * q + at;
    ModOfMultiple(i, n);
    ModUnique(i + 1, n, q, at + 1);
    ModUnique(i + 2, n, q, at + 2);
  }

  /** A repetition goes through the sequence cyclically. */
  lemma {:induction false} RepeatAt<A>(s: seq<A>, times: nat, i: nat)
    requires s != [] && i < |Repeat(s, times)|
    ensures Repeat(s, times)[i] == s[i % |s|]
  {
    if i >= |s| {
      RepeatAt(s, times - 1, i - |s|);
      ModBack(i, |s|);
    } else {
      ModUnique(i, |s|, 0, i);
    }
  }

  /** The bytes that the loop below reads at `3 * k % |s|`. */
  lemma NextGroup<A>(s: seq<A>, times: nat, k: nat, at: nat)
    requires |s| >= 3 && |s| % 3 == 0 && 3 * k + 3 <= |Repeat(s, times)| && at == (3 * k) % |s|
    ensures at + 3 <= |s|
    ensures var r := Repeat(s, times); r[3 * k] == s[at] && r[3 * k + 1] == s[at + 1] && r[3 * k + 2] == s[at + 2]
  {
    ThreeInARow(3 * k, |s|);
    RepeatAt(s, times, 3 * k);
    RepeatAt(s, times, 3 * k + 1);
    RepeatAt(s, times, 3 * k + 2);
  }

  // ------------------------------------------------------------------ computing

  /** eight2six on the three bytes from `i` on, to the four from `j` on. */
  method EightToSix(bp: array<bv8>, i: nat, p: array<bv8>, j: nat)
    requires i + 3 <= bp.Length && j + 4 <= p.Length && p != bp
    modifies p
    ensures p[..j] == old(p[..j])
    ensures Quad(p[j], p[j + 1], p[j + 2], p[j + 3]) == Six(Triple(bp[i], bp[i + 1], bp[i + 2]))
  {
    var c := bp[i];
    p[j] := (c >> 2) & 0x3f;
    p[j + 1] := (c & 0x03) << 4;
    c := bp[i + 1];
    p[j + 1] := p[j + 1] | ((c & 0xf0) >> 4);
    p[j + 2] := (c & 0x0f) << 2;
    c := bp[i + 2];
    p[j + 2] := p[j + 2] | ((c & 0xc0) >> 6);
    p[j + 3] := c & 0x3f;
  }

  lemma ExpandMore<A, B>(enc: Triple<A> -> Quad<B>, r: seq<A>, k: nat, p: seq<B>, j: nat, g: Triple<A>)
    requires 3 * k + 3 <= |r| && j == 4 * k && j + 4 <= |p|
    requires p[..j] == Expand(enc, r, k) && g == Triple(r[3 * k], r[3 * k + 1], r[3 * k + 2])
    requires Quad(p[j], p[j + 1], p[j + 2], p[j + 3]) == enc(g)
    ensures p[..j + 4] == Expand(enc, r, k + 1)
  {
    assert p[..j + 4] == p[..j] + enc(g).Items();
  }

  /** One round: group number `k`, from the three bytes at `at`. */
  method ExpandOne(bp: array<bv8>, at: nat, p: array<bv8>, j: nat, ghost times: nat, ghost k: nat)
    requires bp.Length >= 3 && bp.Length % 3 == 0 && p != bp && j == 4 * k && j + 4 <= p.Length
    requires 3 * k + 3 <= |Repeat(bp[..], times)| && at == (3 * k) % bp.Length
    requires p[..j] == Expand(Six, Repeat(bp[..], times), k)
    modifies p
    ensures p[..j + 4] == Expand(Six, Repeat(bp[..], times), k + 1)
  {
    ghost var s := bp[..];
    NextGroup(s, times, k, at);
    EightToSix(bp, at, p, j);
    assert bp[..] == s;
    ExpandMore(Six, Repeat(s, times), k, p[..], j, Triple(s[at], s[at + 1], s[at + 2]));
  }

  /** The loop of setuptextdata. */
  method ExpandAll(bp: array<bv8>, len: nat, p: array<bv8>, ghost times: nat, ghost groups: nat)
    requires len == bp.Length && len >= 3 && len % 3 == 0 && p != bp
    requires |Repeat(bp[..], times)| == 3 * groups && p.Length == 4 * groups
    modifies p
    ensures p[..] == Expand(Six, Repeat(bp[..], times), groups)
  {
    ghost var s, k := bp[..], 0;
    var i, j := 0, 0;
    while j < p.Length
      invariant k <= groups && i == 3 * k && j == 4 * k
      invariant bp[..] == s && p[..j] == Expand(Six, Repeat(s, times), k)
    {
      ExpandOne(bp, i % len, p, j, times, k);
      i := i + 3;
      j := j + 4;
      k := k + 1;
    }
    assert p[..j] == p[..];
  }

  /** The size of the output, four bytes for each three of the repeated packs. */
  method TextLength(packs: nat, len: nat) returns (n: nat)
    requires len == 18 * packs
    ensures n == 24 * Scaled(packs)
  {
    var i := packs % 4;
    if i == 0 {
      n := len;
    } else if i == 2 {
      n := 2 * len;
    } else {
      n := 4 * len;
    }
    n := (n * 4) / 3;
  }

  /** Group `k` of what is expanded. */
  lemma {:induction false} ExpandAt<A, B>(enc: Triple<A> -> Quad<B>, s: seq<A>, n: nat, k: nat)
    requires k < n && 3 * n <= |s|
    ensures var e, q := Expand(enc, s, n), enc(Triple(s[3 * k], s[3 * k + 1], s[3 * k + 2]));
            e[4 * k] == q.w && e[4 * k + 1] == q.x && e[4 * k + 2] == q.y && e[4 * k + 3] == q.z
  {
    if k < n - 1 {
      ExpandAt(enc, s, n - 1, k);
    }
  }

  /** The group of four bytes at `4 * k` is the number of the group of three at `3 * k`, cyclically. */
  ghost predicate SameNumber(textsub: seq<bv8>, s: seq<bv8>, k: nat) {
    && 4 * k + 4 <= |textsub| && s != []
    && var q := Quad(textsub[4 * k], textsub[4 * k + 1], textsub[4 * k + 2], textsub[4 * k + 3]);
       && SixBits(q)
       && Base64Value(q) == Base256Value(Triple(s[3 * k % |s|], s[(3 * k + 1) % |s|], s[(3 * k + 2) % |s|]))
  }

  lemma OutputIsSameNumber(s: seq<bv8>, packs: nat, k: nat)
    requires packs > 0 && |s| == 18 * packs && k < 6 * Scaled(packs)
    ensures |Repeat(s, Times(packs))| == 18 * Scaled(packs)
    ensures SameNumber(Expand(Six, Repeat(s, Times(packs)), 6 * Scaled(packs)), s, k)
  {
    var r := Repeat(s, Times(packs));
    RepeatLength(s, packs);
    ExpandAt(Six, r, 6 * Scaled(packs), k);
    RepeatAt(s, Times(packs), 3 * k);
    RepeatAt(s, Times(packs), 3 * k + 1);
    RepeatAt(s, Times(packs), 3 * k + 2);
    SixIsSixBits(Triple(r[3 * k], r[3 * k + 1], r[3 * k + 2]));
    SixIsSameNumber(Triple(r[3 * k], r[3 * k + 1], r[3 * k + 2]));
  }

  /** All groups of a text that is the output for `s`. */
  lemma AllSameNumber(textsub: seq<bv8>, s: seq<bv8>, packs: nat)
    requires packs > 0 && |s| == 18 * packs && |Repeat(s, Times(packs))| == 18 * Scaled(packs)
    requires textsub == Expand(Six, Repeat(s, Times(packs)), 6 * Scaled(packs))
    ensures forall k | 0 <= k < 6 * Scaled(packs) :: SameNumber(textsub, s, k)
    ensures forall i | 0 <= i < |textsub| :: textsub[i] < 64
  {
    forall k | 0 <= k < 6 * Scaled(packs)
      ensures SameNumber(textsub, s, k)
    {
      OutputIsSameNumber(s, packs, k);
    }
    forall i | 0 <= i < |textsub|
      ensures textsub[i] < 64
    {
      assert SameNumber(textsub, s, i / 4);
    }
  }

  lemma AllBelow(textsub: array<bv8>)
    requires forall i | 0 <= i < |textsub[..]| :: textsub[..][i] < 64
    ensures forall i | 0 <= i < textsub.Length :: textsub[i] < 64
  {
    forall i | 0 <= i < textsub.Length
      ensures textsub[i] < 64
    {
      assert textsub[..][i] < 64;
    }
  }

  /** A whole number of sectors. */
  lemma WholeSectors(packs: nat)
    ensures (24 * Scaled(packs)) % 96 == 0
  {
    var q := Scaled(packs) / 4;
    assert Scaled(packs) == 4 * q;
    ModUnique(24 * Scaled(packs), 96, q, 0);
  }

  /**
   setuptextdata: the packs, repeated as often as needed, in groups of four six-bit bytes. The
   output is a whole number of 96-byte subchannel sectors.
   */
  method SetUpTextData(bp: array<bv8>, packs: nat) returns (textsub: array<bv8>)
    requires packs > 0 && bp.Length == 18 * packs
    ensures textsub.Length == 24 * Scaled(packs) && textsub.Length % 96 == 0
    ensures |Repeat(bp[..], Times(packs))| == 18 * Scaled(packs)
    ensures textsub[..] == Expand(Six, Repeat(bp[..], Times(packs)), 6 * Scaled(packs))
    ensures forall k | 0 <= k < 6 * Scaled(packs) :: SameNumber(textsub[..], bp[..], k)
    ensures forall i | 0 <= i < textsub.Length :: textsub[i] < 64
  {
    var len := 18 * packs;
    var n := TextLength(packs, len);
    ghost var s := bp[..];
    RepeatLength(s, packs);
    WholeSectors(packs);
    textsub := new bv8[n];
    assert bp[..] == s;
    ExpandAll(bp, len, textsub, Times(packs), 6 * Scaled(packs));
    assert bp[..] == s;
    AllSameNumber(textsub[..], s, packs);
    AllBelow(textsub);
  }

  /** six2eight on the output, group by group, gives the packs, repeated cyclically. */
  lemma OutputDecodes(s: seq<bv8>, packs: nat, i: nat)
    requires packs > 0 && |s| == 18 * packs && i < 18 * Scaled(packs)
    ensures |Repeat(s, Times(packs))| == 18 * Scaled(packs)
    ensures Contract(Eight, Expand(Six, Repeat(s, Times(packs)), 6 * Scaled(packs)), 6 * Scaled(packs))[i]
         == s[i % |s|]
  {
    var r := Repeat(s, Times(packs));
    RepeatLength(s, packs);
    forall g
      ensures Eight(Six(g)) == g
    {
      EightOfSix(g);
    }
    ContractExpand(Six, Eight, r, 6 * Scaled(packs));
    assert r[..18 * Scaled(packs)] == r;
    RepeatAt(s, Times(packs), i);
  }
}
