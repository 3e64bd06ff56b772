/** The base64 printer of cdda2wav/base64.c, and a decoder for what it prints. */
module Base64 {
  import opened Bytes
  import opened Base64Alphabet

  const CRLF := "\r\n"

  // ------------------------------------------------------------------ what is printed

  /** How many groups of three `n` bytes make. */
  function Groups(n: nat): nat { (n + 2) / 3 }

  /** The second and the third six bits of a group of bytes. */
  function Six1(a: Byte, b: Byte): (v: nat)
    ensures v < 64 && v / 16 == a % 4 && v % 16 == b / 16
  {
    TwoAboveFour(a, b / 16);
    (a as int * 16 + b as int / 16) % 64
  }

  /** Two low bits above four, and four low bits above two. */
  lemma TwoAboveFour(a: nat, h: nat)
    requires h < 16
    ensures (a * 16 + h) % 64 == a % 4 * 16 + h
  {
    assert a * 16 + h == 64 * (a / 4) + (a % 4 * 16 + h);
  }

  lemma FourAboveTwo(b: nat, h: nat)
    requires h < 4
    ensures (b * 4 + h) % 64 == b % 16 * 4 + h
  {
    assert b * 4 + h == 64 * (b / 16) + (b % 16 * 4 + h);
  }

  function Six2(b: Byte, c: Byte): (v: nat)
    ensures v < 64 && v / 4 == b % 16 && v % 4 == c / 64
  {
    FourAboveTwo(b, c / 64);
    (b as int * 4 + c as int / 64) % 64
  }

  /** The four characters of one to three bytes. */
  function Quad(code: Coding, s: seq<Byte>): (r: string)
    requires 1 <= |s| <= 3
    ensures |r| == 4
  {
    var b1: Byte := if |s| > 1 then s[1] else 0;
    var b2: Byte := if |s| > 2 then s[2] else 0;
    [code.v(s[0] / 4), code.v(Six1(s[0], b1)),
     if |s| > 1 then code.v(Six2(b1, b2)) else PAD, if |s| > 2 then code.v(b2 % 64) else PAD]
  }

  function Group(src: seq<Byte>, k: nat): (g: seq<Byte>)
    requires 3 * k < |src|
    ensures 1 <= |g| <= 3
  {
    src[3 * k..if 3 * k + 3 <= |src| then 3 * k + 3 else |src|]
  }

  /** The first `k` groups, without line breaks. */
  function Plain(code: Coding, src: seq<Byte>, k: nat): (r: string)
    requires 3 * k < |src| + 3
    ensures |r| == 4 * k
  {
    if k == 0 then "" else Plain(code, src, k - 1) + Quad(code, Group(src, k - 1))
  }

  /** The same with a line break after every sixty characters. */
  function Lines(code: Coding, src: seq<Byte>, k: nat): string
    requires 3 * k < |src| + 3
  {
    if k == 0 then ""
    else Lines(code, src, k - 1) + Quad(code, Group(src, k - 1)) + (if k % 15 == 0 then CRLF else "")
  }

  // ------------------------------------------------------------------ reading it back

  function Strip(t: string): string {
    if t == "" then ""
    else
      var c := t[|t| - 1];
      Strip(t[..|t| - 1]) + (if c == '\r' || c == '\n' then "" else [c])
  }

  function Byte0(v0: nat, v1: nat): nat { v0 * 4 + v1 / 16 }
  function Byte1(v1: nat, v2: nat): nat { v1 % 16 * 16 + v2 / 4 }
  function Byte2(v2: nat, v3: nat): nat { v2 % 4 * 64 + v3 }

  /** Section 6.8 of RFC 2045, with another alphabet. */
  function DecodeQuad(code: Coding, q: string): seq<nat>
    requires |q| == 4
  {
    var v0, v1, v2, v3 := code.value(q[0]), code.value(q[1]), code.value(q[2]), code.value(q[3]);
    if q[2] == PAD then [Byte0(v0, v1)]
    else if q[3] == PAD then [Byte0(v0, v1), Byte1(v1, v2)]
    else [Byte0(v0, v1), Byte1(v1, v2), Byte2(v2, v3)]
  }

  function DecodePlain(code: Coding, t: string, k: nat): seq<nat>
    requires |t| >= 4 * k
  {
    if k == 0 then [] else DecodePlain(code, t, k - 1) + DecodeQuad(code, t[4 * (k - 1)..4 * k])
  }

  function Decode(code: Coding, t: string): seq<nat> {
    var plain := Strip(t);
    DecodePlain(code, plain, |plain| / 4)
  }

  // ------------------------------------------------------------------ laws

  lemma Rejoin(a: Byte, b: Byte, c: Byte)
    ensures Byte0(a / 4, Six1(a, b)) == a && Byte1(Six1(a, b), Six2(b, c)) == b && Byte2(Six2(b, c), c % 64) == c
  {
  }

  /** Characters whose values are the four sixes of three bytes. */
  lemma ThreeDecode(code: Coding, q: string, a: Byte, b: Byte, c: Byte)
    requires |q| == 4 && code.value(q[0]) == a / 4 && code.value(q[1]) == Six1(a, b)
    requires q[2] != PAD ==> code.value(q[2]) == Six2(b, c)
    requires q[3] != PAD ==> code.value(q[3]) == c % 64
    ensures DecodeQuad(code, q) ==
              if q[2] == PAD then [a] else if q[3] == PAD then [a, b] else [a, b, c]
  {
    Rejoin(a, b, c);
  }

  lemma QuadDecodes(code: Coding, s: seq<Byte>)
    requires Lawful(code) && 1 <= |s| <= 3
    ensures DecodeQuad(code, Quad(code, s)) == s
  {
    var b: Byte := if |s| > 1 then s[1] else 0;
    var c: Byte := if |s| > 2 then s[2] else 0;
    QuadValues(code, s, b, c);
    ThreeDecode(code, Quad(code, s), s[0], b, c);
  }

  lemma QuadValues(code: Coding, s: seq<Byte>, b: Byte, c: Byte)
    requires Lawful(code) && 1 <= |s| <= 3
    requires b == (if |s| > 1 then s[1] else 0) && c == (if |s| > 2 then s[2] else 0)
    ensures var q := Quad(code, s);
            && code.value(q[0]) == s[0] / 4 && code.value(q[1]) == Six1(s[0], b)
            && (q[2] == PAD <==> |s| == 1) && (q[3] == PAD <==> |s| <= 2)
            && (q[2] != PAD ==> code.value(q[2]) == Six2(b, c))
            && (q[3] != PAD ==> code.value(q[3]) == c % 64)
  {
  }

  lemma {:induction false} StripConcat(a: string, b: string)
    ensures Strip(a + b) == Strip(a) + Strip(b)
  {
    if b == "" {
      assert a + b == a;
    } else {
      StripConcat(a, b[..|b| - 1]);
      assert (a + b)[..|a + b| - 1] == a + b[..|b| - 1];
    }
  }

  predicate NoBreaks(t: string) { forall i | 0 <= i < |t| :: t[i] != '\r' && t[i] != '\n' }

  lemma {:induction false} StripNothing(t: string)
    requires NoBreaks(t)
    ensures Strip(t) == t
  {
    if t != "" {
      StripNothing(t[..|t| - 1]);
    }
  }

  lemma QuadNoBreaks(code: Coding, s: seq<Byte>)
    requires Lawful(code) && 1 <= |s| <= 3
    ensures NoBreaks(Quad(code, s))
  {
  }

  lemma StripCrlf()
    ensures Strip(CRLF) == "" && Strip("") == ""
  {
    assert CRLF[..1] == "\r" && "\r"[..0] == "";
  }

  lemma StripMore(lines: string, quad: string, breaks: string)
    requires NoBreaks(quad) && (breaks == CRLF || breaks == "")
    ensures Strip(lines + quad + breaks) == Strip(lines) + quad
  {
    StripConcat(lines + quad, breaks);
    StripConcat(lines, quad);
    StripNothing(quad);
    StripCrlf();
  }

  /** Without its line breaks the output is the plain encoding. */
  lemma {:induction false} StripLines(code: Coding, src: seq<Byte>, k: nat)
    requires Lawful(code) && 3 * k < |src| + 3
    ensures Strip(Lines(code, src, k)) == Plain(code, src, k)
  {
    if k > 0 {
      var quad := Quad(code, Group(src, k - 1));
      StripLines(code, src, k - 1);
      QuadNoBreaks(code, Group(src, k - 1));
      StripMore(Lines(code, src, k - 1), quad, if k % 15 == 0 then CRLF else "");
    }
  }

  lemma SameSlice(t: string, v: string, i: nat, j: nat)
    requires i <= j <= |t| <= |v| && t == v[..|t|]
    ensures v[i..j] == t[i..j]
  {
    forall m | i <= m < j
      ensures v[m] == t[m]
    {
      assert t[m] == v[..|t|][m];
    }
  }

  lemma {:induction false} DecodePrefix(code: Coding, t: string, v: string, k: nat)
    requires 4 * k <= |t| <= |v| && t == v[..|t|]
    ensures DecodePlain(code, v, k) == DecodePlain(code, t, k)
  {
    if k > 0 {
      DecodePrefix(code, t, v, k - 1);
      SameSlice(t, v, 4 * (k - 1), 4 * k);
    }
  }

  /** The bytes of the first `k` groups. */
  function Taken(src: seq<Byte>, k: nat): seq<Byte> { if 3 * k <= |src| then src[..3 * k] else src }

  lemma TakenMore(src: seq<Byte>, k: nat)
    requires 3 * k < |src|
    ensures Taken(src, k + 1) == Taken(src, k) + Group(src, k)
  {
  }

  lemma DecodeMore(code: Coding, t: string, quad: string, k: nat)
    requires |t| == 4 * k && |quad| == 4
    ensures DecodePlain(code, t + quad, k + 1) == DecodePlain(code, t, k) + DecodeQuad(code, quad)
  {
    DecodePrefix(code, t, t + quad, k);
    assert (t + quad)[4 * k..4 * (k + 1)] == quad;
  }

  lemma PlainMore(code: Coding, src: seq<Byte>, k: nat)
    requires Lawful(code) && 3 * k < |src|
    ensures Plain(code, src, k + 1) == Plain(code, src, k) + Quad(code, Group(src, k))
    ensures DecodePlain(code, Plain(code, src, k + 1), k + 1) ==
              DecodePlain(code, Plain(code, src, k), k) + Group(src, k)
  {
    DecodeMore(code, Plain(code, src, k), Quad(code, Group(src, k)), k);
    QuadDecodes(code, Group(src, k));
  }

  /** The first `k` groups decode to the bytes they were made of. */
  ghost predicate DecodesTo(code: Coding, src: seq<Byte>, k: nat) {
    3 * k < |src| + 3 && DecodePlain(code, Plain(code, src, k), k) == Taken(src, k)
  }

  lemma NextDecodes(code: Coding, src: seq<Byte>, k: nat)
    requires Lawful(code) && 3 * k < |src| && DecodesTo(code, src, k)
    ensures DecodesTo(code, src, k + 1)
  {
    PlainMore(code, src, k);
    TakenMore(src, k);
  }

  lemma NothingDecodes(code: Coding, src: seq<Byte>)
    ensures DecodesTo(code, src, 0)
  {
  }

  lemma PlainDecodes(code: Coding, src: seq<Byte>, k: nat)
    requires Lawful(code) && 3 * k < |src| + 3
    ensures DecodesTo(code, src, k)
  {
    NothingDecodes(code, src);
    for j := 0 to k
      invariant DecodesTo(code, src, j)
    {
      NextDecodes(code, src, j);
    }
  }

  lemma RoundTripFor(code: Coding, src: seq<Byte>, n: nat)
    requires Lawful(code) && |src| <= 3 * n < |src| + 3
    ensures Decode(code, Lines(code, src, n)) == src
  {
    StripLines(code, src, n);
    var plain := Strip(Lines(code, src, n));
    assert |plain| / 4 == n;
    PlainDecodes(code, src, n);
  }

  /** Decoding the printed text gives the source back, for every length. */
  lemma RoundTrip(src: seq<Byte>)
    ensures Decode(URL_CODING, Lines(URL_CODING, src, Groups(|src|))) == src
  {
    UrlCodingLawful();
    RoundTripFor(URL_CODING, src, Groups(|src|));
  }

  /** No six bits are printed as '-'. */
  ghost predicate NoDash(code: Coding) { forall i | 0 <= i < 64 :: code.v(i) != '-' }

  lemma PadOfQuad(code: Coding, s: seq<Byte>)
    requires NoDash(code) && 1 <= |s| <= 3
    ensures var q := Quad(code, s);
            q[0] != '-' && q[1] != '-' && (q[2] == '-' <==> |s| == 1) && (q[3] == '-' <==> |s| <= 2)
  {
  }

  lemma UrlCodingHasNoDash()
    ensures NoDash(URL_CODING)
  {
    forall i | 0 <= i < 64
      ensures V(i) != '-'
    {
      ValueOfLetter(i);
    }
  }

  lemma PlainAt(code: Coding, src: seq<Byte>, k: nat, j: nat)
    requires 0 < k && 3 * k < |src| + 3 && j < 4 * k
    ensures Plain(code, src, k)[j] ==
              if j < 4 * k - 4 then Plain(code, src, k - 1)[j]
              else Quad(code, Group(src, k - 1))[j - (4 * k - 4)]
  {
  }

  /** Place `j` of `k` groups for `n` bytes is behind the last of the bytes. */
  predicate Behind(n: nat, k: nat, j: nat) { (j == 4 * k - 1 && 3 * k > n) || (j == 4 * k - 2 && 3 * k > n + 1) }

  /** Of the first `k` groups only the last can have pads, when it is short. */
  lemma {:induction false} PadsOfPlain(code: Coding, src: seq<Byte>, k: nat, j: nat)
    requires NoDash(code) && 3 * k < |src| + 3 && j < 4 * k
    ensures Plain(code, src, k)[j] == '-' <==> Behind(|src|, k, j)
  {
    PlainAt(code, src, k, j);
    if j < 4 * k - 4 {
      PadsOfPlain(code, src, k - 1, j);
    } else {
      PadOfQuad(code, Group(src, k - 1));
    }
  }

  lemma BehindAll(n: nat, k: nat, j: nat)
    requires n <= 3 * k < n + 3
    ensures k == (n + 2) / 3
    ensures Behind(n, k, j) <==> (j == 4 * k - 1 && n % 3 != 0) || (j == 4 * k - 2 && n % 3 == 1)
  {
    assert n == 3 * k || n == 3 * (k - 1) + 2 || n == 3 * (k - 1) + 1;
  }

  lemma PadsFrom(code: Coding, src: seq<Byte>, n: nat, k: nat, t: string, j: nat)
    requires Lawful(code) && NoDash(code) && n == |src| && n <= 3 * k < n + 3
    requires t == Strip(Lines(code, src, k)) && j < |t|
    ensures |t| == 4 * k && (t[j] == '-' <==> Behind(n, k, j))
  {
    StripLines(code, src, k);
    PadsOfPlain(code, src, k, j);
  }

  /** One '-' at the end if two bytes are left over, two if one is, and nowhere else. */
  ghost predicate PadsOnlyAtTheEnd(t: string, n: nat) {
    && |t| == 4 * ((n + 2) / 3)
    && forall j | 0 <= j < |t| :: t[j] == '-' <==> (j == |t| - 1 && n % 3 != 0) || (j == |t| - 2 && n % 3 == 1)
  }

  lemma PadsFor(code: Coding, src: seq<Byte>, n: nat, k: nat, t: string)
    requires Lawful(code) && NoDash(code) && n == |src| && n <= 3 * k < n + 3
    requires t == Strip(Lines(code, src, k))
    ensures PadsOnlyAtTheEnd(t, n)
  {
    StripLines(code, src, k);
    forall j | 0 <= j < |t|
      ensures t[j] == '-' <==> (j == |t| - 1 && n % 3 != 0) || (j == |t| - 2 && n % 3 == 1)
    {
      PadsFrom(code, src, n, k, t, j);
      BehindAll(n, k, j);
    }
    BehindAll(n, k, 0);
  }

  /** The pads of the printed text, its line breaks removed. */
  lemma PadsAtTheEnd(src: seq<Byte>)
    ensures PadsOnlyAtTheEnd(Strip(Lines(URL_CODING, src, Groups(|src|))), |src|)
  {
    UrlCodingLawful();
    UrlCodingHasNoDash();
    PadsFor(URL_CODING, src, |src|, Groups(|src|), Strip(Lines(URL_CODING, src, Groups(|src|))));
  }

  // ------------------------------------------------------------------ printing

  /** The bytes of the group at `s`. */
  lemma GroupAt(src: seq<Byte>, k: nat, s: nat)
    requires s == 3 * k < |src|
    ensures var g := Group(src, k);
            && g[0] == src[s] && (|g| > 1 <==> s + 1 < |src|) && (|g| > 2 <==> s + 2 < |src|)
            && (|g| > 1 ==> g[1] == src[s + 1]) && (|g| > 2 ==> g[2] == src[s + 2])
  {
  }

  /** One round of the loop: four characters for the next one to three bytes. */
  method PutQuad(src: seq<Byte>, s: nat, ret: array<char>, d0: nat, srcl0: nat, ghost k: nat)
    returns (d: nat, srcl: nat)
    requires s + srcl0 == |src| && srcl0 > 0 && s == 3 * k && d0 + 4 <= ret.Length
    modifies ret
    ensures d == d0 + 4 && srcl == if srcl0 > 3 then srcl0 - 3 else 0
    ensures ret[..d] == old(ret[..d0]) + Quad(URL_CODING, Group(src, k))
  {
    d, srcl := d0, srcl0;
    GroupAt(src, k, s);
    var c0 := V(src[s] / 4);
    srcl := srcl - 1;
    var c1 := V(Six1(src[s], if srcl != 0 then src[s + 1] else 0));
    var c2 := PAD;
    if srcl != 0 {
      srcl := srcl - 1;
      c2 := V(Six2(src[s + 1], if srcl != 0 then src[s + 2] else 0));
    }
    var c3 := if srcl != 0 then V(src[s + 2] % 64) else PAD;
    if srcl != 0 {
      srcl := srcl - 1;
    }
    d := Put4(ret, d, c0, c1, c2, c3);
  }

  /** Four times "*d++ =". */
  method Put4(ret: array<char>, d0: nat, c0: char, c1: char, c2: char, c3: char) returns (d: nat)
    requires d0 + 4 <= ret.Length
    modifies ret
    ensures d == d0 + 4 && ret[..d] == old(ret[..d0]) + [c0, c1, c2, c3]
  {
    ret[d0], ret[d0 + 1], ret[d0 + 2], ret[d0 + 3] := c0, c1, c2, c3;
    d := d0 + 4;
  }

  /** Line breaks within the first `k` groups. */
  function Breaks(k: nat): nat { if k == 0 then 0 else Breaks(k - 1) + (if k % 15 == 0 then 1 else 0) }

  function Length(k: nat): nat { 4 * k + 2 * Breaks(k) }

  lemma {:induction false} BreaksAreFifteenths(k: nat)
    ensures Breaks(k) == k / 15
  {
    if k > 0 {
      BreaksAreFifteenths(k - 1);
    }
  }

  lemma {:induction false} LinesLength(code: Coding, src: seq<Byte>, k: nat)
    requires 3 * k < |src| + 3
    ensures |Lines(code, src, k)| == Length(k)
  {
    if k > 0 {
      LinesLength(code, src, k - 1);
    }
  }

  /** The place of round `k` in the text: sixty characters and a break make 62. */
  lemma PlaceOfRound(k: nat)
    ensures Length(k) == 62 * (k / 15) + 4 * (k % 15)
  {
    BreaksAreFifteenths(k);
  }

  /** Place `j` holds what the place in its line asks for: a return after sixty characters, then a line feed. */
  predicate InPlace(t: string, j: nat)
    requires j < |t|
  {
    (t[j] == '\r' <==> j % 62 == 60) && (t[j] == '\n' <==> j % 62 == 61)
  }

  lemma PlaceInLine(q: nat, r: nat)
    requires r < 62
    ensures (62 * q + r) % 62 == r
  {
  }

  /** One more group keeps to the lines. */
  lemma GroupInPlace(before: string, quad: string, breaks: string, k: nat, j: nat)
    requires |before| == Length(k) && |quad| == 4 && NoBreaks(quad)
    requires breaks == if k % 15 == 14 then CRLF else ""
    requires |before| <= j < |before + quad + breaks|
    ensures InPlace(before + quad + breaks, j)
  {
    var q, i := k / 15, j - |before|;
    PlaceOfRound(k);
    PlaceInLine(q, 4 * (k % 15) + i);
    assert (before + quad + breaks)[j] == if i < 4 then quad[i] else breaks[i - 4];
  }

  /** Line breaks stand after every sixty characters and nowhere else. */
  ghost predicate LinesOfSixty(t: string) { forall j | 0 <= j < |t| :: InPlace(t, j) }

  lemma MoreLines(before: string, quad: string, breaks: string, k: nat)
    requires LinesOfSixty(before) && |before| == Length(k) && |quad| == 4 && NoBreaks(quad)
    requires breaks == if k % 15 == 14 then CRLF else ""
    ensures LinesOfSixty(before + quad + breaks)
  {
    forall j | 0 <= j < |before + quad + breaks|
      ensures InPlace(before + quad + breaks, j)
    {
      if j < |before| {
        assert InPlace(before, j) && (before + quad + breaks)[j] == before[j];
      } else {
        GroupInPlace(before, quad, breaks, k, j);
      }
    }
  }

  lemma LinesMore(code: Coding, src: seq<Byte>, k: nat)
    requires 3 * k < |src|
    ensures Lines(code, src, k + 1) ==
              Lines(code, src, k) + Quad(code, Group(src, k)) + if k % 15 == 14 then CRLF else ""
  {
    NextInLine(k);
  }

  lemma OneMoreLine(code: Coding, src: seq<Byte>, k: nat, before: string, after: string)
    requires Lawful(code) && 3 * k < |src| && LinesOfSixty(before) && |before| == Length(k)
    requires after == before + Quad(code, Group(src, k)) + if k % 15 == 14 then CRLF else ""
    ensures LinesOfSixty(after)
  {
    var quad, breaks := Quad(code, Group(src, k)), if k % 15 == 14 then CRLF else "";
    QuadNoBreaks(code, Group(src, k));
    MoreLines(before, quad, breaks, k);
  }

  lemma LinesAreOfSixty(code: Coding, src: seq<Byte>, n: nat)
    requires Lawful(code) && 3 * n < |src| + 3
    ensures LinesOfSixty(Lines(code, src, n))
  {
    for k := 0 to n
      invariant LinesOfSixty(Lines(code, src, k))
    {
      LinesLength(code, src, k);
      LinesMore(code, src, k);
      OneMoreLine(code, src, k, Lines(code, src, k), Lines(code, src, k + 1));
    }
  }

  /** The printed text: a return and a line feed after every sixty characters, and nowhere else. */
  lemma BreaksEverySixty(src: seq<Byte>)
    ensures LinesOfSixty(Lines(URL_CODING, src, Groups(|src|)))
  {
    UrlCodingLawful();
    LinesAreOfSixty(URL_CODING, src, Groups(|src|));
  }

  lemma {:induction false} BreaksGrow(j: nat, k: nat)
    requires j <= k
    ensures Breaks(j) <= Breaks(k)
  {
    if j < k {
      BreaksGrow(j, k - 1);
    }
  }

  /** The number of characters that the allocation reckons with. */
  lemma Allocated(n: nat)
    ensures (4 * n) / 60 == Breaks(n)
  {
    BreaksAreFifteenths(n);
  }

  lemma NextInLine(k: nat)
    ensures (k + 1) % 15 == if k % 15 == 14 then 0 else k % 15 + 1
  {
  }

  /**
   rfc822_binary: the text and its NUL fit the allocated array. The length given back is
   that of the text plus two.
   */
  method Rfc822Binary(src: seq<Byte>) returns (ret: array<char>, len: nat)
    ensures fresh(ret) && len >= 2 && ret.Length == len + 1
    ensures ret[..len - 2] == Lines(URL_CODING, src, Groups(|src|)) && ret[len - 2] == '\0'
  {
    ghost var n := Groups(|src|);
    var i := ((|src| + 2) / 3) * 4;
    assert i == 4 * n;
    Allocated(n);
    i := i + 2 * (i / 60 + 1);
    len := i;
    assert len == Length(n) + 2;
    i := i + 1;
    ret := new char[i];
    var d := PutAll(src, ret, n);
    ret[d] := '\0';
  }

  /** The loop over the source; `i` counts the groups of a line. */
  method PutAll(src: seq<Byte>, ret: array<char>, ghost n: nat) returns (d: nat)
    requires |src| <= 3 * n < |src| + 3 && ret.Length >= Length(n)
    modifies ret
    ensures d == Length(n) && ret[..d] == Lines(URL_CODING, src, n)
  {
    var s, srcl, i := 0, |src|, 0;
    d := 0;
    ghost var k := 0;
    while srcl > 0
      invariant k <= n && s == 3 * k && i == k % 15 && d == Length(k)
      invariant srcl == if s < |src| then |src| - s else 0
      invariant d <= ret.Length && ret[..d] == Lines(URL_CODING, src, k)
      decreases srcl
    {
      Fits(k, n);
      d, srcl, i := PutGroup(src, s, ret, d, srcl, i, k);
      s := s + 3;
      k := k + 1;
    }
    assert k == n;
  }

  method PutGroup(src: seq<Byte>, s: nat, ret: array<char>, d0: nat, srcl0: nat, i0: nat, ghost k: nat)
    returns (d: nat, srcl: nat, i: nat)
    requires s + srcl0 == |src| && srcl0 > 0 && s == 3 * k && i0 == k % 15
    requires d0 == Length(k) && Length(k + 1) <= ret.Length && ret[..d0] == Lines(URL_CODING, src, k)
    modifies ret
    ensures srcl == (if srcl0 > 3 then srcl0 - 3 else 0) && i == (k + 1) % 15
    ensures d == Length(k + 1) && ret[..d] == Lines(URL_CODING, src, k + 1)
  {
    NextInLine(k);
    d, srcl := PutQuad(src, s, ret, d0, srcl0, k);
    i := i0 + 1;
    if i == 15 {
      i := 0;
      d := PutBreak(ret, d);
    }
  }

  method PutBreak(ret: array<char>, d0: nat) returns (d: nat)
    requires d0 + 2 <= ret.Length
    modifies ret
    ensures d == d0 + 2 && ret[..d] == old(ret[..d0]) + CRLF
  {
    ret[d0], ret[d0 + 1] := '\r', '\n';
    d := d0 + 2;
  }

  /** Round `k` leaves room for the rest. */
  lemma Fits(k: nat, n: nat)
    requires k < n
    ensures Length(k) < Length(k + 1) <= Length(n)
  {
    BreaksGrow(k, k + 1);
    BreaksGrow(k + 1, n);
  }
}
