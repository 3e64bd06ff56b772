/** The sixty-four characters of rfc822_binary (cdda2wav/base64.c); the last two and the pad suit URLs. */
module Base64Alphabet {

  const ALPHABET := "ABCDEFGHIJKLMNOP" + "QRSTUVWXYZabcdef" + "ghijklmnopqrstuv" + "wxyz0123456789._"

  const PAD := '-'

  /** The character for six bits, by ranges. */
  function Letter(i: nat): char
    requires i < 64
  {
    if i < 26 then 'A' + i as char
    else if i < 52 then 'a' + (i - 26) as char
    else if i < 62 then '0' + (i - 52) as char
    else if i == 62 then '.' else '_'
  }

  /** The six bits of a character; 64 for any other character. */
  function Value(c: char): (v: nat)
    ensures v <= 64
  {
    if 'A' <= c <= 'Z' then (c - 'A') as nat
    else if 'a' <= c <= 'z' then (c - 'a') as nat + 26
    else if '0' <= c <= '9' then (c - '0') as nat + 52
    else if c == '.' then 62
    else if c == '_' then 63 else 64
  }

  lemma ValueOfLetter(i: nat)
    requires i < 64
    ensures Value(Letter(i)) == i && Letter(i) != PAD && Letter(i) != '\r' && Letter(i) != '\n'
  {
  }

  lemma Letters0(i: nat)
    requires 0 <= i < 16
    ensures ALPHABET[i] == Letter(i)
  {
    var row := "ABCDEFGHIJKLMNOP";
    assert ALPHABET[i] == row[i - 0];
    assert row[0] == Letter(0) && row[1] == Letter(1) && row[2] == Letter(2) && row[3] == Letter(3)
        && row[4] == Letter(4) && row[5] == Letter(5) && row[6] == Letter(6) && row[7] == Letter(7)
        && row[8] == Letter(8) && row[9] == Letter(9) && row[10] == Letter(10) && row[11] == Letter(11)
        && row[12] == Letter(12) && row[13] == Letter(13) && row[14] == Letter(14) && row[15] == Letter(15);
  }

  lemma Letters16(i: nat)
    requires 16 <= i < 32
    ensures ALPHABET[i] == Letter(i)
  {
    var row := "QRSTUVWXYZabcdef";
    assert ALPHABET[i] == row[i - 16];
    assert row[0] == Letter(16) && row[1] == Letter(17) && row[2] == Letter(18) && row[3] == Letter(19)
        && row[4] == Letter(20) && row[5] == Letter(21) && row[6] == Letter(22) && row[7] == Letter(23)
        && row[8] == Letter(24) && row[9] == Letter(25) && row[10] == Letter(26) && row[11] == Letter(27)
        && row[12] == Letter(28) && row[13] == Letter(29) && row[14] == Letter(30) && row[15] == Letter(31);
  }

  lemma Letters32(i: nat)
    requires 32 <= i < 48
    ensures ALPHABET[i] == Letter(i)
  {
    var row := "ghijklmnopqrstuv";
    assert ALPHABET[i] == row[i - 32];
    assert row[0] == Letter(32) && row[1] == Letter(33) && row[2] == Letter(34) && row[3] == Letter(35)
        && row[4] == Letter(36) && row[5] == Letter(37) && row[6] == Letter(38) && row[7] == Letter(39)
        && row[8] == Letter(40) && row[9] == Letter(41) && row[10] == Letter(42) && row[11] == Letter(43)
        && row[12] == Letter(44) && row[13] == Letter(45) && row[14] == Letter(46) && row[15] == Letter(47);
  }

  lemma Letters48(i: nat)
    requires 48 <= i < 64
    ensures ALPHABET[i] == Letter(i)
  {
    var row := "wxyz0123456789._";
    assert ALPHABET[i] == row[i - 48];
    assert row[0] == Letter(48) && row[1] == Letter(49) && row[2] == Letter(50) && row[3] == Letter(51)
        && row[4] == Letter(52) && row[5] == Letter(53) && row[6] == Letter(54) && row[7] == Letter(55)
        && row[8] == Letter(56) && row[9] == Letter(57) && row[10] == Letter(58) && row[11] == Letter(59)
        && row[12] == Letter(60) && row[13] == Letter(61) && row[14] == Letter(62) && row[15] == Letter(63);
  }

  /** The table lookup. */
  function V(i: nat): (c: char)
    ensures i < 64 ==> c == Letter(i)
  {
    if i < 16 then Letters0(i); ALPHABET[i]
    else if i < 32 then Letters16(i); ALPHABET[i]
    else if i < 48 then Letters32(i); ALPHABET[i]
    else if i < 64 then Letters48(i); ALPHABET[i]
    else PAD
  }

  /** Characters for six-bit values, and the values of characters. */
  datatype Coding = Coding(v: nat -> char, value: char -> nat)

  const URL_CODING := Coding(V, Value)

  ghost predicate Lawful(code: Coding) {
    forall i | 0 <= i < 64 ::
      code.value(code.v(i)) == i && code.v(i) != PAD && code.v(i) != '\r' && code.v(i) != '\n'
  }

  lemma UrlCodingLawful()
    ensures Lawful(URL_CODING)
  {
    forall i | 0 <= i < 64
      ensures Value(V(i)) == i && V(i) != PAD && V(i) != '\r' && V(i) != '\n'
    {
      ValueOfLetter(i);
    }
  }
}
