/**
 The CD-Text packs that packtext in cdrecord/cdtext.c is to produce, and what a reader of
 the packs can recover from them.
 */
module CdTextFormat {
  import opened Bytes

  /** A pack without the two checksum bytes; `closed` once fillcrc has filled those in. */
  datatype Pack = Pack(kind: Byte, track: Byte, seqNo: Byte, block: Byte, text: seq<Byte>, closed: bool)

  /** A byte of the text stream, with the track it belongs to and its position in that track's string. */
  datatype Cell = Cell(value: Byte, track: nat, charPos: nat)

  /** textcodes: the strings of the disc (number 0) and of the tracks, by pack type; a missing one is empty. */
  type Strings = seq<seq<Byte>>

  const LAST_TYPE := 0x0E
  const DISC_ID := 6
  const SIZE_KIND: Byte := 0x8f

  function Kind(t: nat): Byte
    requires t <= 0x0f
  {
    0x80 + t
  }

  predicate NulFree(s: seq<Byte>) { forall i | 0 <= i < |s| :: s[i] != 0 }

  // ------------------------------------------------------------------ the stream of one type

  function Cells(text: seq<Byte>, track: nat): (r: seq<Cell>)
    ensures |r| == |text|
  {
    seq(|text|, i requires 0 <= i < |text| => Cell(text[i], track, i))
  }

  /** The strings of the first `n` tracks, each with its NUL. */
  function Stream(strings: Strings, n: nat): seq<Cell>
    requires n <= |strings|
  {
    if n == 0 then [] else Stream(strings, n - 1) + Cells(strings[n - 1] + [0], n - 1)
  }

  function Values(cells: seq<Cell>): (r: seq<Byte>)
    ensures |r| == |cells|
  {
    seq(|cells|, i requires 0 <= i < |cells| => cells[i].value)
  }

  /** One to twelve cells as a pack; the first cell decides about the header. */
  function MakePack(kind: Byte, seqNo: nat, cells: seq<Cell>): Pack
    requires 0 < |cells| <= 12
  {
    Pack(kind, cells[0].track % 256, seqNo % 256, if cells[0].charPos < 15 then cells[0].charPos else 15,
         Values(cells) + Zeros(12 - |cells|), true)
  }

  /** The cells from number 12 * k on that fit into one pack. */
  function Chunk(cells: seq<Cell>, k: nat): (r: seq<Cell>)
    requires 12 * k < |cells|
    ensures 0 < |r| <= 12
  {
    if 12 * k + 12 <= |cells| then cells[12 * k..12 * k + 12] else cells[12 * k..]
  }

  /** How many packs `n` bytes take. */
  function PackCount(n: nat): nat { (n + 11) / 12 }

  /** All packs of a stream; the last one may be padded. */
  function Packs(kind: Byte, first: nat, cells: seq<Cell>): (r: seq<Pack>)
    ensures |r| == PackCount(|cells|)
    decreases |cells|
  {
    if cells == [] then []
    else
      var k := (|cells| - 1) / 12;
      Packs(kind, first, cells[..12 * k]) + [MakePack(kind, first + k, cells[12 * k..])]
  }

  lemma ChunkOfPrefix(cells: seq<Cell>, k: nat, last: nat)
    requires k < last && 12 * last < |cells|
    ensures Chunk(cells[..12 * last], k) == Chunk(cells, k)
  {
  }

  lemma {:induction false} PacksAt(kind: Byte, first: nat, cells: seq<Cell>, k: nat)
    requires 12 * k < |cells|
    ensures k < PackCount(|cells|)
    ensures Packs(kind, first, cells)[k] == MakePack(kind, first + k, Chunk(cells, k))
    decreases |cells|
  {
    var last := (|cells| - 1) / 12;
    if k < last {
      PacksAt(kind, first, cells[..12 * last], k);
      ChunkOfPrefix(cells, k, last);
    } else {
      assert Chunk(cells, k) == cells[12 * k..];
    }
  }

  // ------------------------------------------------------------------ reading it back

  /** The text fields of the packs, joined. */
  function Joined(packs: seq<Pack>): seq<Byte> {
    if packs == [] then [] else Joined(packs[..|packs| - 1]) + packs[|packs| - 1].text
  }

  /** The position of the first NUL, or the length. */
  function FirstNul(s: seq<Byte>): (r: nat)
    ensures r <= |s|
  {
    if s == [] || s[0] == 0 then 0 else 1 + FirstNul(s[1..])
  }

  /** The first `n` NUL-terminated strings. */
  function Split(s: seq<Byte>, n: nat): Strings
    decreases n
  {
    if n == 0 then [] else
      var i := FirstNul(s);
      [s[..i]] + Split(if i < |s| then s[i + 1..] else [], n - 1)
  }

  // ------------------------------------------------------------------ splitting gives the strings back

  function Text(strings: Strings): seq<Byte> {
    if strings == [] then [] else strings[0] + [0] + Text(strings[1..])
  }

  lemma {:induction false} TextSnoc(strings: Strings, s: seq<Byte>)
    ensures Text(strings + [s]) == Text(strings) + s + [0]
  {
    if strings == [] {
      assert strings + [s] == [s];
      assert Text([]) == [];
    } else {
      TextSnoc(strings[1..], s);
      assert (strings + [s])[1..] == strings[1..] + [s];
    }
  }

  lemma {:induction false} StreamText(strings: Strings, n: nat)
    requires n <= |strings|
    ensures Values(Stream(strings, n)) == Text(strings[..n])
  {
    if n > 0 {
      StreamText(strings, n - 1);
      TextSnoc(strings[..n - 1], strings[n - 1]);
      assert strings[..n] == strings[..n - 1] + [strings[n - 1]];
      assert Values(Stream(strings, n)) == Values(Stream(strings, n - 1)) + (strings[n - 1] + [0]);
    }
  }

  lemma {:induction false} FirstNulAfter(s: seq<Byte>, rest: seq<Byte>)
    requires NulFree(s)
    ensures FirstNul(s + [0] + rest) == |s|
  {
    var t := s + [0] + rest;
    if s != [] {
      FirstNulAfter(s[1..], rest);
      assert t[1..] == s[1..] + [0] + rest;
    }
  }

  lemma {:induction false} SplitText(strings: Strings, rest: seq<Byte>)
    requires forall i | 0 <= i < |strings| :: NulFree(strings[i])
    ensures Split(Text(strings) + rest, |strings|) == strings
  {
    if strings != [] {
      var later := Text(strings[1..]) + rest;
      var all := strings[0] + [0] + later;
      assert Text(strings) + rest == all;
      FirstNulAfter(strings[0], later);
      assert all[..|strings[0]|] == strings[0];
      assert all[|strings[0]| + 1..] == later;
      SplitText(strings[1..], rest);
    }
  }

  // ------------------------------------------------------------------ the packs of one type

  /** The text fields of a type's packs are its stream, padded with NULs to whole packs. */
  lemma {:induction false} JoinedPacks(kind: Byte, first: nat, cells: seq<Cell>)
    ensures Joined(Packs(kind, first, cells)) ==
              Values(cells) + Zeros(12 * PackCount(|cells|) - |cells|)
    decreases |cells|
  {
    if cells != [] {
      var k := (|cells| - 1) / 12;
      var front, last := cells[..12 * k], cells[12 * k..];
      JoinedPacks(kind, first, front);
      assert Zeros(12 * PackCount(|front|) - |front|) == [];
      var packs := Packs(kind, first, cells);
      assert packs[..|packs| - 1] == Packs(kind, first, front);
      assert Values(cells) == Values(front) + Values(last);
    }
  }

  /** What a reader gets from the packs of one stream: its strings. */
  lemma StreamReadsBack(strings: Strings, n: nat, kind: Byte, first: nat)
    requires 0 < n <= |strings| && forall i | 0 <= i < n :: NulFree(strings[i])
    ensures Packs(kind, first, Stream(strings, n)) != []
    ensures Split(Joined(Packs(kind, first, Stream(strings, n))), n) == strings[..n]
  {
    var cells := Stream(strings, n);
    StreamText(strings, n);
    JoinedPacks(kind, first, cells);
    SplitText(strings[..n], Zeros(12 * PackCount(|cells|) - |cells|));
  }

  // ------------------------------------------------------------------ headers

  /** Where the string of track `n` starts in the stream. */
  function Start(strings: Strings, n: nat): nat
    requires n <= |strings|
  {
    if n == 0 then 0 else Start(strings, n - 1) + |strings[n - 1]| + 1
  }

  /** Position `pos` of the stream is character `c` of track `track`; its NUL counts as one. */
  predicate Lies(strings: Strings, track: nat, c: nat, pos: nat) {
    track < |strings| && c <= |strings[track]| && pos == Start(strings, track) + c
  }

  lemma {:induction false} StreamAt(strings: Strings, n: nat, pos: nat)
    requires n <= |strings| && pos < |Stream(strings, n)|
    ensures |Stream(strings, n)| == Start(strings, n)
    ensures var cell := Stream(strings, n)[pos]; cell.track < n && Lies(strings, cell.track, cell.charPos, pos)
  {
    StreamLength(strings, n - 1);
    if pos < |Stream(strings, n - 1)| {
      StreamAt(strings, n - 1, pos);
    }
  }

  lemma {:induction false} StreamLength(strings: Strings, n: nat)
    requires n <= |strings|
    ensures |Stream(strings, n)| == Start(strings, n)
  {
    if n > 0 {
      StreamLength(strings, n - 1);
    }
  }

  lemma {:induction false} StartsGrow(strings: Strings, a: nat, b: nat)
    requires a < b <= |strings|
    ensures Start(strings, a) + |strings[a]| < Start(strings, b)
    decreases b
  {
    if a < b - 1 {
      StartsGrow(strings, a, b - 1);
    }
  }

  /** A position lies in one track only. */
  lemma LiesOnce(strings: Strings, track: nat, c: nat, track': nat, c': nat, pos: nat)
    requires Lies(strings, track, c, pos) && Lies(strings, track', c', pos)
    ensures track == track' && c == c'
  {
    if track < track' {
      StartsGrow(strings, track, track');
    } else if track' < track {
      StartsGrow(strings, track', track);
    }
  }

  lemma CellAt(strings: Strings, n: nat, pos: nat, track: nat, c: nat)
    requires n <= |strings| && pos < |Stream(strings, n)| && Lies(strings, track, c, pos)
    ensures var cell := Stream(strings, n)[pos]; cell.track == track < n && cell.charPos == c
  {
    var cell := Stream(strings, n)[pos];
    StreamAt(strings, n, pos);
    LiesOnce(strings, track, c, cell.track, cell.charPos, pos);
  }

  lemma PackOfCell(kind: Byte, first: nat, cells: seq<Cell>, k: nat)
    requires 12 * k < |cells|
    ensures k < PackCount(|cells|)
    ensures var pack, c := Packs(kind, first, cells)[k], cells[12 * k].charPos;
            && pack.kind == kind && pack.closed
            && pack.track == cells[12 * k].track % 256 && pack.block == (if c < 15 then c else 15)
  {
    PacksAt(kind, first, cells, k);
  }

  /** The header of a pack names the track and the character position of the pack's first byte. */
  lemma PackHeader(strings: Strings, n: nat, kind: Byte, first: nat, k: nat, track: nat, c: nat)
    requires n <= |strings| <= 100 && 12 * k < |Stream(strings, n)|
    requires Lies(strings, track, c, 12 * k)
    ensures k < PackCount(|Stream(strings, n)|)
    ensures var pack := Packs(kind, first, Stream(strings, n))[k];
            && pack.track == track && pack.block == (if c < 15 then c else 15)
            && pack.kind == kind && pack.closed && track < n
  {
    PackOfCell(kind, first, Stream(strings, n), k);
    CellAt(strings, n, 12 * k, track, c);
  }
}
