/** All packs of a disc: what packtext of cdrecord/cdtext.c emits, and how to read it. */
module CdTextDisc {
  import opened Bytes
  import opened CdTextFormat
  import opened CdTextSequence

  /** trackp[i].text: absent, or sixteen strings of which some are absent. */
  datatype TrackText = NoText | TrackText(codes: seq<Option<seq<Byte>>>)

  /**
   trackp[0] to trackp[n], where n is the last track number: number 0 is the disc, then come the
   tracks. If the first track has a number above 1, the last entries have no text.
   */
  type Disc = seq<TrackText>

  ghost predicate WellFormed(disc: Disc) {
    1 <= |disc| <= 100 && forall i | 0 <= i < |disc| :: TextOk(disc[i])
  }

  /** What packtext is given for a disc of `|disc| - firstTrack` tracks, the first of which has this number. */
  ghost predicate Placed(disc: Disc, firstTrack: nat) {
    && WellFormed(disc) && 1 <= firstTrack <= |disc|
    && forall i | |disc| - firstTrack < i < |disc| :: disc[i] == NoText
  }

  ghost predicate TextOk(track: TrackText) {
    track.TrackText? ==>
      |track.codes| == 16 && forall t | 0 <= t < 16 && track.codes[t].Some? :: NulFree(track.codes[t].value)
  }

  /** A missing string counts as empty. */
  function StringOf(track: TrackText, t: nat): seq<Byte> {
    if track.TrackText? && t < |track.codes| && track.codes[t].Some? then track.codes[t].value else []
  }

  function StringsOf(disc: Disc, t: nat): (r: Strings)
    ensures |r| == |disc|
  {
    seq(|disc|, i requires 0 <= i < |disc| => StringOf(disc[i], t))
  }

  predicate AnyText(disc: Disc, t: nat) { exists i | 0 <= i < |disc| :: StringOf(disc[i], t) != [] }

  /** The disc id is packed for the disc only. */
  function Fields(disc: Disc, t: nat): nat
    requires disc != []
  {
    if t == DISC_ID then 1 else |disc|
  }

  /** The text stream of a type. */
  function TypeCells(disc: Disc, t: nat): seq<Cell>
    requires disc != []
  {
    Stream(StringsOf(disc, t), Fields(disc, t))
  }

  /** The packs of type `t`, the first of them having number `first`; none if no track has such text. */
  function TypePacks(disc: Disc, t: nat, first: nat): seq<Pack> {
    if disc != [] && t <= LAST_TYPE && AnyText(disc, t) then Packs(Kind(t), first, TypeCells(disc, t)) else []
  }

  function Own(disc: Disc): Source { Source((t: nat, first: nat) => TypePacks(disc, t, first)) }

  /** The packs of the types below `t`. */
  function TextPacks(disc: Disc, t: nat): seq<Pack> {
    if t == 0 then []
    else
      var before := TextPacks(disc, t - 1);
      before + Own(disc).packs(t - 1, |before|)
  }

  /** The structure textsizes: character code, tracks, copyright, pack counts, last sequence numbers, languages. */
  function SizeInfo(text: seq<Pack>, entries: nat, firstTrack: nat): (r: seq<Byte>)
    ensures |r| == 36
  {
    [0, firstTrack % 256, (entries - 1) % 256, 0] + PackCounts(text) +
    ([(|text| + 2) % 256] + Zeros(7)) + ([9] + Zeros(7))
  }

  /** pack_count: the size packs are three. */
  function PackCounts(text: seq<Pack>): (r: seq<Byte>)
    ensures |r| == 16
  {
    seq(16, t requires 0 <= t < 16 => if t == 15 then 3 else |OfKind(text, Kind(t))| % 256)
  }

  /** Each third of the size information makes a pack, numbered like a track. */
  function SizeCells(info: seq<Byte>): seq<Cell>
    requires |info| == 36
  {
    Cells(info[..12], 0) + Cells(info[12..24], 1) + Cells(info[24..], 2)
  }

  /** The text packs with the size packs behind them. */
  function WithSizes(text: seq<Pack>, entries: nat, firstTrack: nat): seq<Pack> {
    text + Packs(SIZE_KIND, |text|, SizeCells(SizeInfo(text, entries, firstTrack)))
  }

  /** All packs; the first track has number `firstTrack`. */
  function Output(disc: Disc, firstTrack: nat): seq<Pack>
    requires disc != []
  {
    WithSizes(TextPacks(disc, LAST_TYPE + 1), |disc|, firstTrack)
  }

  /** What a reader takes from the packs: the first `n` strings of type `t`. */
  function ReadStrings(packs: seq<Pack>, t: nat, n: nat): Strings
    requires t <= LAST_TYPE
  {
    var own := OfKind(packs, 0x80 + t);
    if own == [] then seq(n, _ => []) else Split(Joined(own), n)
  }

  // ------------------------------------------------------------------ the packs of one kind

  lemma PacksUniform(kind: Byte, first: nat, cells: seq<Cell>)
    ensures forall i | 0 <= i < |Packs(kind, first, cells)| ::
              Packs(kind, first, cells)[i].kind == kind && Packs(kind, first, cells)[i].seqNo == (first + i) % 256
  {
    forall i | 0 <= i < |Packs(kind, first, cells)|
      ensures Packs(kind, first, cells)[i].kind == kind && Packs(kind, first, cells)[i].seqNo == (first + i) % 256
    {
      PacksAt(kind, first, cells, i);
    }
  }

  lemma OfKindPacks(kind: Byte, own: Byte, first: nat, cells: seq<Cell>)
    ensures OfKind(Packs(own, first, cells), kind) == if kind == own then Packs(own, first, cells) else []
  {
    PacksUniform(own, first, cells);
    OfKindUniform(Packs(own, first, cells), kind, own);
  }

  lemma TypeIsOwn(disc: Disc, t: nat, first: nat)
    requires t <= LAST_TYPE
    ensures OwnKind(Own(disc), t, first) && OwnNumbers(Own(disc), t, first)
  {
    if disc != [] && AnyText(disc, t) {
      PacksUniform(Kind(t), first, TypeCells(disc, t));
    }
  }

  lemma TextPacksStep(disc: Disc, u: nat)
    ensures TextPacks(disc, u + 1) == TextPacks(disc, u) + Own(disc).packs(u, |TextPacks(disc, u)|)
  {
  }

  lemma TextPacksAreSequence(disc: Disc, t: nat)
    ensures TextPacks(disc, t) == Sequence(Own(disc), t)
  {
    var own, f := Own(disc), (u: nat) => TextPacks(disc, u);
    forall u | 0 <= u < t
      ensures f(u + 1) == f(u) + own.packs(u, |f(u)|)
    {
      TextPacksStep(disc, u);
    }
    SequenceUnique(own, f, t);
  }

  lemma AllOwn(disc: Disc)
    ensures forall u | 0 <= u <= LAST_TYPE ::
              OwnKind(Own(disc), u, |Sequence(Own(disc), u)|) && OwnNumbers(Own(disc), u, |Sequence(Own(disc), u)|)
  {
    forall u | 0 <= u <= LAST_TYPE
      ensures OwnKind(Own(disc), u, |Sequence(Own(disc), u)|) && OwnNumbers(Own(disc), u, |Sequence(Own(disc), u)|)
    {
      TypeIsOwn(disc, u, |Sequence(Own(disc), u)|);
    }
  }

  /** The packs of type `t` stay together. */
  lemma TextPacksOfKind(disc: Disc, n: nat, t: nat)
    requires n == LAST_TYPE + 1 && t <= LAST_TYPE
    ensures OfKind(TextPacks(disc, n), Kind(t)) == TypePacks(disc, t, |TextPacks(disc, t)|)
  {
    AllOwn(disc);
    SequenceOfKind(Own(disc), n, t);
    TextPacksAreSequence(disc, n);
    TextPacksAreSequence(disc, t);
  }

  lemma NoSizePackYet(disc: Disc, n: nat)
    requires n == LAST_TYPE + 1
    ensures OfKind(TextPacks(disc, n), SIZE_KIND) == []
  {
    AllOwn(disc);
    OtherTypes(Own(disc), 0, n, SIZE_KIND);
    TextPacksAreSequence(disc, n);
  }

  lemma TextPacksNumbered(disc: Disc, n: nat)
    requires n <= LAST_TYPE + 1
    ensures Numbered(TextPacks(disc, n))
  {
    AllOwn(disc);
    SequenceNumbered(Own(disc), n);
    TextPacksAreSequence(disc, n);
  }

  lemma WithSizesOfKind(text: seq<Pack>, entries: nat, firstTrack: nat, t: nat)
    requires t <= LAST_TYPE
    ensures OfKind(WithSizes(text, entries, firstTrack), Kind(t)) == OfKind(text, Kind(t))
  {
    var cells := SizeCells(SizeInfo(text, entries, firstTrack));
    OfKindConcat(text, Packs(SIZE_KIND, |text|, cells), Kind(t));
    OfKindPacks(Kind(t), SIZE_KIND, |text|, cells);
    assert OfKind(text, Kind(t)) + [] == OfKind(text, Kind(t));
  }

  // ------------------------------------------------------------------ theorems

  lemma EmptyUnlessAnyText(disc: Disc, t: nat, n: nat)
    requires !AnyText(disc, t) && n <= |disc|
    ensures StringsOf(disc, t)[..n] == seq(n, _ => [])
  {
  }

  /** A reader of the packs gets every track's string back, for every type; type 6 is for the disc only. */
  lemma PackingIsInvertible(disc: Disc, firstTrack: nat, t: nat)
    requires WellFormed(disc) && t <= 0x0e
    ensures var n := if t == 6 then 1 else |disc|;
            ReadStrings(Output(disc, firstTrack), t, n) == StringsOf(disc, t)[..n]
  {
    var text, first := TextPacks(disc, LAST_TYPE + 1), |TextPacks(disc, t)|;
    TextPacksOfKind(disc, LAST_TYPE + 1, t);
    ReadsBack(text, |disc|, firstTrack, disc, t, first);
  }

  lemma ReadsBack(text: seq<Pack>, entries: nat, firstTrack: nat, disc: Disc, t: nat, first: nat)
    requires WellFormed(disc) && t <= LAST_TYPE && OfKind(text, Kind(t)) == TypePacks(disc, t, first)
    ensures ReadStrings(WithSizes(text, entries, firstTrack), t, Fields(disc, t)) ==
              StringsOf(disc, t)[..Fields(disc, t)]
  {
    WithSizesOfKind(text, entries, firstTrack, t);
    TypeReadsBack(disc, t, TypePacks(disc, t, first), first);
  }

  lemma TypeReadsBack(disc: Disc, t: nat, own: seq<Pack>, first: nat)
    requires WellFormed(disc) && t <= LAST_TYPE && own == TypePacks(disc, t, first)
    ensures (if own == [] then seq(Fields(disc, t), _ => []) else Split(Joined(own), Fields(disc, t)))
         == StringsOf(disc, t)[..Fields(disc, t)]
  {
    if AnyText(disc, t) {
      StringsAreNulFree(disc, t);
      StreamReadsBack(StringsOf(disc, t), Fields(disc, t), Kind(t), first);
    } else {
      EmptyUnlessAnyText(disc, t, Fields(disc, t));
    }
  }

  lemma StringsAreNulFree(disc: Disc, t: nat)
    requires WellFormed(disc) && t <= LAST_TYPE
    ensures forall i | 0 <= i < |disc| :: NulFree(StringsOf(disc, t)[i])
  {
    forall i | 0 <= i < |disc|
      ensures NulFree(StringsOf(disc, t)[i])
    {
      assert TextOk(disc[i]);
    }
  }

  /** The sequence numbers of up to 256 packs are 0, 1, 2, ... */
  lemma PacksAreNumbered(disc: Disc, firstTrack: nat, i: nat)
    requires disc != [] && i < |Output(disc, firstTrack)| <= 256
    ensures Output(disc, firstTrack)[i].seqNo == i
  {
    TextPacksNumbered(disc, LAST_TYPE + 1);
    WithSizesNumbered(TextPacks(disc, LAST_TYPE + 1), |disc|, firstTrack);
  }

  lemma WithSizesNumbered(text: seq<Pack>, entries: nat, firstTrack: nat)
    requires Numbered(text)
    ensures Numbered(WithSizes(text, entries, firstTrack))
  {
    PacksUniform(SIZE_KIND, |text|, SizeCells(SizeInfo(text, entries, firstTrack)));
    NumberedConcat(text, Packs(SIZE_KIND, |text|, SizeCells(SizeInfo(text, entries, firstTrack))));
  }

  lemma SizeCellsValues(info: seq<Byte>)
    requires |info| == 36
    ensures Values(SizeCells(info)) == info
  {
  }

  /** 36 bytes fill three packs, without padding. */
  lemma SizePacksJoin(first: nat, info: seq<Byte>)
    requires |info| == 36
    ensures |Packs(SIZE_KIND, first, SizeCells(info))| == 3
    ensures Joined(Packs(SIZE_KIND, first, SizeCells(info))) == info
  {
    JoinedPacks(SIZE_KIND, first, SizeCells(info));
    SizeCellsValues(info);
    assert Zeros(0) == [];
  }

  /** The size packs hold the size information. */
  lemma SizePacksHold(text: seq<Pack>, entries: nat, firstTrack: nat)
    requires OfKind(text, SIZE_KIND) == []
    ensures var own := OfKind(WithSizes(text, entries, firstTrack), SIZE_KIND);
            |own| == 3 && Joined(own) == SizeInfo(text, entries, firstTrack)
  {
    var info := SizeInfo(text, entries, firstTrack);
    var own := Packs(SIZE_KIND, |text|, SizeCells(info));
    OfKindConcat(text, own, SIZE_KIND);
    OfKindPacks(SIZE_KIND, SIZE_KIND, |text|, SizeCells(info));
    assert [] + own == own;
    SizePacksJoin(|text|, info);
  }

  lemma SizePackHeader(text: seq<Pack>, info: seq<Byte>, i: nat)
    requires |info| == 36 && i < 3 && |text| + 3 <= 256
    ensures var p := text + Packs(SIZE_KIND, |text|, SizeCells(info));
            && |p| == |text| + 3
            && var pack := p[|text| + i];
               pack.kind == 0x8f && pack.track == i && pack.block == 0 && pack.seqNo == |text| + i
  {
    var cells := SizeCells(info);
    SizePacksJoin(|text|, info);
    PacksAt(SIZE_KIND, |text|, cells, i);
    assert Chunk(cells, i)[0] == cells[12 * i];
  }

  /** The size packs come behind the text; their track fields number them. */
  lemma SizePackHeaders(disc: Disc, firstTrack: nat, i: nat)
    requires disc != [] && i < 3 && |Output(disc, firstTrack)| <= 256
    ensures var p := Output(disc, firstTrack);
            && |p| >= 3
            && var pack := p[|p| - 3 + i];
               pack.kind == 0x8f && pack.track == i && pack.block == 0 && pack.seqNo == |p| - 3 + i
  {
    var text := TextPacks(disc, LAST_TYPE + 1);
    SizePacksJoin(|text|, SizeInfo(text, |disc|, firstTrack));
    SizePackHeader(text, SizeInfo(text, |disc|, firstTrack), i);
  }

  lemma SizeInfoFields(text: seq<Pack>, entries: nat, firstTrack: nat, t: nat)
    requires |text| + 3 <= 256 && 0 < entries <= 256 && firstTrack < 256 && t <= LAST_TYPE
    ensures var info := SizeInfo(text, entries, firstTrack);
            && info[4 + t] == |OfKind(text, Kind(t))| && info[4 + 15] == 3
            && info[20] == |text| + 2 && info[1] == firstTrack && info[2] == entries - 1
  {
    OfKindFew(text, Kind(t));
    assert SizeInfo(text, entries, firstTrack)[4 + t] == PackCounts(text)[t];
    assert SizeInfo(text, entries, firstTrack)[4 + 15] == PackCounts(text)[15];
  }

  /** The size information read back from the packs `p`. */
  function SizesIn(p: seq<Pack>): seq<Byte> { Joined(OfKind(p, SIZE_KIND)) }

  /**
   The size information read back from up to 256 packs agrees with the packs: the number of
   packs of every type, the last sequence number, and the first and the last track. The character
   code and the copyright byte are 0, and the language is 9 in the first of eight blocks.
   */
  lemma SizesAgree(disc: Disc, firstTrack: nat, t: nat)
    requires WellFormed(disc) && |Output(disc, firstTrack)| <= 256 && firstTrack < 256 && t <= LAST_TYPE
    ensures var p := Output(disc, firstTrack); var info := SizesIn(p);
            && |info| == 36
            && info[4 + t] == |OfKind(p, Kind(t))| && info[4 + 15] == |OfKind(p, SIZE_KIND)|
            && info[20] == |p| - 1 && info[1] == firstTrack && info[2] == |disc| - 1
            && info[0] == 0 && info[3] == 0 && info[21..28] == Zeros(7) && info[28] == 9 && info[29..] == Zeros(7)
  {
    NoSizePackYet(disc, LAST_TYPE + 1);
    SizesAgreeFor(TextPacks(disc, LAST_TYPE + 1), |disc|, firstTrack, t);
  }

  lemma SizesAgreeFor(text: seq<Pack>, entries: nat, firstTrack: nat, t: nat)
    requires OfKind(text, SIZE_KIND) == [] && |text| + 3 <= 256
    requires 0 < entries <= 256 && firstTrack < 256 && t <= LAST_TYPE
    ensures var p := WithSizes(text, entries, firstTrack); var info := SizesIn(p);
            && |p| == |text| + 3 && |info| == 36
            && info[4 + t] == |OfKind(p, Kind(t))| && info[4 + 15] == |OfKind(p, SIZE_KIND)|
            && info[20] == |p| - 1 && info[1] == firstTrack && info[2] == entries - 1
            && info[0] == 0 && info[3] == 0 && info[21..28] == Zeros(7) && info[28] == 9 && info[29..] == Zeros(7)
  {
    SizePacksHold(text, entries, firstTrack);
    WithSizesOfKind(text, entries, firstTrack, t);
    SizeInfoFields(text, entries, firstTrack, t);
  }

  /** What a reader of the packs takes for the string of the track numbered `n` is that track's string. */
  ghost predicate ReadRight(disc: Disc, firstTrack: nat, t: nat, n: nat)
    requires disc != [] && t <= LAST_TYPE && 1 <= firstTrack <= n < |disc|
  {
    var strings := ReadStrings(Output(disc, firstTrack), t, Fields(disc, t));
    n < |strings| && strings[n] == StringOf(disc[n - firstTrack + 1], t)
  }

  /** Whatever the first track number is, a reader finds at `n` what is at place `n` of the array. */
  lemma ReadAtPlace(disc: Disc, firstTrack: nat, t: nat, n: nat)
    requires WellFormed(disc) && t <= LAST_TYPE && t != DISC_ID && 1 <= firstTrack <= n < |disc|
    ensures ReadRight(disc, firstTrack, t, n) <==> StringOf(disc[n], t) == StringOf(disc[n - firstTrack + 1], t)
  {
    PackingIsInvertible(disc, firstTrack, t);
  }

  /** A disc of one track with a title, numbered `firstTrack`. */
  function OneTrack(firstTrack: nat): (disc: Disc)
    ensures |disc| == firstTrack + 1
  {
    seq(firstTrack + 1, i => if i == 1 then TrackText(seq(16, _ => Some([65]))) else NoText)
  }

  lemma OneTrackPlaced(firstTrack: nat)
    requires 1 <= firstTrack < 100
    ensures Placed(OneTrack(firstTrack), firstTrack)
  {
  }

  /**
   The strings of the tracks of every disc are read under the tracks' numbers if and only if the
   first track has number 1, because the packs name a track by its place in the array.
   */
  lemma NumbersReadRightIff(firstTrack: nat)
    requires 1 <= firstTrack < 100
    ensures (forall disc, t: nat, n |
               Placed(disc, firstTrack) && t <= LAST_TYPE && t != DISC_ID && firstTrack <= n < |disc| ::
               ReadRight(disc, firstTrack, t, n))
            <==> firstTrack == 1
  {
    if firstTrack == 1 {
      forall disc, t: nat, n | Placed(disc, firstTrack) && t <= LAST_TYPE && t != DISC_ID && firstTrack <= n < |disc|
        ensures ReadRight(disc, firstTrack, t, n)
      {
        ReadAtPlace(disc, firstTrack, t, n);
      }
    } else {
      OneTrackPlaced(firstTrack);
      ReadAtPlace(OneTrack(firstTrack), firstTrack, 0, firstTrack);
      assert !ReadRight(OneTrack(firstTrack), firstTrack, 0, firstTrack);
    }
  }
}
