/** Packs in a sequence, type after type: finding those of one kind, and their numbering. */
module CdTextSequence {
  import opened Bytes
  import opened CdTextFormat

  /** The packs of type `t`, given the number of the first of them. */
  datatype Source = Source(packs: (nat, nat) -> seq<Pack>)

  /** The packs of the types below `t`. */
  function Sequence(own: Source, t: nat): seq<Pack> {
    if t == 0 then [] else Sequence(own, t - 1) + own.packs(t - 1, |Sequence(own, t - 1)|)
  }

  function OfKind(packs: seq<Pack>, kind: Byte): seq<Pack> {
    if packs == [] then []
    else
      var last := packs[|packs| - 1];
      OfKind(packs[..|packs| - 1], kind) + (if last.kind == kind then [last] else [])
  }

  lemma {:induction false} OfKindConcat(a: seq<Pack>, b: seq<Pack>, kind: Byte)
    ensures OfKind(a + b, kind) == OfKind(a, kind) + OfKind(b, kind)
  {
    if b == [] {
      assert a + b == a;
    } else {
      OfKindConcat(a, b[..|b| - 1], kind);
      assert (a + b)[..|a + b| - 1] == a + b[..|b| - 1];
    }
  }

  lemma {:induction false} OfKindUniform(packs: seq<Pack>, kind: Byte, own: Byte)
    requires forall i | 0 <= i < |packs| :: packs[i].kind == own
    ensures OfKind(packs, kind) == if kind == own then packs else []
  {
    if packs != [] {
      OfKindUniform(packs[..|packs| - 1], kind, own);
    }
  }

  /** All packs of a type have its kind. */
  ghost predicate OwnKind(own: Source, t: nat, first: nat) {
    t <= LAST_TYPE && forall i | 0 <= i < |own.packs(t, first)| :: own.packs(t, first)[i].kind == Kind(t)
  }

  lemma OneMoreType(own: Source, u: nat, kind: Byte)
    requires OwnKind(own, u, |Sequence(own, u)|)
    ensures kind != Kind(u) ==> OfKind(Sequence(own, u + 1), kind) == OfKind(Sequence(own, u), kind)
    ensures kind == Kind(u) ==>
              OfKind(Sequence(own, u + 1), kind) == OfKind(Sequence(own, u), kind) + own.packs(u, |Sequence(own, u)|)
  {
    var more := own.packs(u, |Sequence(own, u)|);
    OfKindConcat(Sequence(own, u), more, kind);
    OfKindUniform(more, kind, Kind(u));
  }

  /** Types that are not of this kind do not change what is found of it. */
  lemma {:induction false} OtherTypes(own: Source, a: nat, b: nat, kind: Byte)
    requires a <= b <= LAST_TYPE + 1
    requires forall u | a <= u < b :: OwnKind(own, u, |Sequence(own, u)|) && kind != Kind(u)
    ensures OfKind(Sequence(own, b), kind) == OfKind(Sequence(own, a), kind)
    decreases b
  {
    if a < b {
      var u := b - 1;
      OtherTypes(own, a, u, kind);
      assert OwnKind(own, u, |Sequence(own, u)|);
      OneMoreType(own, u, kind);
      assert u + 1 == b;
    }
  }

  /** The packs of type `t` stay together. */
  lemma SequenceOfKind(own: Source, n: nat, t: nat)
    requires n == LAST_TYPE + 1 && t <= LAST_TYPE
    requires forall u | 0 <= u <= LAST_TYPE :: OwnKind(own, u, |Sequence(own, u)|)
    ensures OfKind(Sequence(own, n), Kind(t)) == own.packs(t, |Sequence(own, t)|)
  {
    var kind, more := Kind(t), own.packs(t, |Sequence(own, t)|);
    OtherTypes(own, t + 1, n, kind);
    OneMoreType(own, t, kind);
    OtherTypes(own, 0, t, kind);
    assert OfKind(Sequence(own, 0), kind) == [];
    assert [] + more == more;
  }

  lemma {:induction false} SequenceGrows(own: Source, t: nat, u: nat)
    requires t <= u
    ensures |Sequence(own, t)| <= |Sequence(own, u)|
    decreases u
  {
    if t < u {
      SequenceGrows(own, t, u - 1);
    }
  }

  lemma {:induction false} OfKindFew(packs: seq<Pack>, kind: Byte)
    ensures |OfKind(packs, kind)| <= |packs|
  {
    if packs != [] {
      OfKindFew(packs[..|packs| - 1], kind);
    }
  }

  ghost predicate Numbered(packs: seq<Pack>) { forall i | 0 <= i < |packs| :: packs[i].seqNo == i % 256 }

  /** The packs of a type go on with the numbering. */
  ghost predicate OwnNumbers(own: Source, t: nat, first: nat) {
    forall i | 0 <= i < |own.packs(t, first)| :: own.packs(t, first)[i].seqNo == (first + i) % 256
  }

  lemma NumberedConcat(a: seq<Pack>, b: seq<Pack>)
    requires Numbered(a) && forall i | 0 <= i < |b| :: b[i].seqNo == (|a| + i) % 256
    ensures Numbered(a + b)
  {
  }

  lemma {:induction false} SequenceNumbered(own: Source, t: nat)
    requires forall u | 0 <= u < t :: OwnNumbers(own, u, |Sequence(own, u)|)
    ensures Numbered(Sequence(own, t))
  {
    if t > 0 {
      var u := t - 1;
      SequenceNumbered(own, u);
      assert OwnNumbers(own, u, |Sequence(own, u)|);
      NumberedConcat(Sequence(own, u), own.packs(u, |Sequence(own, u)|));
    }
  }

  /** The recursion of Sequence determines it. */
  lemma {:induction false} SequenceUnique(own: Source, f: nat -> seq<Pack>, t: nat)
    requires f(0) == []
    requires forall u | 0 <= u < t :: f(u + 1) == f(u) + own.packs(u, |f(u)|)
    ensures f(t) == Sequence(own, t)
  {
    if t > 0 {
      var u := t - 1;
      SequenceUnique(own, f, u);
      assert f(u + 1) == f(u) + own.packs(u, |f(u)|);
    }
  }
}
