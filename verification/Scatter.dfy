/** Spreading and gathering sectors in place (scatter_secs of cdrecord/movesect.c). */
module Scatter {
  import opened Bytes

  /** Where sector `i` starts when sectors take `size` bytes. */
  function At(i: nat, size: nat): nat { if i == 0 then 0 else At(i - 1, size) + size }

  function Min(a: nat, b: nat): nat { if a <= b then a else b }

  lemma {:induction false} AtLater(i: nat, j: nat, size: nat)
    requires i < j
    ensures At(i, size) + size <= At(j, size)
    decreases j
  {
    if i < j - 1 {
      AtLater(i, j - 1, size);
    }
  }

  lemma {:induction false} AtSmaller(i: nat, a: nat, b: nat)
    requires a <= b
    ensures At(i, a) <= At(i, b)
  {
    if i > 0 {
      AtSmaller(i - 1, a, b);
    }
  }

  /** The first `m` bytes of sector `i`. */
  function Sector(s: seq<Byte>, i: nat, size: nat, m: nat): seq<Byte>
    requires At(i, size) + m <= |s|
  {
    s[At(i, size)..At(i, size) + m]
  }

  /** `n` sectors of `size` bytes fit. */
  predicate Room(s: seq<Byte>, n: nat, size: nat) { At(n, size) <= |s| }

  lemma RoomFor(s: seq<Byte>, n: nat, size: nat, i: nat)
    requires Room(s, n, size) && i < n
    ensures At(i, size) + size <= |s|
  {
    AtLater(i, n, size);
  }

  /** Sector `i` of `t` has the bytes that sector `i` of `s` had, as far as the smaller size goes. */
  ghost predicate MovedAt(s: seq<Byte>, t: seq<Byte>, isec: nat, sec: nat, i: nat) {
    var m := Min(isec, sec);
    && At(i, isec) + m <= |s| && At(i, sec) + m <= |t|
    && Sector(t, i, sec, m) == Sector(s, i, isec, m)
  }

  ghost predicate Scattered(s: seq<Byte>, t: seq<Byte>, n: nat, isec: nat, sec: nat) {
    forall i | 0 <= i < n :: MovedAt(s, t, isec, sec, i)
  }

  /** `u` differs from `t` in the `m` bytes from `to` on at most. */
  ghost predicate SameOutside(t: seq<Byte>, u: seq<Byte>, to: nat, m: nat) {
    |u| == |t| && to + m <= |t| && forall k | 0 <= k < |t| && !(to <= k < to + m) :: u[k] == t[k]
  }

  /** movebytes on overlapping areas. */
  method MoveBytes(b: array<Byte>, from: nat, to: nat, n: nat)
    requires from + n <= b.Length && to + n <= b.Length
    modifies b
    ensures b[to..to + n] == old(b[from..from + n]) && SameOutside(old(b[..]), b[..], to, n)
  {
    forall k | 0 <= k < n {
      b[to + k] := b[from + k];
    }
  }

  lemma MovedKept(s: seq<Byte>, t: seq<Byte>, u: seq<Byte>, isec: nat, sec: nat, j: nat, to: nat, m: nat)
    requires MovedAt(s, t, isec, sec, j) && SameOutside(t, u, to, m)
    requires At(j, sec) + Min(isec, sec) <= to || At(j, sec) >= to + m
    ensures MovedAt(s, u, isec, sec, j)
  {
  }

  /** A sector that has not been moved yet. */
  ghost predicate Waits(s: seq<Byte>, t: seq<Byte>, isec: nat, m: nat, j: nat) {
    |t| == |s| && At(j, isec) + m <= |s| && Sector(t, j, isec, m) == Sector(s, j, isec, m)
  }

  lemma WaitsKept(s: seq<Byte>, t: seq<Byte>, u: seq<Byte>, isec: nat, n: nat, j: nat, to: nat, m: nat)
    requires Waits(s, t, isec, n, j) && SameOutside(t, u, to, m)
    requires At(j, isec) + n <= to || At(j, isec) >= to + m
    ensures Waits(s, u, isec, n, j)
  {
  }

  // ------------------------------------------------------------------ spreading

  /** Sectors from `i` on have been moved up, those below are where they were. */
  ghost predicate Spreading(s: seq<Byte>, t: seq<Byte>, n: nat, isec: nat, sec: nat, i: nat) {
    && (forall j | i <= j < n :: MovedAt(s, t, isec, sec, j))
    && (forall j | 0 <= j < i :: Waits(s, t, isec, isec, j))
  }

  /** The bytes just copied complete one more sector. */
  lemma MovedNow(s: seq<Byte>, t: seq<Byte>, u: seq<Byte>, isec: nat, sec: nat, i: nat, from: nat, to: nat, m: nat)
    requires m == Min(isec, sec) && from == At(i, isec) && to == At(i, sec)
    requires Waits(s, t, isec, m, i) && to + m <= |u|
    requires u[to..to + m] == t[from..from + m]
    ensures MovedAt(s, u, isec, sec, i)
  {
  }

  lemma SpreadMore(s: seq<Byte>, t: seq<Byte>, u: seq<Byte>, n: nat, isec: nat, sec: nat, i: nat, from: nat, to: nat)
    requires isec < sec && i < n && Spreading(s, t, n, isec, sec, i + 1)
    requires from == At(i, isec) && to == At(i, sec) && SameOutside(t, u, to, isec)
    requires from + isec <= |t| && u[to..to + isec] == t[from..from + isec]
    ensures Spreading(s, u, n, isec, sec, i)
  {
    AtSmaller(i, isec, sec);
    MovedNow(s, t, u, isec, sec, i, from, to, isec);
    forall j | i <= j < n
      ensures MovedAt(s, u, isec, sec, j)
    {
      if j > i {
        AtLater(i, j, sec);
        MovedKept(s, t, u, isec, sec, j, to, isec);
      }
    }
    forall j | 0 <= j < i
      ensures Waits(s, u, isec, isec, j)
    {
      AtLater(j, i, isec);
      WaitsKept(s, t, u, isec, isec, j, to, isec);
    }
  }

  // ------------------------------------------------------------------ gathering

  /** Sectors below `i` have been moved down, those from `i` on are where they were. */
  ghost predicate Gathering(s: seq<Byte>, t: seq<Byte>, n: nat, isec: nat, sec: nat, i: nat) {
    && (forall j | 0 <= j < i :: MovedAt(s, t, isec, sec, j))
    && (forall j | i <= j < n :: Waits(s, t, isec, sec, j))
  }

  lemma GatherMore(s: seq<Byte>, t: seq<Byte>, u: seq<Byte>, n: nat, isec: nat, sec: nat, i: nat, from: nat, to: nat)
    requires sec < isec && i < n && Gathering(s, t, n, isec, sec, i)
    requires from == At(i, isec) && to == At(i, sec) && SameOutside(t, u, to, sec)
    requires from + sec <= |t| && u[to..to + sec] == t[from..from + sec]
    ensures Gathering(s, u, n, isec, sec, i + 1)
  {
    AtSmaller(i, sec, isec);
    MovedNow(s, t, u, isec, sec, i, from, to, sec);
    forall j | 0 <= j < i + 1
      ensures MovedAt(s, u, isec, sec, j)
    {
      if j < i {
        AtLater(j, i, sec);
        MovedKept(s, t, u, isec, sec, j, to, sec);
      }
    }
    forall j | i + 1 <= j < n
      ensures Waits(s, u, isec, sec, j)
    {
      AtLater(i, j, isec);
      WaitsKept(s, t, u, isec, sec, j, to, sec);
    }
  }

  // ------------------------------------------------------------------ both directions

  /** scatter_secs: sector 0 stays, the others move to where sectors of the new size start. */
  method ScatterSecs(bp: array<Byte>, isecsize: nat, secsize: nat, nsecs: nat)
    requires Room(bp[..], nsecs, isecsize) && Room(bp[..], nsecs, secsize)
    modifies bp
    ensures Scattered(old(bp[..]), bp[..], nsecs, isecsize, secsize)
  {
    if secsize == isecsize {
      SameSize(bp[..], nsecs, secsize);
      return;
    }
    if secsize < isecsize {
      GatherSecs(bp, isecsize, secsize, nsecs);
    } else {
      SpreadSecs(bp, isecsize, secsize, nsecs);
    }
  }

  lemma SameSize(s: seq<Byte>, n: nat, size: nat)
    requires Room(s, n, size)
    ensures Scattered(s, s, n, size, size)
  {
    forall i | 0 <= i < n
      ensures MovedAt(s, s, size, size, i)
    {
      RoomFor(s, n, size, i);
    }
  }

  method GatherSecs(bp: array<Byte>, isecsize: nat, secsize: nat, nsecs: nat)
    requires secsize < isecsize && Room(bp[..], nsecs, isecsize) && Room(bp[..], nsecs, secsize)
    modifies bp
    ensures Scattered(old(bp[..]), bp[..], nsecs, isecsize, secsize)
  {
    ghost var s := bp[..];
    var from, to := isecsize, secsize;
    GatherStart(s, nsecs, isecsize, secsize);
    ghost var j := 1;
    var i := nsecs - 1;
    while i > 0
      invariant j + i == nsecs || (nsecs == 0 && i == -1)
      invariant 1 <= j && from == At(j, isecsize) && to == At(j, secsize)
      invariant nsecs > 0 ==> Gathering(s, bp[..], nsecs, isecsize, secsize, j)
    {
      ghost var t := bp[..];
      RoomFor(s, nsecs, isecsize, j);
      RoomFor(s, nsecs, secsize, j);
      MoveBytes(bp, from, to, secsize);
      GatherMore(s, t, bp[..], nsecs, isecsize, secsize, j, from, to);
      from := from + isecsize;
      to := to + secsize;
      i := i - 1;
      j := j + 1;
    }
  }

  lemma GatherStart(s: seq<Byte>, n: nat, isec: nat, sec: nat)
    requires sec < isec && Room(s, n, isec)
    ensures n > 0 ==> Gathering(s, s, n, isec, sec, 1)
  {
    forall j | 0 <= j < n
      ensures At(j, isec) + sec <= |s|
    {
      RoomFor(s, n, isec, j);
    }
    if n > 0 {
      assert At(0, isec) + sec <= |s|;
      assert MovedAt(s, s, isec, sec, 0);
    }
  }

  method SpreadSecs(bp: array<Byte>, isecsize: nat, secsize: nat, nsecs: nat)
    requires isecsize < secsize && Room(bp[..], nsecs, isecsize) && Room(bp[..], nsecs, secsize)
    modifies bp
    ensures Scattered(old(bp[..]), bp[..], nsecs, isecsize, secsize)
  {
    if nsecs == 0 {
      return;
    }
    ghost var s := bp[..];
    var i := nsecs - 1;
    var from, to := i * isecsize, i * secsize;
    AtIsProduct(i, isecsize);
    AtIsProduct(i, secsize);
    SpreadStart(s, nsecs, isecsize, secsize);
    while i > 0
      invariant 0 <= i < nsecs && from == At(i, isecsize) && to == At(i, secsize)
      invariant Spreading(s, bp[..], nsecs, isecsize, secsize, i + 1)
    {
      ghost var t := bp[..];
      RoomFor(s, nsecs, isecsize, i);
      RoomFor(s, nsecs, secsize, i);
      MoveBytes(bp, from, to, isecsize);
      SpreadMore(s, t, bp[..], nsecs, isecsize, secsize, i, from, to);
      from := from - isecsize;
      to := to - secsize;
      i := i - 1;
    }
    // sector 0 never moves
    assert Waits(s, bp[..], isecsize, isecsize, 0);
    MovedNow(s, bp[..], bp[..], isecsize, secsize, 0, 0, 0, isecsize);
  }

  lemma {:induction false} AtIsProduct(i: nat, size: nat)
    ensures At(i, size) == i * size
  {
    if i > 0 {
      AtIsProduct(i - 1, size);
    }
  }

  lemma SpreadStart(s: seq<Byte>, n: nat, isec: nat, sec: nat)
    requires isec < sec && n > 0 && Room(s, n, isec)
    ensures Spreading(s, s, n, isec, sec, n)
  {
    forall j | 0 <= j < n
      ensures At(j, isec) + isec <= |s|
    {
      RoomFor(s, n, isec, j);
    }
  }

  // ------------------------------------------------------------------ there and back

  /** Spreading and then gathering restores the sectors. */
  lemma SpreadThenGather(s: seq<Byte>, t: seq<Byte>, u: seq<Byte>, n: nat, isec: nat, sec: nat)
    requires isec <= sec && Room(s, n, isec) && Room(u, n, isec)
    requires Scattered(s, t, n, isec, sec) && Scattered(t, u, n, sec, isec)
    ensures u[..At(n, isec)] == s[..At(n, isec)]
  {
    forall i | 0 <= i < n
      ensures MovedAt(s, u, isec, isec, i)
    {
      assert MovedAt(s, t, isec, sec, i) && MovedAt(t, u, sec, isec, i);
    }
    SectorsAreAll(s, u, n, isec);
  }

  lemma {:induction false} SectorsAreAll(s: seq<Byte>, u: seq<Byte>, n: nat, size: nat)
    requires Room(s, n, size) && Room(u, n, size)
    requires forall i | 0 <= i < n :: MovedAt(s, u, size, size, i)
    ensures u[..At(n, size)] == s[..At(n, size)]
  {
    if n > 0 {
      SectorsAreAll(s, u, n - 1, size);
      assert MovedAt(s, u, size, size, n - 1);
      assert s[..At(n, size)] == s[..At(n - 1, size)] + Sector(s, n - 1, size, size);
      assert u[..At(n, size)] == u[..At(n - 1, size)] + Sector(u, n - 1, size, size);
    }
  }
}
