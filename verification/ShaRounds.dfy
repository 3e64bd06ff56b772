/**
 The eighty rounds of sha_transform (cdda2wav/sha_func.c): the unravelled form, which renames
 registers instead of moving values, against the generic form. What a round computes is left
 open: `mix(n, a, b, c, d, e, w)` is its new value in the n-th group of twenty, `rot` the rotation by 30.
 */
module ShaRounds {

  datatype Rounds<!W> = Rounds(mix: (nat, W, W, W, W, W, W) -> W, rot: W -> W, w: nat -> W)

  /** The chaining values, and the six registers that hold them. */
  datatype Chain<W> = Chain(a: W, b: W, c: W, d: W, e: W)
  datatype Regs<W> = Regs(T: W, A: W, B: W, C: W, D: W, E: W)

  /** The group of round `k`: f1, f2, f3, f4 for twenty rounds each. */
  function Group(k: nat): nat { k / 20 + 1 }

  /** Of the eighty rounds, twenty make a group; the first group has number 1. */
  lemma GroupsOfTwenty(k: nat)
    ensures 20 * (Group(k) - 1) <= k < 20 * Group(k)
  {
  }

  /** FG */
  function Generic<W>(f: Rounds<W>, k: nat, x: Chain<W>): Chain<W> {
    Chain(f.mix(Group(k), x.a, x.b, x.c, x.d, x.e, f.w(k)), x.a, f.rot(x.b), x.c, x.d)
  }

  /** FA, FB, FC, FD, FE, FT in turn. */
  function Unravelled<W>(f: Rounds<W>, k: nat, r: Regs<W>): Regs<W> {
    var n := Group(k);
    if k % 6 == 0 then r.(T := f.mix(n, r.A, r.B, r.C, r.D, r.E, f.w(k)), B := f.rot(r.B))
    else if k % 6 == 1 then r.(E := f.mix(n, r.T, r.A, r.B, r.C, r.D, f.w(k)), A := f.rot(r.A))
    else if k % 6 == 2 then r.(D := f.mix(n, r.E, r.T, r.A, r.B, r.C, f.w(k)), T := f.rot(r.T))
    else if k % 6 == 3 then r.(C := f.mix(n, r.D, r.E, r.T, r.A, r.B, f.w(k)), E := f.rot(r.E))
    else if k % 6 == 4 then r.(B := f.mix(n, r.C, r.D, r.E, r.T, r.A, f.w(k)), D := f.rot(r.D))
    else r.(A := f.mix(n, r.B, r.C, r.D, r.E, r.T, f.w(k)), C := f.rot(r.C))
  }

  function GenericAll<W>(f: Rounds<W>, k: nat, x: Chain<W>): Chain<W> {
    if k == 0 then x else Generic(f, k - 1, GenericAll(f, k - 1, x))
  }

  function UnravelledAll<W>(f: Rounds<W>, k: nat, r: Regs<W>): Regs<W> {
    if k == 0 then r else Unravelled(f, k - 1, UnravelledAll(f, k - 1, r))
  }

  /** Which registers hold the chaining values before round `k`. */
  function View<W>(k: nat, r: Regs<W>): Chain<W> {
    if k % 6 == 0 then Chain(r.A, r.B, r.C, r.D, r.E)
    else if k % 6 == 1 then Chain(r.T, r.A, r.B, r.C, r.D)
    else if k % 6 == 2 then Chain(r.E, r.T, r.A, r.B, r.C)
    else if k % 6 == 3 then Chain(r.D, r.E, r.T, r.A, r.B)
    else if k % 6 == 4 then Chain(r.C, r.D, r.E, r.T, r.A)
    else Chain(r.B, r.C, r.D, r.E, r.T)
  }

  lemma OneRound<W>(f: Rounds<W>, k: nat, r: Regs<W>)
    ensures View(k + 1, Unravelled(f, k, r)) == Generic(f, k, View(k, r))
  {
    var p := k % 6;
    assert (k + 1) % 6 == if p == 5 then 0 else p + 1;
  }

  lemma {:induction false} UnravelledIsGeneric<W>(f: Rounds<W>, k: nat, r: Regs<W>)
    ensures View(k, UnravelledAll(f, k, r)) == GenericAll(f, k, View(0, r))
  {
    if k > 0 {
      UnravelledIsGeneric(f, k - 1, r);
      OneRound(f, k - 1, UnravelledAll(f, k - 1, r));
    }
  }

  /** After eighty rounds the unravelled code adds E, T, A, B, C where the generic code adds A to E. */
  lemma EightyRounds<W>(f: Rounds<W>, r: Regs<W>)
    ensures var u := UnravelledAll(f, 80, r);
            Chain(u.E, u.T, u.A, u.B, u.C) == GenericAll(f, 80, Chain(r.A, r.B, r.C, r.D, r.E))
  {
    UnravelledIsGeneric(f, 80, r);
  }
}
