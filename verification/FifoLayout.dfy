/** How init_faio carves the shared segment into headers, statistics and page-aligned slots. */
module FifoLayout {
  import opened Bytes
  import opened Fifo

  /** struct faio as init_faio fills it; `bufp` is an offset into the segment. */
  datatype Header = Header(owner: Owner, users: int, bufp: int, fd: int)

  /** The bytes `n` records of `size` bytes occupy, n * size. */
  function Total(n: nat, size: nat): nat {
    if n == 0 then 0 else Total(n - 1, size) + size
  }

  lemma {:induction false} TotalIsProduct(n: nat, size: nat)
    ensures Total(n, size) == n * size
  {
    if n > 0 {
      TotalIsProduct(n - 1, size);
      assert n * size == (n - 1) * size + size;
    }
  }

  lemma {:induction false} TotalMonotone(m: nat, n: nat, size: nat)
    requires m <= n
    ensures Total(m, size) <= Total(n, size)
  {
    if m < n {
      TotalMonotone(m, n - 1, size);
    }
  }

  /** How many records of `size` bytes fit into `a` bytes. */
  function Whole(a: nat, size: nat): nat
    requires size > 0
  {
    a / size
  }

  /** The macro roundup. */
  function RoundUp(x: nat, y: nat): nat
    requires y > 0
  {
    Total(Whole(x + (y - 1), y), y)
  }

  /** `x` is a whole number of pages. */
  ghost predicate Multiple(x: nat, y: nat) { exists k: nat :: x == Total(k, y) }

  lemma MultipleAdd(a: nat, b: nat, y: nat)
    requires Multiple(a, y) && Multiple(b, y)
    ensures Multiple(a + b, y)
  {
    var i: nat :| a == Total(i, y);
    var j: nat :| b == Total(j, y);
    TotalIsProduct(i, y);
    TotalIsProduct(j, y);
    TotalIsProduct(i + j, y);
    assert a + b == Total(i + j, y);
  }

  /** roundup gives the least multiple of `y` that is not below `x`. */
  lemma RoundUpBounds(x: nat, y: nat)
    requires y > 0
    ensures x <= RoundUp(x, y) < x + y && Multiple(RoundUp(x, y), y)
  {
    WholeRecords(x + (y - 1), y);
  }

  /** Truncating division, by the number of whole records. */
  lemma WholeRecords(a: nat, size: nat)
    requires size > 0
    ensures Total(Whole(a, size), size) <= a < Total(Whole(a, size), size) + size
  {
    TotalIsProduct(a / size, size);
  }

  lemma {:induction false} FewerRecords(a: nat, b: nat, size: nat)
    requires size > 0 && a <= b
    ensures Whole(a, size) <= Whole(b, size)
  {
    WholeRecords(a, size);
    WholeRecords(b, size);
    if Whole(a, size) > Whole(b, size) {
      TotalMonotone(Whole(b, size) + 1, Whole(a, size), size);
    }
  }

  /** Space for headers and statistics, reckoned with as many slots as would fit without headers. */
  function Reserved(buflen: nat, bs: nat, pagesize: nat, hdr: nat, stats: nat): nat
    requires bs > 0 && pagesize > 0 && stats <= buflen
  {
    RoundUp(stats + Total(Whole(buflen - stats, bs), hdr), pagesize)
  }

  /** The number of slots init_faio settles for; below MIN_BUFFERS the FIFO is disabled. */
  function SlotCount(buflen: nat, bs: nat, pagesize: nat, hdr: nat, stats: nat): int
    requires bs > 0 && pagesize > 0 && stats <= buflen
  {
    CDiv(buflen - Reserved(buflen, bs, pagesize, hdr, stats), bs)
  }

  lemma RoundUpMonotone(a: nat, b: nat, pagesize: nat)
    requires a <= b && pagesize > 0
    ensures RoundUp(a, pagesize) <= RoundUp(b, pagesize)
  {
    FewerRecords(a + (pagesize - 1), b + (pagesize - 1), pagesize);
    TotalMonotone(Whole(a + (pagesize - 1), pagesize), Whole(b + (pagesize - 1), pagesize), pagesize);
  }

  /** If `reserved` bytes are enough for the headers of `first` slots, then also for those of the slots behind them. */
  lemma HeadersFit(buflen: nat, bs: nat, pagesize: nat, hdr: nat, stats: nat, reserved: nat)
    requires bs > 0 && pagesize > 0 && stats <= reserved <= buflen
    requires reserved == RoundUp(stats + Total(Whole(buflen - stats, bs), hdr), pagesize)
    ensures RoundUp(stats + Total(Whole(buflen - reserved, bs), hdr), pagesize) <= reserved
  {
    var first, n := Whole(buflen - stats, bs), Whole(buflen - reserved, bs);
    FewerRecords(buflen - reserved, buflen - stats, bs);
    TotalMonotone(n, first, hdr);
    RoundUpMonotone(stats + Total(n, hdr), stats + Total(first, hdr), pagesize);
  }

  /** A positive truncated quotient is an ordinary one. */
  lemma PositiveQuotient(a: int, b: nat)
    requires b > 0 && CDiv(a, b) >= 1
    ensures a >= 0 && CDiv(a, b) == Whole(a, b)
  {
  }

  /** Header space was reserved for at least as many slots as are finally used. */
  lemma SlotsFit(buflen: nat, bs: nat, pagesize: nat, hdr: nat, stats: nat)
    requires bs > 0 && pagesize > 0 && stats <= buflen
    requires SlotCount(buflen, bs, pagesize, hdr, stats) >= 1
    ensures var n := SlotCount(buflen, bs, pagesize, hdr, stats);
            RoundUp(stats + Total(n, hdr), pagesize) + Total(n, bs) <= buflen
  {
    var reserved := Reserved(buflen, bs, pagesize, hdr, stats);
    PositiveQuotient(buflen - reserved, bs);
    RoundUpBounds(stats + Total(Whole(buflen - stats, bs), hdr), pagesize);
    WholeRecords(buflen - reserved, bs);
    HeadersFit(buflen, bs, pagesize, hdr, stats, reserved);
  }

  /**
   No slot more would fit: what is left behind the slots, and behind headers for as many slots as
   would fit without headers, is less than a slot and a page.
   */
  lemma NoSlotMore(buflen: nat, bs: nat, pagesize: nat, hdr: nat, stats: nat)
    requires bs > 0 && pagesize > 0 && stats <= buflen
    requires SlotCount(buflen, bs, pagesize, hdr, stats) >= 1
    ensures var n := SlotCount(buflen, bs, pagesize, hdr, stats);
            buflen < stats + ((buflen - stats) / bs) * hdr + n * bs + bs + pagesize
  {
    var first, reserved := Whole(buflen - stats, bs), Reserved(buflen, bs, pagesize, hdr, stats);
    PositiveQuotient(buflen - reserved, bs);
    RoundUpBounds(stats + Total(first, hdr), pagesize);
    WholeRecords(buflen - reserved, bs);
    TotalIsProduct(first, hdr);
    TotalIsProduct(Whole(buflen - reserved, bs), bs);
  }

  /** The slots start on page boundaries behind headers and statistics and do not overlap. */
  ghost predicate Disjoint(faios: seq<Header>, sp: int, buflen: nat, bs: nat,
                           pagesize: nat, hdr: nat, stats: nat)
  {
    && sp == Total(|faios|, hdr)
    && (forall i :: 0 <= i < |faios| ==>
          && sp + stats <= faios[i].bufp
          && faios[i].bufp + bs <= buflen
          && Multiple(faios[i].bufp, pagesize))
    && (forall i, j :: 0 <= i < j < |faios| ==> faios[i].bufp + bs <= faios[j].bufp)
  }

  /**
   init_faio up to the fork. `hdr` and `stats` are the sizes of the two structures and
   offsets count from `buf`. The bound on stats holds because the segment has a page.
   */
  method InitFaio(buflen: nat, bufsize: nat, pagesize: nat, hdr: nat, stats: nat)
    returns (ok: bool, faios: array<Header>, sp: int)
    requires bufsize > 0 && pagesize > 0
    requires buflen != 0 ==> stats <= buflen
    ensures RoundUp(bufsize, pagesize) >= bufsize
    ensures ok == (buflen != 0 &&
                   SlotCount(buflen, RoundUp(bufsize, pagesize), pagesize, hdr, stats) >= 3)
    ensures ok ==> faios.Length == SlotCount(buflen, RoundUp(bufsize, pagesize), pagesize, hdr, stats)
    ensures ok ==> Disjoint(faios[..], sp, buflen, RoundUp(bufsize, pagesize), pagesize, hdr, stats)
    ensures ok ==> forall i :: 0 <= i < faios.Length ==>
              faios[i].owner == Writer && faios[i].users == 0 && faios[i].fd == -1
  {
    sp := 0;
    RoundUpBounds(bufsize, pagesize);
    if buflen == 0 {
      faios := new Header[0];
      return false, faios, sp;
    }
    var bs := RoundUp(bufsize, pagesize);
    var buffers := (buflen - stats) / bs;
    WholeRecords(buflen - stats, bs);
    var n := RoundUp(stats + Total(buffers, hdr), pagesize);
    buffers := CDiv(buflen - n, bs);
    if buffers < MIN_BUFFERS {
      faios := new Header[0];
      return false, faios, sp;
    }
    SlotsFit(buflen, bs, pagesize, hdr, stats);
    faios, sp := PlaceSlots(buflen, buffers, bs, pagesize, hdr, stats);
    ok := true;
  }

  /** Headers of empty slots that lie one after the other between `lo` and `hi`. */
  ghost predicate Placed(hs: seq<Header>, lo: nat, hi: nat, bs: nat, pagesize: nat)
    requires pagesize > 0
  {
    && (forall i | 0 <= i < |hs| ::
          hs[i].owner == Writer && hs[i].users == 0 && hs[i].fd == -1 && lo <= hs[i].bufp && hs[i].bufp + bs <= hi
          && Multiple(hs[i].bufp, pagesize))
    && (forall i, j | 0 <= i < j < |hs| :: hs[i].bufp + bs <= hs[j].bufp)
  }

  lemma PlacedMore(hs: seq<Header>, lo: nat, hi: nat, bs: nat, pagesize: nat)
    requires pagesize > 0 && lo <= hi && Placed(hs, lo, hi, bs, pagesize) && Multiple(hi, pagesize)
    ensures Placed(hs + [Header(Writer, 0, hi, -1)], lo, hi + bs, bs, pagesize)
  {
  }

  /** The loop of init_faio over the headers, with `base` running through the slots. */
  method PlaceSlots(buflen: nat, buffers: nat, bs: nat, pagesize: nat, hdr: nat, stats: nat)
    returns (faios: array<Header>, sp: int)
    requires pagesize > 0 && Multiple(bs, pagesize)
    requires RoundUp(stats + Total(buffers, hdr), pagesize) + Total(buffers, bs) <= buflen
    ensures faios.Length == buffers
    ensures Disjoint(faios[..], sp, buflen, bs, pagesize, hdr, stats)
    ensures forall i :: 0 <= i < faios.Length ==>
      faios[i].owner == Writer && faios[i].users == 0 && faios[i].fd == -1
  {
    RoundUpBounds(stats + Total(buffers, hdr), pagesize);
    faios := new Header[buffers];
    sp := Total(buffers, hdr);
    ghost var lo: nat := stats + sp;
    var base: nat := RoundUp(stats + sp, pagesize);
    var n := 0;
    while n < buffers
      invariant 0 <= n <= buffers && lo <= base && Multiple(base, pagesize)
      invariant base + Total(buffers - n, bs) <= buflen
      invariant Placed(faios[..n], lo, base, bs, pagesize)
    {
      ghost var before := faios[..n];
      faios[n] := Header(Writer, 0, base, -1);
      assert faios[..n + 1] == before + [Header(Writer, 0, base, -1)];
      PlacedMore(before, lo, base, bs, pagesize);
      MultipleAdd(base, bs, pagesize);
      base := base + bs;
      n := n + 1;
    }
    assert faios[..n] == faios[..];
  }

  /** What the headers say of a slot; length and error number are whatever was there. */
  function SlotOf(h: Header, len: int, errno: int, data: seq<Byte>): Slot {
    Slot(h.owner, h.users, h.fd, len, errno, data)
  }

  /** The slots that init_faio lays out are an initial state of the FIFO, whatever is in their memory. */
  lemma LaidOutIsInitial(hs: seq<Header>, memory: seq<(int, int, seq<Byte>)>, bufSize: nat, tracks: seq<Track>)
    requires |hs| == |memory| >= 3
    requires forall i | 0 <= i < |hs| :: hs[i].owner == Writer && hs[i].users == 0 && hs[i].fd == -1
    requires forall i | 0 <= i < |hs| :: |memory[i].2| == bufSize
    ensures var slots := seq(|hs|, i requires 0 <= i < |hs| => SlotOf(hs[i], memory[i].0, memory[i].1, memory[i].2));
            Init(Config(|hs|, bufSize, tracks),
                 State(slots, 0, 0, 0, Start(0), 0, Await, 0, [], [], [], 0, false))
  {
  }
}
