/**
 The jitter resynchroniser of cdda2wav (sync_buffers in cdda2wav/resample.c). Three search
 loops look for the end of the previous buffer in the new one. Pointers are offsets.
 */
module Resync {
  import opened Bytes

  const SECTOR := 2352      // CD_FRAMESIZE_RAW
  const SYNC_SIZE := 600

  /** memcmp of the whole needle with the buffer from `i` on; it must lie in the buffer. */
  predicate Matches(hay: seq<Byte>, needle: seq<Byte>, i: int)
    requires 0 <= i && i + |needle| <= |hay|
  {
    hay[i..i + |needle|] == needle
  }

  /** The needle occurs at `i`. */
  predicate Occurs(hay: seq<Byte>, needle: seq<Byte>, i: int) {
    0 <= i && i + |needle| <= |hay| && Matches(hay, needle, i)
  }

  function Distance(i: int, j: int): nat { if i < j then j - i else i - j }

  /** A match in lo..hi-1 nearest to `c`; of two equally near ones, the lower. */
  ghost predicate Nearest(hay: seq<Byte>, needle: seq<Byte>, lo: int, hi: int, c: int, i: int) {
    && lo <= i < hi && Occurs(hay, needle, i)
    && forall j :: lo <= j < hi && Occurs(hay, needle, j) ==>
         Distance(i, c) < Distance(j, c) || (Distance(i, c) == Distance(j, c) && i <= j)
  }

  ghost predicate Nowhere(hay: seq<Byte>, needle: seq<Byte>, lo: int, hi: int) {
    forall j :: lo <= j < hi ==> !Occurs(hay, needle, j)
  }

  /** my_symmemmem: start, start-1, start+1, start-2, .. */
  method SymmetricSearch(hay: seq<Byte>, start: int, len: int, needle: seq<Byte>) returns (r: Option<int>)
    requires len > |needle|
    requires 0 <= start - (len - |needle|) && start + len - 1 <= |hay|
    ensures r.Some? ==> Nearest(hay, needle, start - (len - |needle|), start + (len - |needle|), start, r.value)
    ensures r.None? ==> Nowhere(hay, needle, start - (len - |needle|), start + (len - |needle|))
  {
    var upperLimit := start + len - |needle| - 1;
    var up, down := start, start - 1;
    while up <= upperLimit
      invariant start <= up <= upperLimit + 1 && up - start == start - 1 - down
      invariant Nowhere(hay, needle, down + 1, up)
    {
      if Matches(hay, needle, up) {
        return Some(up);
      } else if Matches(hay, needle, down) {
        return Some(down);
      }
      down := down - 1;
      up := up + 1;
    }
    return None;
  }

  /** my_memmem: upwards from `start`. */
  method ForwardSearch(hay: seq<Byte>, start: int, len: int, needle: seq<Byte>) returns (r: Option<int>)
    requires 0 <= start && start + len <= |hay| && len >= |needle|
    ensures r.Some? ==> start <= r.value && r.value + |needle| <= start + len && Occurs(hay, needle, r.value)
    ensures r.Some? ==> Nowhere(hay, needle, start, r.value)
    ensures r.None? ==> Nowhere(hay, needle, start, start + len - |needle| + 1)
  {
    var i := start;
    var upperLimit := start + len - |needle|;
    while i <= upperLimit
      invariant start <= i <= upperLimit + 1
      invariant Nowhere(hay, needle, start, i)
    {
      if Matches(hay, needle, i) {
        return Some(i);
      }
      i := i + 1;
    }
    return None;
  }

  /** my_memrmem: downwards from `start` over `len` offsets. */
  method BackwardSearch(hay: seq<Byte>, start: int, len: int, needle: seq<Byte>) returns (r: Option<int>)
    requires len > 0 && 0 <= start - (len - 1) && start + |needle| <= |hay|
    ensures r.Some? ==> start - (len - 1) <= r.value <= start && Occurs(hay, needle, r.value)
    ensures r.Some? ==> Nowhere(hay, needle, r.value + 1, start + 1)
    ensures r.None? ==> Nowhere(hay, needle, start - (len - 1), start + 1)
  {
    var i := start;
    var lowerLimit := start - (len - 1);
    while i >= lowerLimit
      invariant lowerLimit - 1 <= i <= start
      invariant Nowhere(hay, needle, i + 1, start + 1)
      decreases i - lowerLimit
    {
      if Matches(hay, needle, i) {
        return Some(i);
      }
      i := i - 1;
    }
    return None;
  }

  /** The offsets at which sync_buffers looks are those below this one. */
  function Reach(nsectors: nat, overlap: nat): int {
    if 2 * overlap == nsectors then nsectors * SECTOR - 2 * SYNC_SIZE
    else nsectors * SECTOR - SYNC_SIZE + 1
  }

  /** Where the needle is expected: where it ends with the overlap. */
  function Expected(overlap: nat): int { overlap * SECTOR - SYNC_SIZE }

  /**
   sync_buffers: the offset behind the match of the last 600 bytes of the previous buffer, or
   None for NULL. With an overlap the result is the end of the match nearest to the expected
   position, of all matches below Reach; and no byte outside the buffer is compared.
   */
  method SyncBuffers(newbuf: seq<Byte>, oldbuf: seq<Byte>, nsectors: nat, overlap: nat) returns (r: Option<int>)
    requires overlap < nsectors && |newbuf| == |oldbuf| == nsectors * SECTOR
    ensures overlap == 0 ==> r == Some(0)
    ensures overlap > 0 && r.Some? ==>
      Nearest(newbuf, oldbuf[nsectors * 2352 - 600..], 0, Reach(nsectors, overlap), Expected(overlap), r.value - 600)
    ensures overlap > 0 && r.None? ==> Nowhere(newbuf, oldbuf[nsectors * 2352 - 600..], 0, Reach(nsectors, overlap))
  {
    r := Some(0);
    if overlap != 0 {
      var first := (nsectors - overlap) * SECTOR + SYNC_SIZE + 1;
      var len := if first < overlap * SECTOR then first else overlap * SECTOR;
      var start := SECTOR * overlap - SYNC_SIZE;
      var needle := oldbuf[SECTOR * nsectors - SYNC_SIZE..];
      r := SymmetricSearch(newbuf, start, len, needle);
      if r.None? {
        if 2 * overlap == nsectors {
          return None;
        } else if 2 * overlap > nsectors {
          len := (2 * overlap - nsectors) * SECTOR;
          r := BackwardSearch(newbuf, len - 1, len, needle);
        } else {
          len := (nsectors - 2 * overlap) * SECTOR + 2 * SYNC_SIZE;
          r := ForwardSearch(newbuf, 2 * (overlap * SECTOR - SYNC_SIZE), len, needle);
        }
      }
      if r.Some? {
        r := Some(r.value + SYNC_SIZE);
      }
    }
  }

  /** The result NULL means that the needle is nowhere in the new buffer. */
  ghost predicate Exhaustive(nsectors: nat, overlap: nat) {
    forall newbuf, needle, j |
      |newbuf| == nsectors * SECTOR && |needle| == SYNC_SIZE && Nowhere(newbuf, needle, 0, Reach(nsectors, overlap)) ::
      !Occurs(newbuf, needle, j)
  }

  lemma FirstByteDiffers(hay: seq<Byte>, needle: seq<Byte>, j: nat)
    requires j < |hay| && needle != [] && hay[j] != needle[0]
    ensures !Occurs(hay, needle, j)
  {
  }

  /** The search is exhaustive, except with an overlap of exactly half a buffer. */
  lemma ExhaustiveUnlessHalf(nsectors: nat, overlap: nat)
    requires 0 < overlap < nsectors
    ensures Exhaustive(nsectors, overlap) <==> 2 * overlap != nsectors
  {
    if 2 * overlap == nsectors {
      var n := nsectors * SECTOR;
      var newbuf: seq<Byte> := seq(n, i => if 0 <= i < n - SYNC_SIZE then 0 else 1);
      var needle: seq<Byte> := seq(SYNC_SIZE, i => 1);
      forall j | 0 <= j < Reach(nsectors, overlap)
        ensures !Occurs(newbuf, needle, j)
      {
        assert newbuf[j] == 0 && needle[0] == 1;
        FirstByteDiffers(newbuf, needle, j);
      }
      assert newbuf[n - SYNC_SIZE..n] == needle;
      assert Occurs(newbuf, needle, n - SYNC_SIZE);
    }
  }
}
