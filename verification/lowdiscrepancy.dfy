/** The random shuffles of the low-discrepancy samplers and their
  * composition with Gray-code sampling
  * (rustracer-core/src/sampler/lowdiscrepancy.rs:5-48, 112-120). A sample
  * buffer holds `count` groups of `d` consecutive entries; a shuffle moves
  * whole groups. */
module LowDiscrepancy {
  import opened Util
  import opened Rng
  import opened GrayCode

  /** Frame: only positions in [lo, hi) may differ. */
  ghost predicate SameOutside<T>(a: seq<T>, b: seq<T>, lo: nat, hi: nat)
  {
    |a| == |b| && forall k :: 0 <= k < |a| && !(lo <= k < hi) ==> a[k] == b[k]
  }

  /** The position whose entry lands at `k` when the `n`-long blocks at `p`
    * and `q` are exchanged. */
  function SwapSource(k: nat, p: nat, q: nat, n: nat): nat
  {
    if p <= k < p + n then k - p + q else if q <= k < q + n then k - q + p else k
  }

  /** `t` is `s` with the `n`-long blocks at `p` and `q` exchanged. */
  ghost predicate BlocksSwapped<T>(t: seq<T>, s: seq<T>, p: nat, q: nat, n: nat)
  {
    |t| == |s| && p + n <= |s| && q + n <= |s| &&
    forall k :: 0 <= k < |s| ==> t[k] == s[SwapSource(k, p, q, n)]
  }

  /** Exchanging position `j` of both blocks extends a swap of the first `j`
    * positions to the first `j + 1`. */
  lemma BlocksSwappedStep<T>(s0: seq<T>, s: seq<T>, t: seq<T>, p: nat, q: nat, n: nat, j: nat)
    requires j < n && p + n <= |s0| && q + n <= |s0|
    requires p == q || p + n <= q || q + n <= p
    requires BlocksSwapped(s, s0, p, q, j)
    requires t == s[p + j := s[q + j]][q + j := s[p + j]]
    ensures BlocksSwapped(t, s0, p, q, j + 1)
  {
    forall k | 0 <= k < |s0|
      ensures t[k] == s0[SwapSource(k, p, q, j + 1)]
    {
      if k == p + j || k == q + j {
      } else {
        assert t[k] == s[k];
      }
    }
  }

  /** Reading a whole block after the swap: block `p` holds what block `q`
    * held, block `q` (when it differs from `p`) what block `p` held, and a
    * block clear of both is unchanged. */
  lemma BlockMoved<T>(s: seq<T>, t: seq<T>, p: nat, q: nat, n: nat, x: nat, y: nat)
    requires BlocksSwapped(t, s, p, q, n) && x + n <= |s| && y + n <= |s|
    requires p == q || p + n <= q || q + n <= p
    requires (x == p && y == q) || (x == q && x != p && y == p) ||
             (y == x && (x + n <= p || p + n <= x) && (x + n <= q || q + n <= x))
    ensures t[x..x + n] == s[y..y + n]
  {
    forall k | x <= k < x + n
      ensures t[k] == s[k - x + y]
    {
      assert SwapSource(k, p, q, n) == k - x + y;
    }
    var tx, sy := t[x..x + n], s[y..y + n];
    assert forall k :: 0 <= k < n ==> tx[k] == sy[k];
  }

  /** Where group `g` of `d`-long groups starts, counted from the first:
    * `d · g`, written as repeated addition. */
  function Offset(d: nat, g: nat): nat
  {
    if g == 0 then 0 else Offset(d, g - 1) + d
  }

  lemma {:induction false} OffsetIsProduct(d: nat, g: nat)
    ensures Offset(d, g) == d * g
  {
    if g > 0 {
      OffsetIsProduct(d, g - 1);
      assert d * g == d * (g - 1) + d;
    }
  }

  /** Group `g`: the `d` entries from `lo + d·g` on, or nothing when they do
    * not fit. */
  ghost function Group<T>(s: seq<T>, lo: nat, d: nat, g: nat): seq<T>
  {
    if lo + Offset(d, g) + d <= |s| then s[lo + Offset(d, g)..lo + Offset(d, g) + d] else []
  }

  lemma GroupIsSlice<T>(s: seq<T>, lo: nat, d: nat, g: nat)
    requires lo + Offset(d, g) + d <= |s|
    ensures Group(s, lo, d, g) == s[lo + Offset(d, g)..lo + Offset(d, g) + d]
  {
  }

  /** Group `g` ends no later than group `h` starts when `g < h`; so groups
    * below `count` fit in `d · count` entries and different groups do not
    * overlap. */
  lemma {:induction false} GroupsOrdered(d: nat, g: nat, h: nat)
    requires g < h
    ensures Offset(d, g) + d <= Offset(d, h)
    decreases h
  {
    if g + 1 < h {
      GroupsOrdered(d, g, h - 1);
    }
  }

  /** Exchanging two entries of [lo, hi) keeps the entries of the range. */
  lemma SwapKeepsRange<T>(s: seq<T>, t: seq<T>, lo: nat, hi: nat, i: nat, j: nat)
    requires lo <= i < hi && lo <= j < hi && hi <= |s|
    requires t == s[i := s[j]][j := s[i]]
    ensures multiset(t[lo..hi]) == multiset(s[lo..hi])
  {
    var r := s[lo..hi];
    assert t[lo..hi] == r[i - lo := r[j - lo]][j - lo := r[i - lo]];
  }

  /** `a.swap(i, j)`. */
  method Exchange<T>(a: array<T>, i: nat, j: nat)
    requires i < a.Length && j < a.Length
    modifies a
    ensures a[..] == old(a[..])[i := old(a[..])[j]][j := old(a[..])[i]]
  {
    a[i], a[j] := a[j], a[i];
  }

  /** The inner loop of `shuffle`: exchange the entries of the `n`-long
    * blocks at `p` and `q` position by position. */
  method SwapBlocks<T>(a: array<T>, p: nat, q: nat, n: nat)
    requires p + n <= a.Length && q + n <= a.Length
    modifies a
    ensures a[..] == SwapPrefix(old(a[..]), p, q, n)
  {
    ghost var orig := a[..];
    var j := 0;
    while j < n
      invariant j <= n && a[..] == SwapPrefix(orig, p, q, j)
    {
      ghost var before := a[..];
      Exchange(a, p + j, q + j);
      SwapPrefixNext(orig, p, q, j, before, a[..]);
      j := j + 1;
    }
  }

  /** The array after the first `j` passes of the inner loop. */
  ghost function SwapPrefix<T>(s: seq<T>, p: nat, q: nat, j: nat): (t: seq<T>)
    requires p + j <= |s| && q + j <= |s|
    ensures |t| == |s|
  {
    if j == 0 then s
    else
      var t := SwapPrefix(s, p, q, j - 1);
      t[p + j - 1 := t[q + j - 1]][q + j - 1 := t[p + j - 1]]
  }

  /** One more pass exchanges position `j` of both blocks. */
  lemma SwapPrefixNext<T>(s: seq<T>, p: nat, q: nat, j: nat, before: seq<T>, after: seq<T>)
    requires p + j < |s| && q + j < |s| && before == SwapPrefix(s, p, q, j)
    requires after == before[p + j := before[q + j]][q + j := before[p + j]]
    ensures after == SwapPrefix(s, p, q, j + 1)
  {
  }

  /** After all `n` passes the blocks are exchanged and the range keeps
    * its entries. */
  lemma SwapPrefixDone<T>(s: seq<T>, t: seq<T>, lo: nat, hi: nat, p: nat, q: nat, n: nat)
    requires lo <= p && p + n <= hi && lo <= q && q + n <= hi && hi <= |s|
    requires p == q || p + n <= q || q + n <= p
    requires t == SwapPrefix(s, p, q, n)
    ensures BlocksSwapped(t, s, p, q, n) && multiset(t[lo..hi]) == multiset(s[lo..hi])
  {
    SwapPrefixSwaps(s, p, q, n, n);
    SwapPrefixKeeps(s, lo, hi, p, q, n);
  }

  /** After `j` passes the first `j` positions of the blocks are
    * exchanged. */
  lemma {:induction false} SwapPrefixSwaps<T>(s: seq<T>, p: nat, q: nat, n: nat, j: nat)
    requires p + n <= |s| && q + n <= |s| && j <= n
    requires p == q || p + n <= q || q + n <= p
    ensures BlocksSwapped(SwapPrefix(s, p, q, j), s, p, q, j)
  {
    if j > 0 {
      var i := j - 1;
      var prev := SwapPrefix(s, p, q, i);
      SwapPrefixSwaps(s, p, q, n, i);
      SwapPrefixNext(s, p, q, i, prev, prev[p + i := prev[q + i]][q + i := prev[p + i]]);
      BlocksSwappedStep(s, prev, SwapPrefix(s, p, q, j), p, q, n, i);
    }
  }

  /** Every pass exchanges two entries of [lo, hi), so the range keeps its
    * entries. */
  lemma {:induction false} SwapPrefixKeeps<T>(s: seq<T>, lo: nat, hi: nat, p: nat, q: nat, j: nat)
    requires lo <= p && p + j <= hi && lo <= q && q + j <= hi && hi <= |s|
    ensures multiset(SwapPrefix(s, p, q, j)[lo..hi]) == multiset(s[lo..hi])
  {
    if j > 0 {
      var i := j - 1;
      var prev := SwapPrefix(s, p, q, i);
      SwapPrefixKeeps(s, lo, hi, p, q, i);
      SwapPrefixNext(s, p, q, i, prev, prev[p + i := prev[q + i]][q + i := prev[p + i]]);
      SwapKeepsRange(prev, SwapPrefix(s, p, q, j), lo, hi, p + i, q + i);
    }
  }

  /** Exchanging the blocks of groups `i` and `o` moves group `o` to `i`. */
  lemma SwapGroupFirst<T>(s: seq<T>, t: seq<T>, lo: nat, d: nat, count: nat, i: nat, o: nat, p: nat, q: nat)
    requires i < count && o < count && lo + Offset(d, count) <= |s|
    requires p == lo + Offset(d, i) && q == lo + Offset(d, o)
    requires BlocksSwapped(t, s, p, q, d)
    ensures Group(t, lo, d, i) == Group(s, lo, d, o)
  {
    GroupsOrdered(d, i, count);
    GroupsOrdered(d, o, count);
    if i < o {
      GroupsOrdered(d, i, o);
    } else if o < i {
      GroupsOrdered(d, o, i);
    }
    BlockMoved(s, t, p, q, d, p, q);
    GroupIsSlice(t, lo, d, i);
    GroupIsSlice(s, lo, d, o);
  }

  /** ... and group `i` to `o`. */
  lemma SwapGroupSecond<T>(s: seq<T>, t: seq<T>, lo: nat, d: nat, count: nat, i: nat, o: nat, p: nat, q: nat)
    requires i < count && o < count && i != o && lo + Offset(d, count) <= |s|
    requires p == lo + Offset(d, i) && q == lo + Offset(d, o)
    requires BlocksSwapped(t, s, p, q, d)
    ensures Group(t, lo, d, o) == Group(s, lo, d, i)
  {
    GroupsOrdered(d, i, count);
    GroupsOrdered(d, o, count);
    if i < o {
      GroupsOrdered(d, i, o);
    } else {
      GroupsOrdered(d, o, i);
    }
    BlockMoved(s, t, p, q, d, q, p);
    GroupIsSlice(t, lo, d, o);
    GroupIsSlice(s, lo, d, i);
  }

  /** ... and leaves every other group where it was. */
  lemma SwapGroupOther<T>(s: seq<T>, t: seq<T>, lo: nat, d: nat, count: nat, i: nat, o: nat, g: nat, p: nat, q: nat)
    requires i < count && o < count && g < count && g != i && g != o && lo + Offset(d, count) <= |s|
    requires p == lo + Offset(d, i) && q == lo + Offset(d, o)
    requires BlocksSwapped(t, s, p, q, d)
    ensures Group(t, lo, d, g) == Group(s, lo, d, g)
  {
    var x := lo + Offset(d, g);
    GroupsOrdered(d, g, count);
    GroupsOrdered(d, i, count);
    GroupsOrdered(d, o, count);
    if i < o {
      GroupsOrdered(d, i, o);
    } else if o < i {
      GroupsOrdered(d, o, i);
    }
    if g < i { GroupsOrdered(d, g, i); } else { GroupsOrdered(d, i, g); }
    if g < o { GroupsOrdered(d, g, o); } else { GroupsOrdered(d, o, g); }
    BlockMoved(s, t, p, q, d, x, x);
    GroupIsSlice(t, lo, d, g);
    GroupIsSlice(s, lo, d, g);
  }

  /** Group `g` of `s` is group `perm[g]` of `s0`, for every group below
    * `count`. */
  ghost predicate GroupsFrom<T>(s: seq<T>, s0: seq<T>, lo: nat, d: nat, count: nat, perm: seq<nat>)
  {
    |perm| == count && forall g :: 0 <= g < count ==> Group(s, lo, d, g) == Group(s0, lo, d, perm[g])
  }

  /** The step of the shuffle's group invariant: after exchanging groups `i`
    * and `o`, group `g` came from `perm'[g]` of the original. */
  lemma PermStep<T>(s0: seq<T>, s: seq<T>, t: seq<T>, lo: nat, d: nat, count: nat, i: nat, o: nat,
                    p: nat, q: nat, perm: seq<nat>, perm': seq<nat>)
    requires i < count && o < count && lo + Offset(d, count) <= |s| && |perm| == count
    requires p == lo + Offset(d, i) && q == lo + Offset(d, o)
    requires BlocksSwapped(t, s, p, q, d)
    requires GroupsFrom(s, s0, lo, d, count, perm)
    requires perm' == perm[i := perm[o]][o := perm[i]]
    ensures GroupsFrom(t, s0, lo, d, count, perm')
  {
    forall g | 0 <= g < count
      ensures Group(t, lo, d, g) == Group(s0, lo, d, perm'[g])
    {
      if g == i {
        SwapGroupFirst(s, t, lo, d, count, i, o, p, q);
      } else if g == o {
        SwapGroupSecond(s, t, lo, d, count, i, o, p, q);
      } else {
        SwapGroupOther(s, t, lo, d, count, i, o, g, p, q);
      }
    }
  }

  /** The body of the shuffle loop: exchange groups `i` and `o` of the
    * groups from `lo` to `hi`, keeping the frame, the entries of the range
    * and the group permutation. */
  method ExchangeGroups<T>(a: array<T>, lo: nat, hi: nat, d: nat, count: nat, i: nat, o: nat,
                           ghost s0: seq<T>, ghost perm: seq<nat>)
    returns (ghost perm': seq<nat>)
    requires i < count && o < count && hi == lo + Offset(d, count) <= a.Length
    requires SameOutside(a[..], s0, lo, hi) && multiset(a[lo..hi]) == multiset(s0[lo..hi])
    requires GroupsFrom(a[..], s0, lo, d, count, perm) && multiset(perm) == multiset(Range(count))
    modifies a
    ensures SameOutside(a[..], s0, lo, hi) && multiset(a[lo..hi]) == multiset(s0[lo..hi])
    ensures GroupsFrom(a[..], s0, lo, d, count, perm') && multiset(perm') == multiset(Range(count))
  {
    var p := lo + d * i;
    var q := lo + d * o;
    OffsetIsProduct(d, i);
    OffsetIsProduct(d, o);
    GroupsOrdered(d, i, count);
    GroupsOrdered(d, o, count);
    ghost var before := a[..];
    assert a[lo..hi] == before[lo..hi];
    SwapBlocks(a, p, q, d);
    perm' := perm[i := perm[o]][o := perm[i]];
    GroupsExchanged(s0, before, a[..], lo, hi, d, count, i, o, p, q, perm, perm');
    assert a[lo..hi] == a[..][lo..hi];
  }

  /** The effect of one pass of the shuffle loop on the array's contents:
    * the frame, the entries of the range and the group permutation are
    * kept. */
  lemma GroupsExchanged<T>(s0: seq<T>, s: seq<T>, t: seq<T>, lo: nat, hi: nat, d: nat, count: nat, i: nat, o: nat,
                           p: nat, q: nat, perm: seq<nat>, perm': seq<nat>)
    requires i < count && o < count && hi == lo + Offset(d, count) <= |s|
    requires p == lo + Offset(d, i) && q == lo + Offset(d, o) && p + d <= hi && q + d <= hi
    requires SameOutside(s, s0, lo, hi) && multiset(s[lo..hi]) == multiset(s0[lo..hi])
    requires GroupsFrom(s, s0, lo, d, count, perm) && multiset(perm) == multiset(Range(count))
    requires t == SwapPrefix(s, p, q, d) && perm' == perm[i := perm[o]][o := perm[i]]
    ensures SameOutside(t, s0, lo, hi) && multiset(t[lo..hi]) == multiset(s0[lo..hi])
    ensures GroupsFrom(t, s0, lo, d, count, perm') && multiset(perm') == multiset(Range(count))
  {
    GroupsOrdered(d, i, count);
    GroupsOrdered(d, o, count);
    if i < o {
      GroupsOrdered(d, i, o);
    } else if o < i {
      GroupsOrdered(d, o, i);
    }
    SwapPrefixDone(s, t, lo, hi, p, q, d);
    PermStep(s0, s, t, lo, d, count, i, o, p, q, perm, perm');
    OutsideKept(s0, s, t, lo, hi, p, q, d);
    SwapKeepsEntries(perm, i, o);
  }

  /** Exchanging two blocks inside [lo, hi) moves nothing outside it. */
  lemma OutsideKept<T>(s0: seq<T>, s: seq<T>, t: seq<T>, lo: nat, hi: nat, p: nat, q: nat, n: nat)
    requires lo <= p && p + n <= hi && lo <= q && q + n <= hi
    requires BlocksSwapped(t, s, p, q, n) && SameOutside(s, s0, lo, hi)
    ensures SameOutside(t, s0, lo, hi)
  {
    forall k | 0 <= k < |t| && !(lo <= k < hi)
      ensures t[k] == s0[k]
    {
      assert t[k] == s[SwapSource(k, p, q, n)];
    }
  }

  /** Exchanging two entries keeps the entries of a sequence. */
  lemma SwapKeepsEntries<T>(s: seq<T>, i: nat, j: nat)
    requires i < |s| && j < |s|
    ensures multiset(s[i := s[j]][j := s[i]]) == multiset(s)
  {
    var t := s[i := s[j]][j := s[i]];
    SwapKeepsRange(s, t, 0, |s|, i, j);
    assert s[0..|s|] == s && t[0..|t|] == t;
  }

  /** `shuffle` (lowdiscrepancy.rs:112-120) of the `count` groups of `d`
    * entries from `lo` on: for each group `i`, draw `other` in [i, count)
    * and exchange groups `i` and `other`. The draws come from
    * `uniform_u32_bounded`, which gives up after `fuel` rejections; then
    * the shuffle stops early and `complete` is false. In every case the
    * groups are permuted as units (`perm[g]` is where group `g` came from)
    * and nothing outside them moves. The `u32` index arithmetic of the
    * source stays in range because `d · count` fits in 32 bits. */
  method Shuffle<T>(samp: array<T>, lo: nat, hi: nat, count: nat, d: nat, rng: RNG, fuel: nat)
    returns (complete: bool, ghost perm: seq<nat>)
    requires hi == lo + d * count && hi <= samp.Length
    requires count < U32_RANGE && d * count <= U32_RANGE
    modifies samp, rng
    ensures rng.inc == old(rng.inc)
    ensures SameOutside(samp[..], old(samp[..]), lo, hi)
    ensures multiset(samp[..][lo..hi]) == multiset(old(samp[..])[lo..hi])
    ensures |perm| == count && multiset(perm) == multiset(Range(count))
    ensures forall g :: 0 <= g < count ==> Group(samp[..], lo, d, g) == Group(old(samp[..]), lo, d, perm[g])
  {
    OffsetIsProduct(d, count);
    ghost var s0 := samp[..];
    perm := Range(count);
    complete := true;
    var i := 0;
    while i < count
      invariant i <= count && rng.inc == old(rng.inc)
      invariant SameOutside(samp[..], s0, lo, hi)
      invariant multiset(samp[lo..hi]) == multiset(s0[lo..hi])
      invariant GroupsFrom(samp[..], s0, lo, d, count, perm) && multiset(perm) == multiset(Range(count))
    {
      var r := rng.UniformU32Bounded(count - i, fuel);
      if r.None? {
        complete := false;
        return;
      }
      var other := i + r.value;
      perm := ExchangeGroups(samp, lo, hi, d, count, i, other, s0, perm);
      i := i + 1;
    }
  }

  // ---------------------------------------------------------------------------
  // Shuffling inside and across pixel samples
  // ---------------------------------------------------------------------------

  /** A change confined to [lo, hi) that keeps the entries of that range
    * keeps the entries of every prefix covering it, and the rest of the
    * sequence beyond the prefix. */
  lemma PrefixKept<T>(s: seq<T>, t: seq<T>, lo: nat, hi: nat, n: nat)
    requires lo <= hi <= n <= |s|
    requires SameOutside(t, s, lo, hi) && multiset(t[lo..hi]) == multiset(s[lo..hi])
    ensures multiset(t[..n]) == multiset(s[..n]) && t[n..] == s[n..]
  {
    assert s[..n] == s[..lo] + s[lo..hi] + s[hi..n];
    assert t[..n] == t[..lo] + t[lo..hi] + t[hi..n];
    assert t[..lo] == s[..lo];
    assert t[hi..n] == s[hi..n];
    assert t[n..] == s[n..];
  }

  /** A group clear of [lo, hi) is untouched by a change confined to it. */
  lemma GroupOutside<T>(s: seq<T>, t: seq<T>, lo: nat, hi: nat, base: nat, d: nat, g: nat)
    requires SameOutside(t, s, lo, hi) && base + Offset(d, g) + d <= |s|
    requires base + Offset(d, g) + d <= lo || hi <= base + Offset(d, g)
    ensures Group(t, base, d, g) == Group(s, base, d, g)
  {
    GroupIsSlice(t, base, d, g);
    GroupIsSlice(s, base, d, g);
    var x := base + Offset(d, g);
    var tx, sx := t[x..x + d], s[x..x + d];
    assert forall k :: 0 <= k < d ==> tx[k] == sx[k];
  }

  /** Each pixel sample's group keeps its entries. */
  ghost predicate GroupsKept<T>(s: seq<T>, s0: seq<T>, d: nat, count: nat)
  {
    forall g :: 0 <= g < count ==> multiset(Group(s, 0, d, g)) == multiset(Group(s0, 0, d, g))
  }

  /** The step of the inner shuffle loop: shuffling the entries of group `i`
    * keeps every group's entries. */
  lemma InnerStep<T>(s0: seq<T>, s: seq<T>, t: seq<T>, d: nat, count: nat, i: nat, lo: nat)
    requires i < count && lo == Offset(d, i) && lo + d <= Offset(d, count) <= |s|
    requires SameOutside(t, s, lo, lo + d) && multiset(t[lo..lo + d]) == multiset(s[lo..lo + d])
    requires GroupsKept(s, s0, d, count)
    ensures GroupsKept(t, s0, d, count)
  {
    GroupsOrdered(d, i, count);
    forall g | 0 <= g < count
      ensures multiset(Group(t, 0, d, g)) == multiset(Group(s0, 0, d, g))
    {
      GroupsOrdered(d, g, count);
      if g == i {
        GroupIsSlice(t, 0, d, g);
        GroupIsSlice(s, 0, d, g);
      } else {
        if g < i { GroupsOrdered(d, g, i); } else { GroupsOrdered(d, i, g); }
        GroupOutside(s, t, lo, lo + d, 0, d, g);
      }
    }
  }

  /** The outer shuffle composes with the inner ones: group `j` at the end
    * has the entries of group `perm[j]` at the start. */
  lemma OuterStep<T>(s0: seq<T>, s: seq<T>, t: seq<T>, d: nat, count: nat, perm: seq<nat>)
    requires GroupsKept(s, s0, d, count)
    requires GroupsFrom(t, s, 0, d, count, perm) && multiset(perm) == multiset(Range(count))
    ensures forall j :: 0 <= j < count ==>
              multiset(Group(t, 0, d, j)) == multiset(Group(s0, 0, d, perm[j]))
  {
    PermutationOfRange(perm, count);
  }

  /** Against the buffer `s0`, `s` keeps the entries of every pixel sample,
    * of the whole prefix of `nsp · nps` entries, and the rest of the buffer
    * as it was. */
  ghost predicate PixelSamplesKept<T>(s: seq<T>, s0: seq<T>, nsp: nat, nps: nat)
  {
    Offset(nsp, nps) <= |s| == |s0| &&
    multiset(s[..Offset(nsp, nps)]) == multiset(s0[..Offset(nsp, nps)]) &&
    s[Offset(nsp, nps)..] == s0[Offset(nsp, nps)..] &&
    GroupsKept(s, s0, nsp, nps)
  }

  /** The body of the first shuffle loop: shuffle the entries of pixel
    * sample `i`, keeping every pixel sample's entries. */
  method ShufflePixelSample<T>(samples: array<T>, nsp: nat, nps: nat, i: nat, lo: nat, rng: RNG, fuel: nat,
                               ghost s0: seq<T>)
    returns (complete: bool)
    requires nsp < U32_RANGE && i < nps && lo == Offset(nsp, i) && PixelSamplesKept(samples[..], s0, nsp, nps)
    modifies samples, rng
    ensures rng.inc == old(rng.inc)
    ensures PixelSamplesKept(samples[..], s0, nsp, nps)
  {
    GroupsOrdered(nsp, i, nps);
    ghost var before := samples[..];
    complete := ShuffleEntries(samples, lo, lo + nsp, rng, fuel);
    ghost var after := samples[..];
    PixelSampleStep(s0, before, after, nsp, nps, i, lo);
    assert PixelSamplesKept(after, s0, nsp, nps);
  }

  /** Shuffling the entries of pixel sample i keeps every pixel sample's
    * entries, the entries of the whole prefix and the rest of the buffer. */
  lemma PixelSampleStep<T>(s0: seq<T>, s: seq<T>, t: seq<T>, nsp: nat, nps: nat, i: nat, lo: nat)
    requires i < nps && lo == Offset(nsp, i) && lo + nsp <= Offset(nsp, nps)
    requires PixelSamplesKept(s, s0, nsp, nps)
    requires SameOutside(t, s, lo, lo + nsp) && multiset(t[lo..lo + nsp]) == multiset(s[lo..lo + nsp])
    ensures PixelSamplesKept(t, s0, nsp, nps)
  {
    InnerStep(s0, s, t, nsp, nps, i, lo);
    PrefixKept(s, t, lo, lo + nsp, Offset(nsp, nps));
  }

  /** `shuffle` with one dimension: the entries of [lo, hi) are permuted
    * among themselves and nothing else changes. */
  method ShuffleEntries<T>(samp: array<T>, lo: nat, hi: nat, rng: RNG, fuel: nat) returns (complete: bool)
    requires lo <= hi <= samp.Length && hi - lo < U32_RANGE
    modifies samp, rng
    ensures rng.inc == old(rng.inc)
    ensures SameOutside(samp[..], old(samp[..]), lo, hi)
    ensures multiset(samp[..][lo..hi]) == multiset(old(samp[..])[lo..hi])
  {
    var done, _ := Shuffle(samp, lo, hi, hi - lo, 1, rng, fuel);
    complete := done;
  }

  /** The first shuffle loop of `van_der_corput` and `sobol_2d`: the `nsp`
    * entries of each of the `nps` pixel samples are shuffled among
    * themselves, so every pixel sample keeps its entries. */
  method ShuffleWithin<T>(samples: array<T>, nsp: nat, nps: nat, rng: RNG, fuel: nat)
    returns (complete: bool)
    requires nsp < U32_RANGE && Offset(nsp, nps) <= samples.Length
    modifies samples, rng
    ensures rng.inc == old(rng.inc)
    ensures multiset(samples[..Offset(nsp, nps)]) == multiset(old(samples[..Offset(nsp, nps)]))
    ensures samples[Offset(nsp, nps)..] == old(samples[Offset(nsp, nps)..])
    ensures GroupsKept(samples[..], old(samples[..]), nsp, nps)
  {
    ghost var s0 := samples[..];
    var i, lo := 0, 0;
    complete := true;
    while i < nps && complete
      invariant i <= nps && lo == Offset(nsp, i) && rng.inc == old(rng.inc)
      invariant PixelSamplesKept(samples[..], s0, nsp, nps)
    {
      complete := ShufflePixelSample(samples, nsp, nps, i, lo, rng, fuel, s0);
      i, lo := i + 1, lo + nsp;
    }
    ghost var end := Offset(nsp, nps);
    assert samples[..][..end] == samples[..end] && samples[..][end..] == samples[end..];
    assert s0[..end] == old(samples[..end]) && s0[end..] == old(samples[end..]);
  }

  /** The two shuffles of `van_der_corput` and `sobol_2d`
    * (lowdiscrepancy.rs:12-22, 36-46): first the `nsp` entries of each of
    * the `nps` pixel samples among themselves, then the pixel samples as
    * groups of `nsp`. Each group at the end holds the entries some group
    * held at the start (`perm[j]` says which), and the buffer beyond the
    * `nsp · nps` entries is untouched. When a draw runs out of `fuel` the
    * shuffling stops early and `complete` is false. */
  method ShuffleBlocks<T>(samples: array<T>, nsp: nat, nps: nat, rng: RNG, fuel: nat)
    returns (complete: bool, ghost perm: seq<nat>)
    requires nsp < U32_RANGE && nps < U32_RANGE && nsp * nps < U32_RANGE
    requires nsp * nps <= samples.Length
    modifies samples, rng
    ensures rng.inc == old(rng.inc)
    ensures samples[nsp * nps..] == old(samples[nsp * nps..])
    ensures multiset(samples[..nsp * nps]) == multiset(old(samples[..nsp * nps]))
    ensures |perm| == nps && multiset(perm) == multiset(Range(nps))
    ensures forall j :: 0 <= j < nps ==>
              multiset(Group(samples[..], 0, nsp, j)) == multiset(Group(old(samples[..]), 0, nsp, perm[j]))
  {
    var total := nsp * nps;
    OffsetIsProduct(nsp, nps);
    ghost var s0 := samples[..];
    complete := ShuffleWithin(samples, nsp, nps, rng, fuel);
    if !complete {
      perm := Range(nps);
      return;
    }
    ghost var s1 := samples[..];
    complete, perm := Shuffle(samples, 0, total, nps, nsp, rng, fuel);
    PrefixKept(s1, samples[..], 0, total, total);
    OuterStep(s0, s1, samples[..], nsp, nps, perm);
  }

  /** The groups of a prefix are those of the whole sequence. */
  lemma GroupsOfPrefix<T>(s: seq<T>, d: nat, count: nat, n: nat)
    requires Offset(d, count) <= n <= |s|
    ensures forall g :: 0 <= g < count ==> Group(s, 0, d, g) == Group(s[..n], 0, d, g)
  {
    forall g | 0 <= g < count
      ensures Group(s, 0, d, g) == Group(s[..n], 0, d, g)
    {
      GroupsOrdered(d, g, count);
      GroupIsSlice(s, 0, d, g);
      GroupIsSlice(s[..n], 0, d, g);
    }
  }

  /** `van_der_corput` (lowdiscrepancy.rs:5-23): draw a scramble word, write
    * the first `nsp · nps` points of the scrambled van der Corput sequence
    * by Gray code, then shuffle within and across pixel samples. At the end
    * pixel sample `j` holds the points of pixel sample `perm[j]` of the
    * unshuffled sequence, so together the buffer holds exactly the
    * generated points. `nsp · nps` is a `u32` product in the source, so it
    * must fit in 32 bits. */
  method VanDerCorput(nsp: nat, nps: nat, samples: array<real>, rng: RNG, fuel: nat)
    returns (complete: bool, ghost perm: seq<nat>)
    requires nsp < U32_RANGE && nps < U32_RANGE && nsp * nps < U32_RANGE
    requires nsp * nps <= samples.Length
    modifies samples, rng
    ensures rng.inc == old(rng.inc)
    ensures var points := GraySamples(CVAN_DER_CORPUT, Output(old(rng.state)), nsp * nps);
            multiset(samples[..nsp * nps]) == multiset(points) &&
            |perm| == nps && multiset(perm) == multiset(Range(nps)) &&
            forall j :: 0 <= j < nps ==>
              multiset(Group(samples[..], 0, nsp, j)) == multiset(Group(points, 0, nsp, perm[j]))
    ensures samples[nsp * nps..] == old(samples[nsp * nps..])
  {
    var scramble := rng.UniformU32();
    var total := nsp * nps;
    GrayCodeSample(CVAN_DER_CORPUT, total, scramble, samples);
    ghost var s1 := samples[..];
    complete, perm := ShuffleBlocks(samples, nsp, nps, rng, fuel);
    OffsetIsProduct(nsp, nps);
    GroupsOfPrefix(s1, nsp, nps, total);
    assert s1[..total] == GraySamples(CVAN_DER_CORPUT, scramble, total);
    PermutationOfRange(perm, nps);
  }

  /** `sobol_2d` (lowdiscrepancy.rs:25-48): draw the x and then the y
    * scramble word (the source passes them through `i32` and back, which
    * keeps the bits), write the first `nsp · nps` points of the scrambled
    * Sobol' (0,2)-sequence by Gray code, then shuffle within and across
    * pixel samples, with the same guarantees as `van_der_corput`. */
  method Sobol2D(nsp: nat, nps: nat, samples: array<Point2f>, rng: RNG, fuel: nat)
    returns (complete: bool, ghost perm: seq<nat>)
    requires nsp < U32_RANGE && nps < U32_RANGE && nsp * nps < U32_RANGE
    requires nsp * nps <= samples.Length
    modifies samples, rng
    ensures rng.inc == old(rng.inc)
    ensures var sx, sy := Output(old(rng.state)), Output(Step(old(rng.state), old(rng.inc)));
            var points := GrayPoints(CVAN_DER_CORPUT, CSOBOL_1, sx, sy, nsp * nps);
            multiset(samples[..nsp * nps]) == multiset(points) &&
            |perm| == nps && multiset(perm) == multiset(Range(nps)) &&
            forall j :: 0 <= j < nps ==>
              multiset(Group(samples[..], 0, nsp, j)) == multiset(Group(points, 0, nsp, perm[j]))
    ensures samples[nsp * nps..] == old(samples[nsp * nps..])
  {
    var sx := rng.UniformU32();
    var sy := rng.UniformU32();
    var total := nsp * nps;
    GrayCodeSample2D(CVAN_DER_CORPUT, CSOBOL_1, total, sx, sy, samples);
    ghost var s1 := samples[..];
    complete, perm := ShuffleBlocks(samples, nsp, nps, rng, fuel);
    OffsetIsProduct(nsp, nps);
    GroupsOfPrefix(s1, nsp, nps, total);
    assert s1[..total] == GrayPoints(CVAN_DER_CORPUT, CSOBOL_1, sx, sy, total);
    PermutationOfRange(perm, nps);
  }
}
