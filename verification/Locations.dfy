/** Numbering the rebuild target locations (`map_loc`), sharing them out over the ranks, and the
    largest location of a run (`MAX_LOC`). */
module Locations {
  import opened Common

  /** `DAL_location` */
  datatype Loc = Loc(pod: int, block: int, cap: int, scatter: int)

  /** `POSIX_REBUILD_LOC`: the lists of values each field ranges over, as `generate_locs` builds them. */
  datatype LocSet = LocSet(pod: seq<int>, block: seq<int>, cap: seq<int>, scatter: seq<int>) {

    predicate Valid() { pod != [] && block != [] && cap != [] && scatter != [] }

    /** `n_tgt` and `n_dist` */
    function Count(): (n: nat) { |pod| * |block| * |cap| * |scatter| }

    ghost predicate Contains(l: Loc) {
      l.pod in pod && l.block in block && l.cap in cap && l.scatter in scatter
    }

    ghost predicate DuplicateFree() {
      Distinct(pod) && Distinct(block) && Distinct(cap) && Distinct(scatter)
    }
  }

  ghost predicate Distinct<T>(s: seq<T>) {
    forall i, j :: 0 <= i < |s| && 0 <= j < |s| && s[i] == s[j] ==> i == j
  }

  /** Wrap around a list. */
  function Pick(s: seq<int>, n: nat): (x: int)
    requires s != []
    ensures x in s
  {
    s[n % |s|]
  }

  function PodBlock(n: nat, tgt: LocSet): (l: (int, int))
    requires tgt.Valid()
    ensures l.0 in tgt.pod && l.1 in tgt.block
  {
    (Pick(tgt.pod, n / |tgt.block|), Pick(tgt.block, n))
  }

  function PodBlockCap(n: nat, tgt: LocSet): (l: ((int, int), int))
    requires tgt.Valid()
    ensures l.0.0 in tgt.pod && l.0.1 in tgt.block && l.1 in tgt.cap
  {
    (PodBlock(n / |tgt.cap|, tgt), Pick(tgt.cap, n))
  }

  /** The location numbered `n`; the digits of `n` in mixed radix select from the four lists. */
  function MapLoc(n: int, tgt: LocSet): (l: Loc)
    requires tgt.Valid()
    ensures n >= 0 ==> tgt.Contains(l)
  {
    if n < 0 then Loc(-1, -1, -1, -1)
    else
      var upper := PodBlockCap(n / |tgt.scatter|, tgt);
      Loc(upper.0.0, upper.0.1, upper.1, Pick(tgt.scatter, n))
  }

  // ----- mixed radix -----

  /** Add a digit. */
  function Put(q: nat, m: nat, r: nat): (n: nat) { q * m + r }

  /** The number whose digits are p, b, c and s. */
  function Number(p: nat, b: nat, c: nat, s: nat, tgt: LocSet): (n: nat) {
    Put(Put(Put(p, |tgt.block|, b), |tgt.cap|, c), |tgt.scatter|, s)
  }

  lemma PutInRange(q: nat, m: nat, r: nat, k: nat)
    requires r < m && q < k
    ensures Put(q, m, r) < k * m
  {
    MulMono(q + 1, k, m);
    assert (q + 1) * m == q * m + m;
  }

  lemma NumberInRange(p: nat, b: nat, c: nat, s: nat, tgt: LocSet)
    requires p < |tgt.pod| && b < |tgt.block| && c < |tgt.cap| && s < |tgt.scatter|
    ensures Number(p, b, c, s, tgt) < tgt.Count()
  {
    PutInRange(p, |tgt.block|, b, |tgt.pod|);
    PutInRange(Put(p, |tgt.block|, b), |tgt.cap|, c, |tgt.pod| * |tgt.block|);
    PutInRange(Put(Put(p, |tgt.block|, b), |tgt.cap|, c), |tgt.scatter|, s, |tgt.pod| * |tgt.block| * |tgt.cap|);
  }

  lemma PickDigit(s: seq<int>, q: nat, r: nat)
    requires r < |s|
    ensures Put(q, |s|, r) / |s| == q && Pick(s, Put(q, |s|, r)) == s[r]
  {
    DivMod(q, |s|, r);
  }

  lemma PodBlockOf(p: nat, b: nat, tgt: LocSet)
    requires tgt.Valid() && p < |tgt.pod| && b < |tgt.block|
    ensures PodBlock(Put(p, |tgt.block|, b), tgt) == (tgt.pod[p], tgt.block[b])
  {
    PickDigit(tgt.block, p, b);
    PickDigit(tgt.pod, 0, p);
  }

  lemma PodBlockCapOf(nb: nat, c: nat, tgt: LocSet)
    requires tgt.Valid() && c < |tgt.cap|
    ensures PodBlockCap(Put(nb, |tgt.cap|, c), tgt) == (PodBlock(nb, tgt), tgt.cap[c])
  {
    PickDigit(tgt.cap, nb, c);
  }

  lemma MapLocOf(nc: nat, s: nat, tgt: LocSet)
    requires tgt.Valid() && s < |tgt.scatter|
    ensures var upper := PodBlockCap(nc, tgt);
            MapLoc(Put(nc, |tgt.scatter|, s), tgt) == Loc(upper.0.0, upper.0.1, upper.1, tgt.scatter[s])
  {
    PickDigit(tgt.scatter, nc, s);
  }

  /** `MapLoc` reads the digits back. */
  lemma MapLocOfNumber(p: nat, b: nat, c: nat, s: nat, tgt: LocSet)
    requires p < |tgt.pod| && b < |tgt.block| && c < |tgt.cap| && s < |tgt.scatter|
    ensures MapLoc(Number(p, b, c, s, tgt), tgt) == Loc(tgt.pod[p], tgt.block[b], tgt.cap[c], tgt.scatter[s])
  {
    var nb := Put(p, |tgt.block|, b);
    PodBlockOf(p, b, tgt);
    PodBlockCapOf(nb, c, tgt);
    MapLocOf(Put(nb, |tgt.cap|, c), s, tgt);
  }

  lemma QuotRem(n: nat, m: nat, k: nat) returns (q: nat, r: nat)
    requires n < k * m
    ensures n == Put(q, m, r) && q < k && r < m
  {
    q, r := n / m, n % m;
    DivBound(n, m, k);
  }

  /** Every number in range has digits. */
  lemma DigitsOf(n: nat, tgt: LocSet) returns (p: nat, b: nat, c: nat, s: nat)
    requires tgt.Valid() && n < tgt.Count()
    ensures p < |tgt.pod| && b < |tgt.block| && c < |tgt.cap| && s < |tgt.scatter|
    ensures n == Number(p, b, c, s, tgt)
  {
    var k2 := |tgt.pod| * |tgt.block|;
    var k3 := k2 * |tgt.cap|;
    var nc, nb;
    nc, s := QuotRem(n, |tgt.scatter|, k3);
    nb, c := QuotRem(nc, |tgt.cap|, k2);
    p, b := QuotRem(nb, |tgt.block|, |tgt.pod|);
  }

  /** `map_loc` is onto: every combination of the four lists has a number in range ... */
  lemma MapLocOnto(l: Loc, tgt: LocSet) returns (n: nat)
    requires tgt.Valid() && tgt.Contains(l)
    ensures n < tgt.Count() && MapLoc(n, tgt) == l
  {
    var p: nat :| p < |tgt.pod| && tgt.pod[p] == l.pod;
    var b: nat :| b < |tgt.block| && tgt.block[b] == l.block;
    var c: nat :| c < |tgt.cap| && tgt.cap[c] == l.cap;
    var s: nat :| s < |tgt.scatter| && tgt.scatter[s] == l.scatter;
    n := Number(p, b, c, s, tgt);
    NumberInRange(p, b, c, s, tgt);
    MapLocOfNumber(p, b, c, s, tgt);
  }

  /** ... and, when no list repeats a value, one to one. */
  lemma MapLocOneToOne(m: nat, n: nat, tgt: LocSet)
    requires tgt.Valid() && tgt.DuplicateFree() && m < tgt.Count() && n < tgt.Count()
    requires MapLoc(m, tgt) == MapLoc(n, tgt)
    ensures m == n
  {
    var p, b, c, s := DigitsOf(m, tgt);
    var p', b', c', s' := DigitsOf(n, tgt);
    MapLocOfNumber(p, b, c, s, tgt);
    MapLocOfNumber(p', b', c', s', tgt);
  }

  lemma PutOrder(q: nat, m: nat, r: nat, q': nat, r': nat)
    requires r < m && r' < m
    ensures Put(q, m, r) < Put(q', m, r') <==> q < q' || (q == q' && r < r')
  {
    if q < q' {
      MulMono(q + 1, q', m);
      assert (q + 1) * m == q * m + m;
    } else if q' < q {
      MulMono(q' + 1, q, m);
      assert (q' + 1) * m == q' * m + m;
    }
  }

  /** Locations are numbered in lexicographic order: scatters vary fastest, pods slowest. */
  lemma NumberingIsLexicographic(p: nat, b: nat, c: nat, s: nat, p': nat, b': nat, c': nat, s': nat, tgt: LocSet)
    requires b < |tgt.block| && c < |tgt.cap| && s < |tgt.scatter|
    requires b' < |tgt.block| && c' < |tgt.cap| && s' < |tgt.scatter|
    ensures Number(p, b, c, s, tgt) < Number(p', b', c', s', tgt) <==>
      p < p' || (p == p' && (b < b' || (b == b' && (c < c' || (c == c' && s < s')))))
  {
    var x, x' := Put(p, |tgt.block|, b), Put(p', |tgt.block|, b');
    var y, y' := Put(x, |tgt.cap|, c), Put(x', |tgt.cap|, c');
    PutOrder(p, |tgt.block|, b, p', b');
    PutOrder(p', |tgt.block|, b', p, b);
    PutOrder(x, |tgt.cap|, c, x', c');
    PutOrder(x', |tgt.cap|, c', x, c);
    PutOrder(y, |tgt.scatter|, s, y', s');
  }

  // ----- the ranks -----

  /** First location of a rank. */
  function First(rank: nat, nRanks: nat, count: nat): (i: nat)
    requires rank < nRanks
  {
    rank * (count / nRanks)
  }

  /** One past the last location of a rank; the last rank takes the remainder. */
  function Limit(rank: nat, nRanks: nat, count: nat): (i: nat)
    requires rank < nRanks
  {
    if rank == nRanks - 1 then count else (rank + 1) * (count / nRanks)
  }

  ghost predicate Handles(rank: nat, nRanks: nat, count: nat, n: nat)
    requires rank < nRanks
  {
    First(rank, nRanks, count) <= n < Limit(rank, nRanks, count)
  }

  /** Which rank handles location number `n`. */
  function Owner(nRanks: nat, count: nat, n: nat): (rank: nat)
    requires nRanks > 0 && n < count
    ensures rank < nRanks
  {
    var q := count / nRanks;
    if q == 0 || n / q >= nRanks then nRanks - 1 else n / q
  }

  /** The intervals of the ranks partition the location numbers. */
  lemma RanksPartition(nRanks: nat, count: nat, n: nat, rank: nat)
    requires rank < nRanks && n < count
    ensures Handles(rank, nRanks, count, n) <==> rank == Owner(nRanks, count, n)
  {
    var q := count / nRanks;
    if q == 0 {
      assert rank * q == 0 && (rank + 1) * q == 0;
    } else {
      assert n == (n / q) * q + n % q;
      assert (n / q + 1) * q == (n / q) * q + q;
      if n / q < rank { MulMono(n / q + 1, rank, q); }
      if n / q > rank { MulMono(rank + 1, n / q, q); }
      if n / q == rank { assert (rank + 1) * q == rank * q + q; }
    }
  }

  /** The ranks share evenly: each gets the same number of locations, and the last one what is left
      over as well, which is less than one each. */
  lemma RanksShareEvenly(rank: nat, nRanks: nat, count: nat)
    requires rank < nRanks
    ensures
      var share, mine := count / nRanks, Limit(rank, nRanks, count) - First(rank, nRanks, count);
      && (rank < nRanks - 1 ==> mine == share)
      && (rank == nRanks - 1 ==> mine == share + (count - nRanks * share))
      && 0 <= count - nRanks * share < nRanks
  {
    var q := count / nRanks;
    assert count == q * nRanks + count % nRanks;
    assert (rank + 1) * q == rank * q + q;
    assert nRanks * q == q * nRanks;
    if rank == nRanks - 1 { assert rank * q == nRanks * q - q; }
  }

  /** `map_loc`: divide the number down, field by field. */
  method FillLoc(n: int, tgt: LocSet) returns (loc: Loc)
    requires tgt.Valid()
    ensures loc == MapLoc(n, tgt)
    ensures n < 0 ==> loc == Loc(-1, -1, -1, -1)
  {
    if n < 0 { return Loc(-1, -1, -1, -1); }
    var m := n;
    loc := Loc(0, 0, 0, tgt.scatter[m % |tgt.scatter|]);
    m := m / |tgt.scatter|;
    loc := loc.(cap := tgt.cap[m % |tgt.cap|]);
    m := m / |tgt.cap|;
    loc := loc.(block := tgt.block[m % |tgt.block|]);
    m := m / |tgt.block|;
    loc := loc.(pod := tgt.pod[m % |tgt.pod|]);
  }

  /** The loop of `main`: the locations one rank turns into work packages, in order. */
  method RankWork(rank: nat, nRanks: nat, tgt: LocSet) returns (work: seq<Loc>)
    requires rank < nRanks && tgt.Valid()
    ensures |work| == Limit(rank, nRanks, tgt.Count()) - First(rank, nRanks, tgt.Count())
    ensures forall k :: 0 <= k < |work| ==> work[k] == MapLoc(First(rank, nRanks, tgt.Count()) + k, tgt)
  {
    var count := tgt.Count();
    var nLocs := count / nRanks;
    var lastLoc := (rank + 1) * nLocs;
    if rank == nRanks - 1 { lastLoc := count; }
    FirstBeforeLimit(rank, nRanks, count);
    var i := rank * nLocs;
    work := [];
    while i < lastLoc
      invariant rank * nLocs <= i <= lastLoc && |work| == i - rank * nLocs
      invariant forall k :: 0 <= k < |work| ==> work[k] == MapLoc(rank * nLocs + k, tgt)
    {
      var loc := FillLoc(i, tgt);
      work := work + [loc];
      i := i + 1;
    }
  }

  lemma FirstBeforeLimit(rank: nat, nRanks: nat, count: nat)
    requires rank < nRanks
    ensures First(rank, nRanks, count) <= Limit(rank, nRanks, count) <= count
  {
    var q := count / nRanks;
    assert count == q * nRanks + count % nRanks;
    MulMono(rank, rank + 1, q);
    MulMono(rank + 1, nRanks, q);
    assert nRanks * q == q * nRanks;
  }

  /** Rank `rank` visits location `l` in its iteration `n`. */
  ghost predicate Visits(rank: nat, nRanks: nat, tgt: LocSet, n: nat, l: Loc)
    requires tgt.Valid()
  {
    rank < nRanks && n < tgt.Count() && Handles(rank, nRanks, tgt.Count(), n) && MapLoc(n, tgt) == l
  }

  /** Exactly-once distribution: with any number of ranks, each location of a duplicate-free
      target is visited by one rank, in one of its iterations, and by no other. */
  lemma EachLocationVisitedOnce(nRanks: nat, tgt: LocSet, l: Loc)
    requires nRanks > 0 && tgt.Valid() && tgt.DuplicateFree() && tgt.Contains(l)
    ensures exists rank, n :: Visits(rank, nRanks, tgt, n, l)
    ensures forall r, m, r', m' :: Visits(r, nRanks, tgt, m, l) && Visits(r', nRanks, tgt, m', l) ==> r == r' && m == m'
  {
    var n := MapLocOnto(l, tgt);
    var rank := Owner(nRanks, tgt.Count(), n);
    RanksPartition(nRanks, tgt.Count(), n, rank);
    assert Visits(rank, nRanks, tgt, n, l);
    forall r, m | Visits(r, nRanks, tgt, m, l)
      ensures r == rank && m == n
    {
      MapLocOneToOne(m, n, tgt);
      RanksPartition(nRanks, tgt.Count(), n, r);
    }
  }

  function Indices(tgt: LocSet): (r: LocSet) {
    LocSet(seq(|tgt.pod|, i => i), seq(|tgt.block|, i => i), seq(|tgt.cap|, i => i), seq(|tgt.scatter|, i => i))
  }

  /** Different digits make different numbers. */
  lemma NumberOneToOne(p: nat, b: nat, c: nat, s: nat, p': nat, b': nat, c': nat, s': nat, tgt: LocSet)
    requires p < |tgt.pod| && b < |tgt.block| && c < |tgt.cap| && s < |tgt.scatter|
    requires p' < |tgt.pod| && b' < |tgt.block| && c' < |tgt.cap| && s' < |tgt.scatter|
    requires Number(p, b, c, s, tgt) == Number(p', b', c', s', tgt)
    ensures p == p' && b == b' && c == c' && s == s'
  {
    MapLocOfNumber(p, b, c, s, Indices(tgt));
    MapLocOfNumber(p', b', c', s', Indices(tgt));
  }

  ghost predicate NumbersOnce(tgt: LocSet)
    requires tgt.Valid()
  {
    forall m: nat, n: nat :: m < tgt.Count() && n < tgt.Count() && MapLoc(m, tgt) == MapLoc(n, tgt) ==> m == n
  }

  lemma SameDigits(p: nat, b: nat, c: nat, s: nat, p': nat, b': nat, c': nat, s': nat, tgt: LocSet)
    requires tgt.Valid() && NumbersOnce(tgt)
    requires p < |tgt.pod| && b < |tgt.block| && c < |tgt.cap| && s < |tgt.scatter|
    requires p' < |tgt.pod| && b' < |tgt.block| && c' < |tgt.cap| && s' < |tgt.scatter|
    requires tgt.pod[p] == tgt.pod[p'] && tgt.block[b] == tgt.block[b']
    requires tgt.cap[c] == tgt.cap[c'] && tgt.scatter[s] == tgt.scatter[s']
    ensures p == p' && b == b' && c == c' && s == s'
  {
    NumberInRange(p, b, c, s, tgt);
    NumberInRange(p', b', c', s', tgt);
    MapLocOfNumber(p, b, c, s, tgt);
    MapLocOfNumber(p', b', c', s', tgt);
    NumberOneToOne(p, b, c, s, p', b', c', s', tgt);
  }

  /** The parser does not remove repeated values; a location is numbered once exactly when no
      list repeats a value, and is handed out again otherwise. */
  lemma NumbersOnceIffDuplicateFree(tgt: LocSet)
    requires tgt.Valid()
    ensures NumbersOnce(tgt) <==> tgt.DuplicateFree()
  {
    if tgt.DuplicateFree() {
      forall m: nat, n: nat | m < tgt.Count() && n < tgt.Count() && MapLoc(m, tgt) == MapLoc(n, tgt) ensures m == n {
        MapLocOneToOne(m, n, tgt);
      }
    }
    if NumbersOnce(tgt) {
      forall i, j | 0 <= i < |tgt.pod| && 0 <= j < |tgt.pod| && tgt.pod[i] == tgt.pod[j] ensures i == j {
        SameDigits(i, 0, 0, 0, j, 0, 0, 0, tgt);
      }
      forall i, j | 0 <= i < |tgt.block| && 0 <= j < |tgt.block| && tgt.block[i] == tgt.block[j] ensures i == j {
        SameDigits(0, i, 0, 0, 0, j, 0, 0, tgt);
      }
      forall i, j | 0 <= i < |tgt.cap| && 0 <= j < |tgt.cap| && tgt.cap[i] == tgt.cap[j] ensures i == j {
        SameDigits(0, 0, i, 0, 0, 0, j, 0, tgt);
      }
      forall i, j | 0 <= i < |tgt.scatter| && 0 <= j < |tgt.scatter| && tgt.scatter[i] == tgt.scatter[j] ensures i == j {
        SameDigits(0, 0, 0, i, 0, 0, 0, j, tgt);
      }
    }
  }

  // ----- the largest location -----

  ghost predicate Ascending(s: seq<int>) {
    forall i, j :: 0 <= i < j < |s| ==> s[i] <= s[j]
  }

  function Last(s: seq<int>): (x: int) requires s != [] { s[|s| - 1] }

  /** `MAX_LOC`, for all four fields: it compares last elements only. */
  function MaxLoc(tgt: LocSet, dist: LocSet): (l: Loc)
    requires tgt.Valid() && dist.Valid()
  {
    Loc(MaxLast(tgt.pod, dist.pod), MaxLast(tgt.block, dist.block), MaxLast(tgt.cap, dist.cap), MaxLast(tgt.scatter, dist.scatter))
  }

  function MaxLast(s: seq<int>, t: seq<int>): (x: int)
    requires s != [] && t != []
  {
    if Last(s) > Last(t) then Last(s) else Last(t)
  }

  predicate Within(l: Loc, max: Loc) {
    l.pod <= max.pod && l.block <= max.block && l.cap <= max.cap && l.scatter <= max.scatter
  }

  ghost predicate Bounded(s: seq<int>, max: int) { forall x :: x in s ==> x <= max }

  /** What the DAL needs of the maximum: it bounds every location of the target and the distribution. */
  ghost predicate IsBound(tgt: LocSet, dist: LocSet, max: Loc) {
    forall l :: tgt.Contains(l) || dist.Contains(l) ==> Within(l, max)
  }

  /** Neither list has a value above both last elements. */
  ghost predicate LastsAreLargest(s: seq<int>, t: seq<int>)
    requires s != [] && t != []
  {
    Bounded(s, MaxLast(s, t)) && Bounded(t, MaxLast(s, t))
  }

  /** The maximum is a bound exactly when, field by field, the last elements are the largest. */
  lemma MaxLocIsBoundIff(tgt: LocSet, dist: LocSet)
    requires tgt.Valid() && dist.Valid()
    ensures IsBound(tgt, dist, MaxLoc(tgt, dist)) <==>
      && LastsAreLargest(tgt.pod, dist.pod) && LastsAreLargest(tgt.block, dist.block)
      && LastsAreLargest(tgt.cap, dist.cap) && LastsAreLargest(tgt.scatter, dist.scatter)
  {
    if IsBound(tgt, dist, MaxLoc(tgt, dist)) {
      FieldsBounded(tgt, dist, tgt);
      FieldsBounded(tgt, dist, dist);
    }
  }

  lemma FieldsBounded(tgt: LocSet, dist: LocSet, s: LocSet)
    requires tgt.Valid() && dist.Valid() && IsBound(tgt, dist, MaxLoc(tgt, dist)) && (s == tgt || s == dist)
    ensures var max := MaxLoc(tgt, dist);
      Bounded(s.pod, max.pod) && Bounded(s.block, max.block) && Bounded(s.cap, max.cap) && Bounded(s.scatter, max.scatter)
  {
    var max := MaxLoc(tgt, dist);
    var l := Loc(s.pod[0], s.block[0], s.cap[0], s.scatter[0]);
    forall x | x in s.pod ensures x <= max.pod { assert s.Contains(l.(pod := x)); }
    forall x | x in s.block ensures x <= max.block { assert s.Contains(l.(block := x)); }
    forall x | x in s.cap ensures x <= max.cap { assert s.Contains(l.(cap := x)); }
    forall x | x in s.scatter ensures x <= max.scatter { assert s.Contains(l.(scatter := x)); }
  }

  /** For ascending lists the last elements bound every location `map_loc` yields, for any number. */
  lemma MaxLocBounds(tgt: LocSet, dist: LocSet, n: nat)
    requires tgt.Valid() && dist.Valid()
    requires Ascending(tgt.pod) && Ascending(tgt.block) && Ascending(tgt.cap) && Ascending(tgt.scatter)
    requires Ascending(dist.pod) && Ascending(dist.block) && Ascending(dist.cap) && Ascending(dist.scatter)
    ensures Within(MapLoc(n, tgt), MaxLoc(tgt, dist)) && Within(MapLoc(n, dist), MaxLoc(tgt, dist))
    ensures IsBound(tgt, dist, MaxLoc(tgt, dist))
  {
    AscendingBounded(tgt.pod);
    AscendingBounded(tgt.block);
    AscendingBounded(tgt.cap);
    AscendingBounded(tgt.scatter);
    AscendingBounded(dist.pod);
    AscendingBounded(dist.block);
    AscendingBounded(dist.cap);
    AscendingBounded(dist.scatter);
  }

  lemma AscendingBounded(s: seq<int>)
    requires s != [] && Ascending(s)
    ensures Bounded(s, Last(s))
  {
  }
}
