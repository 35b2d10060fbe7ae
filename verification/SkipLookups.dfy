/** Which sectors the binary search of the skip map finds, on any table, sorted or not. */
module SkipLookups {
  import opened SkipMap

  /** Bisection of the entries lb to ub probes entry m before it gets to entry k. */
  predicate Above(lb: nat, ub: int, m: nat, k: nat)
    decreases ub - lb
  {
    && lb <= k <= ub
    && var mid := lb + (ub - lb) / 2;
       k != mid && (m == mid || if k < mid then Above(lb, mid - 1, m, k) else Above(mid + 1, ub, m, k))
  }

  lemma {:induction false} AboveInRange(lb: nat, ub: int, m: nat, k: nat)
    requires Above(lb, ub, m, k)
    ensures lb <= m <= ub && m != k
    decreases ub - lb
  {
    var mid := lb + (ub - lb) / 2;
    if m != mid && k < mid {
      AboveInRange(lb, mid - 1, m, k);
    } else if m != mid {
      AboveInRange(mid + 1, ub, m, k);
    }
  }

  /** The key of a lookup of sector s of the program that p names. */
  function Point(p: Region, s: nat): Region {
    Region(p.domain, p.title, p.program, s, s)
  }

  /** Entry m sends the key to its other side from entry k. */
  predicate SendsAway(t: seq<Region>, key: Region, m: nat, k: nat) {
    m < |t| && if k < m then Compare(key, t[m]) > 0 else Compare(key, t[m]) < 0
  }

  /** Entry k overlaps the key, and no entry above it sends the key away from it. */
  predicate Reached(t: seq<Region>, key: Region, k: nat) {
    && k < |t| && Compare(key, t[k]) == 0
    && forall m: nat :: m < |t| && Above(0, |t| - 1, m, k) ==> !SendsAway(t, key, m, k)
  }

  lemma {:induction false} SearchFinds(t: seq<Region>, key: Region, lb: nat, ub: int, k: nat)
    requires lb <= k <= ub < |t| && Compare(key, t[k]) == 0
    requires forall m: nat :: m < |t| && Above(lb, ub, m, k) ==> !SendsAway(t, key, m, k)
    ensures Search(t, key, lb, ub) >= 0
    decreases ub - lb
  {
    hide Compare;
    var mid := lb + (ub - lb) / 2;
    if k < mid {
      assert Above(lb, ub, mid, k);
      if Compare(key, t[mid]) < 0 {
        SearchFinds(t, key, lb, mid - 1, k);
      }
    } else if k > mid {
      assert Above(lb, ub, mid, k);
      if Compare(key, t[mid]) > 0 {
        SearchFinds(t, key, mid + 1, ub, k);
      }
    }
  }

  lemma {:induction false} SearchReaches(t: seq<Region>, key: Region, lb: nat, ub: int)
    requires ub < |t| && Search(t, key, lb, ub) >= 0
    ensures var r := Search(t, key, lb, ub);
            forall m: nat :: m < |t| && Above(lb, ub, m, r) ==> !SendsAway(t, key, m, r) && Compare(key, t[m]) != 0
    decreases ub - lb
  {
    hide Compare;
    var mid, r := lb + (ub - lb) / 2, Search(t, key, lb, ub);
    if Compare(key, t[mid]) < 0 {
      SearchReaches(t, key, lb, mid - 1);
      assert forall m: nat :: Above(lb, ub, m, r) ==> m == mid || Above(lb, mid - 1, m, r);
    } else if Compare(key, t[mid]) > 0 {
      SearchReaches(t, key, mid + 1, ub);
      assert forall m: nat :: Above(lb, ub, m, r) ==> m == mid || Above(mid + 1, ub, m, r);
    } else {
      assert forall m: nat :: !Above(lb, ub, m, r);
    }
  }

  /** On any table at all, the search finds an overlapping entry exactly if it can reach one. */
  lemma FindIsReach(t: seq<Region>, key: Region)
    ensures Find(t, key) >= 0 <==> exists k: nat :: Reached(t, key, k)
  {
    hide Compare;
    if Find(t, key) >= 0 {
      SearchReaches(t, key, 0, |t| - 1);
      assert Reached(t, key, Find(t, key));
    }
    if k: nat :| Reached(t, key, k) {
      SearchFinds(t, key, 0, |t| - 1, k);
    }
  }

  // ----- the part of an entry that lookups can reach ----------------------------------------

  /** The order of the programs of two regions: negative, zero or positive. */
  function ComparePrograms(a: Region, b: Region): int {
    if a.domain < b.domain then -1 else if a.domain > b.domain then 1
    else if a.title < b.title then -1 else if a.title > b.title then 1
    else if a.program < b.program then -1 else if a.program > b.program then 1
    else 0
  }

  function Nothing(r: Region): Region {
    r.(start := 1, end := 0)
  }

  /** What is left of r, in an entry below `a`, of the sectors that `a` does not send up; and in an
      entry above, of those that it does not send down. */
  function KeepDown(r: Region, a: Region): Region {
    if ComparePrograms(r, a) < 0 then r else if ComparePrograms(r, a) > 0 then Nothing(r)
    else if a.end < r.end then r.(end := a.end) else r
  }

  function KeepUp(r: Region, a: Region): Region {
    if ComparePrograms(r, a) > 0 then r else if ComparePrograms(r, a) < 0 then Nothing(r)
    else if a.start > r.start then r.(start := a.start) else r
  }

  /** What is left of r, the entry k or a part of it, after the probes from lb and ub on. */
  function Window(t: seq<Region>, lb: nat, ub: int, k: nat, r: Region): Region
    requires lb <= k <= ub < |t|
    decreases ub - lb
  {
    var mid := lb + (ub - lb) / 2;
    if k < mid then Window(t, lb, mid - 1, k, KeepDown(r, t[mid]))
    else if k > mid then Window(t, mid + 1, ub, k, KeepUp(r, t[mid]))
    else r
  }

  lemma KeepsPart(r: Region, a: Region, p: Region, s: nat)
    requires a.start <= a.end
    ensures In(KeepDown(r, a), p, s) <==> In(r, p, s) && Compare(Point(p, s), a) <= 0
    ensures In(KeepUp(r, a), p, s) <==> In(r, p, s) && Compare(Point(p, s), a) >= 0
  {
  }

  lemma {:induction false} WindowIs(t: seq<Region>, lb: nat, ub: int, k: nat, r: Region, p: Region, s: nat)
    requires Forward(t) && lb <= k <= ub < |t|
    ensures In(Window(t, lb, ub, k, r), p, s) <==>
            In(r, p, s) && forall m: nat :: m < |t| && Above(lb, ub, m, k) ==> !SendsAway(t, Point(p, s), m, k)
    decreases ub - lb
  {
    hide In, Compare, KeepDown, KeepUp;
    var mid := lb + (ub - lb) / 2;
    KeepsPart(r, t[mid], p, s);
    if k < mid {
      assert Above(lb, ub, mid, k) && (SendsAway(t, Point(p, s), mid, k) <==> Compare(Point(p, s), t[mid]) > 0);
      assert forall m: nat :: Above(lb, ub, m, k) <==> m == mid || Above(lb, mid - 1, m, k);
      WindowIs(t, lb, mid - 1, k, KeepDown(r, t[mid]), p, s);
    } else if k > mid {
      assert Above(lb, ub, mid, k) && (SendsAway(t, Point(p, s), mid, k) <==> Compare(Point(p, s), t[mid]) < 0);
      assert forall m: nat :: Above(lb, ub, m, k) <==> m == mid || Above(mid + 1, ub, m, k);
      WindowIs(t, mid + 1, ub, k, KeepUp(r, t[mid]), p, s);
    }
  }

  /** Of every entry the part that lookups reach. */
  function Windows(t: seq<Region>): (w: seq<Region>)
    ensures |w| == |t| && forall k :: 0 <= k < |t| ==> w[k] == Window(t, 0, |t| - 1, k, t[k])
  {
    seq(|t|, k requires 0 <= k < |t| => Window(t, 0, |t| - 1, k, t[k]))
  }

  lemma InIsOverlap(r: Region, p: Region, s: nat)
    requires r.start <= r.end
    ensures In(r, p, s) <==> Compare(Point(p, s), r) == 0
  {
  }

  /** A lookup succeeds exactly for the sectors in some entry's window. */
  lemma FindIsWindow(t: seq<Region>, p: Region, s: nat)
    requires Forward(t)
    ensures Find(t, Point(p, s)) >= 0 <==> Covers(Windows(t), p, s)
  {
    hide In, Compare, Find, Window;
    var w, key := Windows(t), Point(p, s);
    FindIsReach(t, key);
    forall k | 0 <= k < |t|
      ensures In(w[k], p, s) <==> Reached(t, key, k)
    {
      InIsOverlap(t[k], p, s);
      WindowIs(t, 0, |t| - 1, k, t[k], p, s);
    }
  }

  // ----- when nothing is lost ---------------------------------------------------------------

  /** Every sector that the table covers is found. */
  ghost predicate AllFound(t: seq<Region>) {
    forall p, s: nat :: Covers(t, p, s) ==> Find(t, Point(p, s)) >= 0
  }

  /** A finite check that the regions w cover all of q: they cover its first sector, and each sector
      of q after the end of one of them. */
  predicate Fills(w: seq<Region>, q: Region) {
    && (q.start <= q.end ==> Covers(w, q, q.start))
    && forall j :: 0 <= j < |w| && In(w[j], w[j], w[j].end) && In(q, w[j], w[j].end + 1) ==>
         Covers(w, w[j], w[j].end + 1)
  }

  lemma {:induction false} NoGap(w: seq<Region>, q: Region, p: Region, s: nat)
    requires Fills(w, q) && In(q, p, s)
    ensures Covers(w, p, s)
    decreases s
  {
    hide Covers, In;
    InMeans(q, p, s);
    if s == q.start {
      SameProgram(w, q, p, s);
    } else {
      InMeans(q, p, s - 1);
      NoGap(w, q, p, s - 1);
      var j := Coverer(w, p, s - 1);
      NextIn(q, w[j], p, s);
      if In(w[j], p, s) {
        IsCovered(w, j, p, s);
      } else {
        SameProgram(w, w[j], p, s);
      }
    }
  }

  lemma FillsIsCover(w: seq<Region>, q: Region)
    ensures Fills(w, q) <==> forall p, s: nat :: In(q, p, s) ==> Covers(w, p, s)
  {
    hide Covers;
    if Fills(w, q) {
      forall p, s: nat | In(q, p, s)
        ensures Covers(w, p, s)
      {
        NoGap(w, q, p, s);
      }
    }
    assert q.start <= q.end ==> In(q, q, q.start);
  }

  /** The windows fill every entry. */
  predicate Gapless(t: seq<Region>) {
    forall k :: 0 <= k < |t| ==> Fills(Windows(t), t[k])
  }

  lemma InMeans(r: Region, p: Region, s: nat)
    ensures In(r, p, s) <==> ComparePrograms(r, p) == 0 && r.start <= s <= r.end
  {
  }

  lemma Coverer(t: seq<Region>, p: Region, s: nat) returns (j: nat)
    requires Covers(t, p, s)
    ensures j < |t| && In(t[j], p, s)
  {
    j :| 0 <= j < |t| && In(t[j], p, s);
  }

  lemma IsCovered(t: seq<Region>, j: nat, p: Region, s: nat)
    requires j < |t| && In(t[j], p, s)
    ensures Covers(t, p, s)
  {
  }

  /** The sector after one of the window v either is in v too, or follows its end. */
  lemma NextIn(r: Region, v: Region, p: Region, s: nat)
    requires In(r, p, s) && s > 0 && In(v, p, s - 1)
    ensures ComparePrograms(v, p) == 0
    ensures In(v, p, s) || (s == v.end + 1 && In(v, v, v.end) && In(r, v, v.end + 1))
  {
  }

  lemma SameProgram(t: seq<Region>, p: Region, q: Region, s: nat)
    requires ComparePrograms(p, q) == 0
    ensures Covers(t, p, s) <==> Covers(t, q, s)
  {
    assert forall i :: 0 <= i < |t| ==> (In(t[i], p, s) <==> In(t[i], q, s));
  }

  /** No lookup is lost exactly if the windows leave no gap: a finite check of the table. */
  lemma AllFoundIsGapless(t: seq<Region>)
    requires Forward(t)
    ensures AllFound(t) <==> Gapless(t)
  {
    hide Find, Windows, In, Fills;
    var w := Windows(t);
    forall p, s: nat
      ensures Find(t, Point(p, s)) >= 0 <==> Covers(w, p, s)
    {
      FindIsWindow(t, p, s);
    }
    forall k | 0 <= k < |t|
      ensures Fills(w, t[k]) <==> forall p, s: nat :: In(t[k], p, s) ==> Covers(w, p, s)
    {
      FillsIsCover(w, t[k]);
    }
    assert forall k, p, s: nat :: 0 <= k < |t| && In(t[k], p, s) ==> Covers(t, p, s);
  }

  // ----- additions --------------------------------------------------------------------------

  lemma AddKeepsForward(t: seq<Region>, b: Region)
    requires Forward(t) && b.start <= b.end
    ensures Forward(Add(t, b))
  {
    hide Find, Compare, Position;
  }

  lemma {:induction false} AllForward(regions: seq<Region>)
    requires Forward(regions)
    ensures Forward(AddAll(regions))
  {
    if |regions| > 0 {
      var n := |regions| - 1;
      AllForward(regions[..n]);
      AddKeepsForward(AddAll(regions[..n]), regions[n]);
    }
  }

  /** Every sector of every region added is found exactly if the table they make has no gap. */
  lemma {:induction false} AddedAreFound(regions: seq<Region>)
    requires Forward(regions)
    ensures (forall p, s: nat :: Covers(regions, p, s) ==> Find(AddAll(regions), Point(p, s)) >= 0)
            <==> Gapless(AddAll(regions))
  {
    hide Find, Gapless, AddAll;
    var t := AddAll(regions);
    AllForward(regions);
    AllFoundIsGapless(t);
    forall p, s: nat
      ensures Covers(t, p, s) <==> Covers(regions, p, s)
    {
      CoveredSet(regions, p, s);
    }
  }

  /** The entries that the search for b probes before it finds t[f] lie apart from b and t[f], so
      from their hull. */
  lemma {:induction false} HullIsReached(t: seq<Region>, b: Region, f: nat, m: nat, p: Region, s: nat)
    requires Sorted(t) && Forward(t) && b.start <= b.end && f == Find(t, b) && m < |t| && Above(0, |t| - 1, m, f)
    requires In(Merge(t[f], b), p, s)
    ensures !SendsAway(t, Point(p, s), m, f) && m != f
  {
    hide Find, Above;
    AboveInRange(0, |t| - 1, m, f);
    FindKeepsCourse(t, b, m);
    assert if m < f then Compare(t[m], t[f]) < 0 else Compare(t[f], t[m]) < 0;
  }

  lemma {:induction false} FindKeepsCourse(t: seq<Region>, b: Region, m: nat)
    requires Find(t, b) >= 0 && m < |t| && Above(0, |t| - 1, m, Find(t, b))
    ensures !SendsAway(t, b, m, Find(t, b)) && Compare(b, t[m]) != 0
  {
    SearchReaches(t, b, 0, |t| - 1);
  }

  /** A single addition to a sorted table loses no lookup, even if it bridges; only a later one,
      which moves the probes, can. */
  lemma OneAdditionLosesNothing(t: seq<Region>, b: Region)
    requires Sorted(t) && Forward(t) && b.start <= b.end
    ensures AllFound(Add(t, b))
  {
    hide Find, Merge, Compare, Above;
    var u, f := Add(t, b), Find(t, b);
    forall p, s: nat | Covers(u, p, s)
      ensures Find(u, Point(p, s)) >= 0
    {
      var key := Point(p, s);
      if f >= 0 {
        if In(u[f], p, s) {
          HullReaches(t, b, p, s);
        } else {
          var k :| 0 <= k < |u| && In(u[k], p, s);
          OtherReaches(t, b, k, p, s);
        }
        FindIsReach(u, key);
      } else {
        var k :| 0 <= k < |u| && In(u[k], p, s);
        AddKeepsOrder(t, b);
        FindComplete(t, b);
        FindComplete(u, key);
        InIsOverlap(u[k], p, s);
      }
    }
  }

  lemma HullReaches(t: seq<Region>, b: Region, p: Region, s: nat)
    requires Sorted(t) && Forward(t) && b.start <= b.end && Find(t, b) >= 0
    requires In(Merge(t[Find(t, b)], b), p, s)
    ensures Reached(Add(t, b), Point(p, s), Find(t, b))
  {
    hide Find, Above, Compare, Merge, In;
    var u, f := Add(t, b), Find(t, b);
    MergeIsForward(t[f], b);
    InIsOverlap(u[f], p, s);
    forall m: nat | m < |t| && Above(0, |t| - 1, m, f)
      ensures !SendsAway(u, Point(p, s), m, f)
    {
      HullIsReached(t, b, f, m, p, s);
    }
  }

  lemma MergeIsForward(a: Region, b: Region)
    requires a.start <= a.end && b.start <= b.end
    ensures Merge(a, b).start <= Merge(a, b).end
  {
  }

  lemma OtherReaches(t: seq<Region>, b: Region, k: nat, p: Region, s: nat)
    requires Sorted(t) && Forward(t) && b.start <= b.end && Find(t, b) >= 0
    requires k < |t| && k != Find(t, b) && In(t[k], p, s) && !In(Merge(t[Find(t, b)], b), p, s)
    ensures Reached(Add(t, b), Point(p, s), k)
  {
    hide Find, Above;
    var u, f := Add(t, b), Find(t, b);
    forall m: nat | m < |t| && Above(0, |t| - 1, m, k)
      ensures !SendsAway(u, Point(p, s), m, k)
    {
      AboveInRange(0, |t| - 1, m, k);
      assert if m < k then Compare(t[m], t[k]) < 0 else Compare(t[k], t[m]) < 0;
    }
  }
}
