/** Where the jumps of remap_block end, on any table of forward regions, sorted or not. */
module SkipJumps {
  import opened SkipMap
  import opened SkipLookups

  // ----- which entry is found ---------------------------------------------------------------

  /** Entry m sends the key to the side of entry f, and does not overlap it. */
  predicate Towards(t: seq<Region>, key: Region, m: nat, f: nat) {
    m < |t| && if f < m then Compare(key, t[m]) < 0 else Compare(key, t[m]) > 0
  }

  /** Entry f overlaps the key, and every entry above it sends the key towards it. */
  predicate First(t: seq<Region>, key: Region, f: nat) {
    && f < |t| && Compare(key, t[f]) == 0
    && forall m: nat :: m < |t| && Above(0, |t| - 1, m, f) ==> Towards(t, key, m, f)
  }

  lemma {:induction false} SearchStops(t: seq<Region>, key: Region, lb: nat, ub: int, f: nat)
    requires lb <= f <= ub < |t| && Compare(key, t[f]) == 0
    requires forall m: nat :: m < |t| && Above(lb, ub, m, f) ==> Towards(t, key, m, f)
    ensures Search(t, key, lb, ub) == f
    decreases ub - lb
  {
    hide Compare;
    var mid := lb + (ub - lb) / 2;
    if f != mid {
      assert Above(lb, ub, mid, f) && Towards(t, key, mid, f);
    }
    if f < mid {
      SearchStops(t, key, lb, mid - 1, f);
    } else if f > mid {
      SearchStops(t, key, mid + 1, ub, f);
    }
  }

  /** The search finds entry f exactly if f is the first that the bisection comes to. */
  lemma FindIsFirst(t: seq<Region>, key: Region, f: nat)
    ensures Find(t, key) == f <==> First(t, key, f)
  {
    hide Compare;
    if Find(t, key) == f {
      SearchReaches(t, key, 0, |t| - 1);
      forall m: nat | m < |t| && Above(0, |t| - 1, m, f)
        ensures Towards(t, key, m, f)
      {
        AboveInRange(0, |t| - 1, m, f);
      }
    }
    if First(t, key, f) {
      SearchStops(t, key, 0, |t| - 1, f);
    }
  }

  /** What is left of r, in an entry below `a`, of the sectors that `a` sends down; and in an entry
      above, of those that it sends up. */
  function CutDown(r: Region, a: Region): Region {
    if ComparePrograms(r, a) < 0 then r
    else if ComparePrograms(r, a) > 0 || a.start == 0 then Nothing(r)
    else if a.start <= r.end then r.(end := a.start - 1)
    else r
  }

  function CutUp(r: Region, a: Region): Region {
    if ComparePrograms(r, a) > 0 then r else if ComparePrograms(r, a) < 0 then Nothing(r)
    else if a.end >= r.start then r.(start := a.end + 1)
    else r
  }

  /** What is left of r, the entry f or a part of it, after the probes from lb and ub on. */
  function Part(t: seq<Region>, lb: nat, ub: int, f: nat, r: Region): Region
    requires lb <= f <= ub < |t|
    decreases ub - lb
  {
    var mid := lb + (ub - lb) / 2;
    if f < mid then Part(t, lb, mid - 1, f, CutDown(r, t[mid]))
    else if f > mid then Part(t, mid + 1, ub, f, CutUp(r, t[mid]))
    else r
  }

  lemma CutsPart(r: Region, a: Region, p: Region, s: nat)
    requires a.start <= a.end
    ensures In(CutDown(r, a), p, s) <==> In(r, p, s) && Compare(Point(p, s), a) < 0
    ensures In(CutUp(r, a), p, s) <==> In(r, p, s) && Compare(Point(p, s), a) > 0
  {
  }

  lemma {:induction false} PartIs(t: seq<Region>, lb: nat, ub: int, f: nat, r: Region, p: Region, s: nat)
    requires Forward(t) && lb <= f <= ub < |t|
    ensures In(Part(t, lb, ub, f, r), p, s) <==>
            In(r, p, s) && forall m: nat :: m < |t| && Above(lb, ub, m, f) ==> Towards(t, Point(p, s), m, f)
    decreases ub - lb
  {
    hide In, Compare, CutDown, CutUp;
    var mid := lb + (ub - lb) / 2;
    CutsPart(r, t[mid], p, s);
    if f < mid {
      assert Above(lb, ub, mid, f) && (Towards(t, Point(p, s), mid, f) <==> Compare(Point(p, s), t[mid]) < 0);
      assert forall m: nat :: Above(lb, ub, m, f) <==> m == mid || Above(lb, mid - 1, m, f);
      PartIs(t, lb, mid - 1, f, CutDown(r, t[mid]), p, s);
    } else if f > mid {
      assert Above(lb, ub, mid, f) && (Towards(t, Point(p, s), mid, f) <==> Compare(Point(p, s), t[mid]) > 0);
      assert forall m: nat :: Above(lb, ub, m, f) <==> m == mid || Above(mid + 1, ub, m, f);
      PartIs(t, mid + 1, ub, f, CutUp(r, t[mid]), p, s);
    }
  }

  /** The sectors for which lookups find entry f. */
  function Own(t: seq<Region>, f: nat): Region
    requires f < |t|
  {
    Part(t, 0, |t| - 1, f, t[f])
  }

  /** A lookup finds entry f exactly for these. */
  lemma FindIsOwn(t: seq<Region>, p: Region, s: nat, f: nat)
    requires Forward(t) && f < |t|
    ensures Find(t, Point(p, s)) == f <==> In(Own(t, f), p, s)
  {
    hide In, Compare, Find, Part;
    FindIsFirst(t, Point(p, s), f);
    InIsOverlap(t[f], p, s);
    PartIs(t, 0, |t| - 1, f, t[f], p, s);
  }

  // ----- jumps ------------------------------------------------------------------------------

  /** Where a jump to sector x of a program ends. */
  function Target(t: seq<Region>, p: Region, x: nat): nat {
    var f := Find(t, Point(p, x));
    if f >= 0 then t[f].end else x
  }

  lemma RemapIsTarget(t: seq<Region>, domain: int, title: int, program: int, cblock: int, offset: int)
    requires cblock + offset >= 0
    ensures cblock + Remap(t, domain, title, program, cblock, offset)
            == Target(t, Region(domain, title, program, 0, 0), cblock + offset)
  {
  }

  lemma TargetIs(t: seq<Region>, p: Region, x: nat)
    requires Forward(t)
    ensures var f := Find(t, Point(p, x));
            if f >= 0 then Target(t, p, x) == t[f].end && In(Own(t, f), p, x) && In(t[f], p, x)
            else Target(t, p, x) == x && !Covers(Windows(t), p, x)
  {
    hide Find, Own, Windows;
    var f := Find(t, Point(p, x));
    FindIsWindow(t, p, x);
    if f >= 0 {
      FindIsOwn(t, p, x, f);
      InIsOverlap(t[f], p, x);
    }
  }

  /** Some jump ends at the end of entry f. */
  predicate Used(t: seq<Region>, f: nat)
    requires f < |t|
  {
    Own(t, f).start <= Own(t, f).end
  }

  lemma UsedBy(t: seq<Region>, f: nat)
    requires Forward(t) && f < |t| && Used(t, f)
    ensures var s := Own(t, f).start;
            In(t[f], t[f], s) && Find(t, Point(t[f], s)) == f && Target(t, t[f], s) == t[f].end
  {
    hide Find, Own, Compare;
    var own := Own(t, f);
    FindIsOwn(t, own, own.start, f);
    InIsOverlap(t[f], own, own.start);
    assert Point(own, own.start) == Point(t[f], own.start);
  }

  /** Every sector of the regions r but the last of each is found: a finite check. */
  predicate FilledInside(t: seq<Region>, r: seq<Region>) {
    forall k :: 0 <= k < |r| && r[k].start < r[k].end ==> Fills(Windows(t), r[k].(end := r[k].end - 1))
  }

  lemma FilledMeans(t: seq<Region>, r: seq<Region>)
    ensures FilledInside(t, r) <==>
            forall k, p, s: nat :: 0 <= k < |r| && In(r[k], p, s) && s != r[k].end ==> Covers(Windows(t), p, s)
  {
    hide Windows, Covers, Fills;
    forall k | 0 <= k < |r| && r[k].start < r[k].end
      ensures Fills(Windows(t), r[k].(end := r[k].end - 1)) <==>
              forall p, s: nat :: In(r[k], p, s) && s != r[k].end ==> Covers(Windows(t), p, s)
    {
      var q := r[k].(end := r[k].end - 1);
      FillsIsCover(Windows(t), q);
      assert forall p, s: nat :: In(q, p, s) <==> In(r[k], p, s) && s != r[k].end;
    }
  }

  // ----- landing only at ends ---------------------------------------------------------------

  /** No jump ends in one of the regions r but at its last sector. */
  ghost predicate LandsAtEnds(t: seq<Region>, r: seq<Region>) {
    forall p, x: nat, k :: 0 <= k < |r| && In(r[k], p, Target(t, p, x)) ==> Target(t, p, x) == r[k].end
  }

  /** Where an entry that is used ends, the regions that reach there end too. */
  predicate EndsShut(t: seq<Region>, r: seq<Region>) {
    forall f, k :: 0 <= f < |t| && Used(t, f) && 0 <= k < |r| && In(r[k], t[f], t[f].end) ==> r[k].end == t[f].end
  }

  lemma SameIn(r: Region, p: Region, q: Region, s: nat)
    requires ComparePrograms(p, q) == 0
    ensures In(r, p, s) <==> In(r, q, s)
  {
  }

  lemma LandingOne(t: seq<Region>, r: seq<Region>, p: Region, x: nat, k: nat)
    requires Forward(t) && EndsShut(t, r) && FilledInside(t, r) && k < |r| && In(r[k], p, Target(t, p, x))
    ensures Target(t, p, x) == r[k].end
  {
    hide Find, Target, Windows, Own, Fills;
    TargetIs(t, p, x);
    FilledMeans(t, r);
    var f := Find(t, Point(p, x));
    if f >= 0 {
      SameIn(r[k], p, t[f], t[f].end);
      assert Used(t, f);
    }
  }

  /** Jumps land only at ends of the regions exactly if both finite checks hold. */
  lemma LandsAtEndsIff(t: seq<Region>, r: seq<Region>)
    requires Forward(t)
    ensures LandsAtEnds(t, r) <==> EndsShut(t, r) && FilledInside(t, r)
  {
    hide Find, Target, Windows, Own, Used, In;
    if EndsShut(t, r) && FilledInside(t, r) {
      forall p, x: nat, k | 0 <= k < |r| && In(r[k], p, Target(t, p, x))
        ensures Target(t, p, x) == r[k].end
      {
        LandingOne(t, r, p, x, k);
      }
    }
    if LandsAtEnds(t, r) {
      forall f, k | 0 <= f < |t| && Used(t, f) && 0 <= k < |r| && In(r[k], t[f], t[f].end)
        ensures r[k].end == t[f].end
      {
        UsedBy(t, f);
        assert In(r[k], t[f], Target(t, t[f], Own(t, f).start));
      }
      forall k, p, s: nat | 0 <= k < |r| && In(r[k], p, s) && s != r[k].end
        ensures Covers(Windows(t), p, s)
      {
        TargetIs(t, p, s);
        FindIsWindow(t, p, s);
      }
      FilledMeans(t, r);
    }
  }

  // ----- skipping the regions ---------------------------------------------------------------

  /** Every jump into one of the regions r is moved to its end or beyond. */
  ghost predicate Skips(t: seq<Region>, r: seq<Region>) {
    forall p, x: nat, k :: 0 <= k < |r| && In(r[k], p, x) ==> Target(t, p, x) >= r[k].end
  }

  predicate Meets(a: Region, b: Region) {
    ComparePrograms(a, b) == 0 && a.start <= a.end && b.start <= b.end && a.start <= b.end && b.start <= a.end
  }

  /** The entry that is found for a sector of a region reaches as far as the region. */
  predicate Outreaches(t: seq<Region>, r: seq<Region>) {
    forall f, k :: 0 <= f < |t| && 0 <= k < |r| && Meets(Own(t, f), r[k]) ==> t[f].end >= r[k].end
  }

  lemma MeetsAt(a: Region, b: Region)
    ensures Meets(a, b) ==>
              var s := if a.start < b.start then b.start else a.start;
              In(a, a, s) && In(b, a, s)
    ensures forall p, s: nat :: In(a, p, s) && In(b, p, s) ==> Meets(a, b)
  {
  }

  lemma SkipsIff(t: seq<Region>, r: seq<Region>)
    requires Forward(t)
    ensures Skips(t, r) <==> Outreaches(t, r) && FilledInside(t, r)
  {
    hide Find, Target, Windows, Own, In, Meets;
    FilledMeans(t, r);
    if Outreaches(t, r) && FilledInside(t, r) {
      forall p, x: nat, k | 0 <= k < |r| && In(r[k], p, x)
        ensures Target(t, p, x) >= r[k].end
      {
        TargetIs(t, p, x);
        var f := Find(t, Point(p, x));
        if f >= 0 {
          MeetsAt(Own(t, f), r[k]);
        }
      }
    }
    if Skips(t, r) {
      forall f, k | 0 <= f < |t| && 0 <= k < |r| && Meets(Own(t, f), r[k])
        ensures t[f].end >= r[k].end
      {
        var a := Own(t, f);
        MeetsAt(a, r[k]);
        var s := if a.start < r[k].start then r[k].start else a.start;
        FindIsOwn(t, a, s, f);
        TargetIs(t, a, s);
      }
      forall k, p, s: nat | 0 <= k < |r| && In(r[k], p, s) && s != r[k].end
        ensures Covers(Windows(t), p, s)
      {
        TargetIs(t, p, s);
        FindIsWindow(t, p, s);
        InMeans(r[k], p, s);
      }
    }
  }

  // ----- settling ---------------------------------------------------------------------------

  /** Moving a jump a second time changes nothing. */
  ghost predicate Settles(t: seq<Region>) {
    forall p, x: nat :: Target(t, p, Target(t, p, x)) == Target(t, p, x)
  }

  lemma SettlesIff(t: seq<Region>)
    requires Forward(t)
    ensures Settles(t) <==> forall f :: 0 <= f < |t| && Used(t, f) ==> Target(t, t[f], t[f].end) == t[f].end
  {
    hide Find, Target, Windows, Own, In;
    if Settles(t) {
      forall f | 0 <= f < |t| && Used(t, f)
        ensures Target(t, t[f], t[f].end) == t[f].end
      {
        UsedBy(t, f);
        assert Target(t, t[f], Target(t, t[f], Own(t, f).start)) == Target(t, t[f], Own(t, f).start);
      }
    }
    if forall f :: 0 <= f < |t| && Used(t, f) ==> Target(t, t[f], t[f].end) == t[f].end {
      forall p, x: nat
        ensures Target(t, p, Target(t, p, x)) == Target(t, p, x)
      {
        SettlesOne(t, p, x);
      }
    }
  }

  lemma SettlesOne(t: seq<Region>, p: Region, x: nat)
    requires Forward(t) && forall f :: 0 <= f < |t| && Used(t, f) ==> Target(t, t[f], t[f].end) == t[f].end
    ensures Target(t, p, Target(t, p, x)) == Target(t, p, x)
  {
    hide Find, Target, Windows, Own;
    TargetIs(t, p, x);
    var f := Find(t, Point(p, x));
    if f >= 0 {
      assert Used(t, f);
      SameTarget(t, p, t[f], t[f].end);
    }
  }

  lemma SameTarget(t: seq<Region>, p: Region, q: Region, x: nat)
    requires ComparePrograms(p, q) == 0
    ensures Target(t, p, x) == Target(t, q, x)
  {
    assert Point(p, x) == Point(q, x);
  }

  // ----- map files --------------------------------------------------------------------------

  /** What a map file promises, on the table that its regions make: no jump ends in a region of the
      file but at its last sector exactly if the first two checks hold, and every jump into a region
      is moved to its end or beyond exactly if the last two do. */
  lemma {:induction false} FileIff(regions: seq<Region>)
    requires Forward(regions)
    ensures var t := AddAll(regions);
            && (LandsAtEnds(t, regions) <==> EndsShut(t, regions) && FilledInside(t, regions))
            && (Skips(t, regions) <==> Outreaches(t, regions) && FilledInside(t, regions))
  {
    hide LandsAtEnds, EndsShut, FilledInside, Skips, Outreaches, AddAll;
    AllForward(regions);
    LandsAtEndsIff(AddAll(regions), regions);
    SkipsIff(AddAll(regions), regions);
  }

  /** On any table a jump into a window is moved to the end of an entry that it falls in, and any
      other jump is not moved. */
  lemma RemapByWindow(t: seq<Region>, domain: int, title: int, program: int, cblock: int, offset: int)
    requires Forward(t) && cblock + offset >= 0
    ensures var p := Region(domain, title, program, 0, 0);
            var moved := Remap(t, domain, title, program, cblock, offset);
            if Covers(Windows(t), p, cblock + offset)
            then exists i :: 0 <= i < |t| && In(t[i], p, cblock + offset) && cblock + moved == t[i].end
            else moved == offset
  {
    hide Find, Windows;
    var p := Region(domain, title, program, 0, 0);
    FindIsWindow(t, p, cblock + offset);
    var f := Find(t, Point(p, cblock + offset));
    if f >= 0 {
      InIsOverlap(t[f], p, cblock + offset);
    }
  }

  /** On a bridged table a jump can land in the middle of an entry: over 20 to 30 and 40 to 50 an
      addition of 25 to 45 extends the first alone, and a jump to 42 ends at 45. */
  lemma BridgedJumpLandsInside()
    ensures var t := AddAll([Region(2, 1, 1, 0, 1), Region(2, 1, 1, 20, 30), Region(2, 1, 1, 40, 50),
                             Region(2, 1, 1, 25, 45)]);
            && Remap(t, 2, 1, 1, 42, 0) == 3
            && exists i :: 0 <= i < |t| && t[i] == Region(2, 1, 1, 40, 50)
  {
    var a, b, c, d := Region(2, 1, 1, 0, 1), Region(2, 1, 1, 20, 30), Region(2, 1, 1, 40, 50),
                      Region(2, 1, 1, 25, 45);
    assert [a, b, c, d][..3] == [a, b, c] && [a, b, c][..2] == [a, b] && [a, b][..1] == [a] && [a][..0] == [];
    assert AddAll([a]) == [a];
    assert Find([a], b) == -1;
    assert AddAll([a, b]) == [a, b];
    assert Find([a, b], c) == -1 by {
      assert Search([a, b], c, 1, 1) == -1;
    }
    assert AddAll([a, b, c]) == [a, b, c];
    assert Find([a, b, c], d) == 1;
    var t := AddAll([a, b, c, d]);
    assert t == [a, Region(2, 1, 1, 20, 45), c];
    assert Find(t, Region(2, 1, 1, 42, 42)) == 1;
    assert t[2] == c;
  }

  /** On a bridged table a jump can move twice: over 0 to 1 and 20 to 30 an addition of 0 to 25 extends
      the first, and after 40 to 50 bisection starts at the second. A jump to 5 ends at 25, and one to
      25 at 30. */
  lemma BridgedJumpMovesTwice()
    ensures var t := AddAll([Region(2, 1, 1, 0, 1), Region(2, 1, 1, 20, 30), Region(2, 1, 1, 0, 25),
                             Region(2, 1, 1, 40, 50)]);
            Remap(t, 2, 1, 1, 5, 0) == 20 && Remap(t, 2, 1, 1, 5, 20) == 25
  {
    var a, b, c, d := Region(2, 1, 1, 0, 1), Region(2, 1, 1, 20, 30), Region(2, 1, 1, 0, 25),
                      Region(2, 1, 1, 40, 50);
    assert [a, b, c, d][..3] == [a, b, c] && [a, b, c][..2] == [a, b] && [a, b][..1] == [a] && [a][..0] == [];
    assert AddAll([a]) == [a];
    assert Find([a], b) == -1;
    assert AddAll([a, b]) == [a, b];
    assert Find([a, b], c) == 0;
    assert AddAll([a, b, c]) == [c, b];
    assert Find([c, b], d) == -1 by {
      assert Search([c, b], d, 1, 1) == -1;
    }
    var t := AddAll([a, b, c, d]);
    assert t == [c, b, d];
    assert Find(t, Region(2, 1, 1, 5, 5)) == 0 by {
      assert Search(t, Region(2, 1, 1, 5, 5), 0, 0) == 0;
    }
    assert Find(t, Region(2, 1, 1, 25, 25)) == 1;
  }
}
