/** The skip map of remap.c: a table of regions searched by overlap, grown by merging and insertion,
    and used to move the target of a jump to the end of the region it falls in. */
module SkipMap {

  /** struct block_s: the sectors start to end, both included, of a program. */
  datatype Region = Region(domain: int, title: int, program: int, start: nat, end: nat)

  /** compare_block: negative if a precedes b, positive if a follows b, zero if they overlap. */
  function Compare(a: Region, b: Region): int {
    if a.domain < b.domain then -1 else if a.domain > b.domain then 1
    else if a.title < b.title then -1 else if a.title > b.title then 1
    else if a.program < b.program then -1 else if a.program > b.program then 1
    else if a.end < b.start then -1 else if a.start > b.end then 1
    else 0
  }

  /** The sector s of the program that p names lies in r. */
  predicate In(r: Region, p: Region, s: nat) {
    r.domain == p.domain && r.title == p.title && r.program == p.program && r.start <= s <= r.end
  }

  predicate Covers(t: seq<Region>, p: Region, s: nat) {
    exists i :: 0 <= i < |t| && In(t[i], p, s)
  }

  // ----- what the operations do to the table ------------------------------------------------

  /** findblock on the entries lb to ub: the index of an entry that overlaps the key, or -1. */
  function Search(t: seq<Region>, key: Region, lb: int, ub: int): (r: int)
    requires 0 <= lb && ub < |t|
    ensures r == -1 || (lb <= r <= ub && Compare(key, t[r]) == 0)
    decreases ub - lb
  {
    if lb > ub then -1
    else
      var mid := lb + (ub - lb) / 2;
      var res := Compare(key, t[mid]);
      if res < 0 then Search(t, key, lb, mid - 1)
      else if res > 0 then Search(t, key, mid + 1, ub)
      else mid
  }

  lemma SearchNarrows(t: seq<Region>, key: Region, lb: int, ub: int)
    requires 0 <= lb && ub < |t|
    ensures Search(t, key, lb, ub) ==
            if lb > ub then -1
            else
              var mid := lb + (ub - lb) / 2;
              if Compare(key, t[mid]) < 0 then Search(t, key, lb, mid - 1)
              else if Compare(key, t[mid]) > 0 then Search(t, key, mid + 1, ub)
              else mid
  {
  }

  function Find(t: seq<Region>, key: Region): (r: int)
    ensures -1 <= r < |t| && (r >= 0 ==> Compare(key, t[r]) == 0)
  {
    Search(t, key, 0, |t| - 1)
  }

  function Merge(b: Region, tmp: Region): Region {
    b.(start := if tmp.start < b.start then tmp.start else b.start,
       end := if tmp.end > b.end then tmp.end else b.end)
  }

  /** Where a new region goes: below the entries at the end of the first n that it precedes. */
  function Position(t: seq<Region>, b: Region, n: nat): (p: nat)
    requires n <= |t|
    ensures p <= n
  {
    if n > 0 && Compare(b, t[n - 1]) < 0 then Position(t, b, n - 1) else n
  }

  lemma {:induction false} PositionSplits(t: seq<Region>, b: Region, n: nat)
    requires n <= |t|
    ensures var p := Position(t, b, n);
            (forall i :: p <= i < n ==> Compare(b, t[i]) < 0) && (p > 0 ==> Compare(b, t[p - 1]) >= 0)
  {
    if n > 0 && Compare(b, t[n - 1]) < 0 {
      PositionSplits(t, b, n - 1);
    }
  }

  function Insert(t: seq<Region>, b: Region): seq<Region> {
    var p := Position(t, b, |t|);
    t[..p] + [b] + t[p..]
  }

  function Add(t: seq<Region>, b: Region): seq<Region> {
    var i := Find(t, b);
    if i >= 0 then t[i := Merge(t[i], b)] else Insert(t, b)
  }

  function AddAll(regions: seq<Region>): seq<Region> {
    if |regions| == 0 then [] else Add(AddAll(regions[..|regions| - 1]), regions[|regions| - 1])
  }

  /** remap_block: the offset from cblock to jump by, instead of the given one. */
  function Remap(t: seq<Region>, domain: int, title: int, program: int, cblock: int, offset: int): int
    requires cblock + offset >= 0
  {
    var i := Find(t, Region(domain, title, program, cblock + offset, cblock + offset));
    if i >= 0 then t[i].end - cblock else offset
  }

  // ----- the covered set --------------------------------------------------------------------

  /** Merging with an overlapping region adds just that region's sectors, even if one of the two
      has its ends the wrong way round and so covers nothing. */
  lemma MergeCovers(b: Region, tmp: Region, p: Region, s: nat)
    requires Compare(tmp, b) == 0
    ensures In(Merge(b, tmp), p, s) <==> In(b, p, s) || In(tmp, p, s)
  {
  }

  lemma CoversConcat(t: seq<Region>, u: seq<Region>, p: Region, s: nat)
    ensures Covers(t + u, p, s) <==> Covers(t, p, s) || Covers(u, p, s)
  {
    hide In;
    assert forall i :: 0 <= i < |t| ==> (t + u)[i] == t[i];
    assert forall i :: 0 <= i < |u| ==> (t + u)[|t| + i] == u[i];
  }

  lemma CoversOne(b: Region, p: Region, s: nat)
    ensures Covers([b], p, s) <==> In(b, p, s)
  {
    assert In(b, p, s) ==> In([b][0], p, s);
  }

  /** Putting b into the table at some place, or in place of an entry c. */
  lemma CoversAround(front: seq<Region>, b: Region, back: seq<Region>, p: Region, s: nat)
    ensures Covers(front + [b] + back, p, s) <==> Covers(front, p, s) || In(b, p, s) || Covers(back, p, s)
  {
    CoversConcat(front + [b], back, p, s);
    CoversConcat(front, [b], p, s);
    CoversOne(b, p, s);
  }

  lemma AddCovers(t: seq<Region>, b: Region, p: Region, s: nat)
    ensures Covers(Add(t, b), p, s) <==> Covers(t, p, s) || In(b, p, s)
  {
    hide Covers, In;
    var f := Find(t, b);
    if f >= 0 {
      var m := Merge(t[f], b);
      MergeCovers(t[f], b, p, s);
      assert t == t[..f] + [t[f]] + t[f + 1..] && t[f := m] == t[..f] + [m] + t[f + 1..];
      CoversAround(t[..f], t[f], t[f + 1..], p, s);
      CoversAround(t[..f], m, t[f + 1..], p, s);
    } else {
      var q := Position(t, b, |t|);
      assert t == t[..q] + t[q..];
      CoversConcat(t[..q], t[q..], p, s);
      CoversAround(t[..q], b, t[q..], p, s);
    }
  }

  /** For every sequence of additions, the table covers the union of the regions added. */
  lemma {:induction false} CoveredSet(regions: seq<Region>, p: Region, s: nat)
    ensures Covers(AddAll(regions), p, s) <==> Covers(regions, p, s)
  {
    if |regions| > 0 {
      var n := |regions| - 1;
      CoveredSet(regions[..n], p, s);
      AddCovers(AddAll(regions[..n]), regions[n], p, s);
      assert Covers(regions, p, s) <==> Covers(regions[..n], p, s) || In(regions[n], p, s) by {
        assert forall i :: 0 <= i < n ==> regions[..n][i] == regions[i];
      }
    }
  }

  // ----- order ------------------------------------------------------------------------------

  predicate Forward(t: seq<Region>) {
    forall i :: 0 <= i < |t| ==> t[i].start <= t[i].end
  }

  /** Sorted and pairwise disjoint. */
  predicate Sorted(t: seq<Region>) {
    forall i, j :: 0 <= i < j < |t| ==> Compare(t[i], t[j]) < 0
  }

  predicate TouchesAtMostOne(t: seq<Region>, b: Region) {
    forall i, j :: 0 <= i < |t| && 0 <= j < |t| && Compare(b, t[i]) == 0 && Compare(b, t[j]) == 0 ==> i == j
  }

  /** Comparing the key with the entry at mid tells on which side an entry k it overlaps is. */
  lemma Decides(t: seq<Region>, key: Region, mid: nat, k: nat)
    requires Sorted(t) && Forward(t) && key.start <= key.end
    requires mid < |t| && k < |t| && Compare(key, t[k]) == 0
    ensures Compare(key, t[mid]) < 0 ==> k < mid
    ensures Compare(key, t[mid]) > 0 ==> k > mid
  {
    assert k < mid ==> Compare(t[k], t[mid]) < 0;
    assert k > mid ==> Compare(t[mid], t[k]) < 0;
  }

  lemma {:induction false} SearchComplete(t: seq<Region>, key: Region, lb: int, ub: int, k: int)
    requires Sorted(t) && Forward(t) && key.start <= key.end
    requires 0 <= lb <= k <= ub < |t| && Compare(key, t[k]) == 0
    ensures Search(t, key, lb, ub) >= 0
    decreases ub - lb
  {
    hide Compare, Sorted, Forward;
    var mid := lb + (ub - lb) / 2;
    Decides(t, key, mid, k);
    if Compare(key, t[mid]) < 0 {
      SearchComplete(t, key, lb, mid - 1, k);
    } else if Compare(key, t[mid]) > 0 {
      SearchComplete(t, key, mid + 1, ub, k);
    }
  }

  /** On a sorted table the binary search finds an overlapping region whenever there is one. */
  lemma FindComplete(t: seq<Region>, key: Region)
    requires Sorted(t) && Forward(t) && key.start <= key.end
    ensures Find(t, key) >= 0 <==> exists k :: 0 <= k < |t| && Compare(key, t[k]) == 0
  {
    if k :| 0 <= k < |t| && Compare(key, t[k]) == 0 {
      SearchComplete(t, key, 0, |t| - 1, k);
    }
  }

  lemma Opposite(a: Region, b: Region)
    requires a.start <= a.end && b.start <= b.end
    ensures Compare(a, b) > 0 <==> Compare(b, a) < 0
  {
  }

  lemma Transitive(a: Region, b: Region, c: Region)
    requires b.start <= b.end && Compare(a, b) < 0 && Compare(b, c) < 0
    ensures Compare(a, c) < 0
  {
  }

  lemma InsertKeepsOrder(t: seq<Region>, b: Region)
    requires Sorted(t) && Forward(t) && b.start <= b.end
    requires forall k :: 0 <= k < |t| ==> Compare(b, t[k]) != 0
    ensures Sorted(Insert(t, b)) && Forward(Insert(t, b))
  {
    hide Compare;
    var u, q := Insert(t, b), Position(t, b, |t|);
    PositionSplits(t, b, |t|);
    forall i | 0 <= i < q
      ensures Compare(t[i], b) < 0
    {
      Opposite(b, t[q - 1]);
      if i < q - 1 {
        Transitive(t[i], t[q - 1], b);
      }
    }
    assert forall i :: 0 <= i < q ==> u[i] == t[i];
    assert forall i :: q < i < |u| ==> u[i] == t[i - 1];
  }

  lemma MergeKeepsOrder(t: seq<Region>, b: Region, f: nat)
    requires Sorted(t) && Forward(t) && b.start <= b.end
    requires f < |t| && Compare(b, t[f]) == 0
    ensures Forward(t[f := Merge(t[f], b)])
    ensures Sorted(t[f := Merge(t[f], b)]) <==> TouchesAtMostOne(t, b)
  {
    var u := t[f := Merge(t[f], b)];
    if TouchesAtMostOne(t, b) {
      forall i, j | 0 <= i < j < |u|
        ensures Compare(u[i], u[j]) < 0
      {
        assert Compare(t[i], t[j]) < 0;
        assert i != f ==> Compare(b, t[i]) != 0;
        assert j != f ==> Compare(b, t[j]) != 0;
      }
    } else {
      var i :| 0 <= i < |t| && i != f && Compare(b, t[i]) == 0;
      assert Compare(u[i], u[f]) == 0 && Compare(u[f], u[i]) == 0;
    }
  }

  /** Adding to a sorted table leaves it sorted exactly when the new region touches at most one
      of the stored ones. */
  lemma AddKeepsOrder(t: seq<Region>, b: Region)
    requires Sorted(t) && Forward(t) && b.start <= b.end
    ensures Forward(Add(t, b))
    ensures Sorted(Add(t, b)) <==> TouchesAtMostOne(t, b)
  {
    FindComplete(t, b);
    if Find(t, b) >= 0 {
      MergeKeepsOrder(t, b, Find(t, b));
    } else {
      InsertKeepsOrder(t, b);
    }
  }

  /** The table is sorted after every one of the additions. */
  predicate SortedThroughout(regions: seq<Region>) {
    |regions| == 0 || (SortedThroughout(regions[..|regions| - 1]) && Sorted(AddAll(regions)))
  }

  /** Every addition touches at most one region stored before it. */
  predicate NeverBridges(regions: seq<Region>) {
    var n := |regions| - 1;
    |regions| == 0 || (NeverBridges(regions[..n]) && TouchesAtMostOne(AddAll(regions[..n]), regions[n]))
  }

  lemma {:induction false} AlwaysSorted(regions: seq<Region>)
    requires Forward(regions)
    ensures SortedThroughout(regions) <==> NeverBridges(regions)
    ensures SortedThroughout(regions) ==> Sorted(AddAll(regions)) && Forward(AddAll(regions))
  {
    if |regions| > 0 {
      var n := |regions| - 1;
      AlwaysSorted(regions[..n]);
      if SortedThroughout(regions[..n]) {
        AddKeepsOrder(AddAll(regions[..n]), regions[n]);
      }
    }
  }

  /** An addition over two stored regions leaves one entry inside another, and after one more addition
      a lookup misses a sector that the table covers. */
  lemma BridgingAdditionLosesSectors()
    ensures var t := AddAll([Region(2, 1, 1, 0, 1), Region(2, 1, 1, 20, 30), Region(2, 1, 1, 0, 100),
                             Region(2, 1, 1, 200, 201)]);
            var p := Region(2, 1, 1, 50, 50);
            !Sorted(t) && Covers(t, p, 50) && Find(t, p) == -1
  {
    var a, b, c, d := Region(2, 1, 1, 0, 1), Region(2, 1, 1, 20, 30), Region(2, 1, 1, 0, 100),
                      Region(2, 1, 1, 200, 201);
    var p := Region(2, 1, 1, 50, 50);
    assert [a, b, c, d][..3] == [a, b, c] && [a, b, c][..2] == [a, b] && [a, b][..1] == [a] && [a][..0] == [];
    assert AddAll([a]) == [a];
    assert Find([a], b) == -1;
    assert AddAll([a, b]) == [a, b];
    assert Find([a, b], c) == 0;
    assert AddAll([a, b, c]) == [c, b];
    assert Find([c, b], d) == -1 by {
      assert Search([c, b], d, 1, 1) == -1;
    }
    var t := AddAll([a, b, c, d]);
    assert t == [c, b, d];
    assert In(t[0], p, 50);
    assert Search(t, p, 2, 2) == -1;
  }

  // ----- jumping ----------------------------------------------------------------------------

  lemma SortedIsDisjoint(t: seq<Region>, i: nat, j: nat, p: Region, s: nat)
    requires Sorted(t) && i < |t| && j < |t| && In(t[i], p, s) && In(t[j], p, s)
    ensures i == j
  {
  }

  /** On any table, in whatever order, a jump never goes back. */
  lemma RemapForward(t: seq<Region>, domain: int, title: int, program: int, cblock: int, offset: int)
    requires cblock + offset >= 0
    ensures Remap(t, domain, title, program, cblock, offset) >= offset
  {
  }

  /** With a sorted table, a jump is moved to the end of the region it falls in, and otherwise not
      at all; so it never goes back, and it ends in a skip region only at its last sector. */
  lemma RemapTarget(t: seq<Region>, domain: int, title: int, program: int, cblock: int, offset: int)
    requires Sorted(t) && Forward(t) && cblock + offset >= 0
    ensures var p := Region(domain, title, program, 0, 0);
            var moved := Remap(t, domain, title, program, cblock, offset);
            && moved >= offset
            && (forall i :: 0 <= i < |t| && In(t[i], p, cblock + offset) ==> cblock + moved == t[i].end)
            && (forall i :: 0 <= i < |t| && In(t[i], p, cblock + moved) ==> cblock + moved == t[i].end)
            && (!Covers(t, p, cblock + offset) ==> moved == offset)
  {
    var p := Region(domain, title, program, 0, 0);
    var key := Region(domain, title, program, cblock + offset, cblock + offset);
    FindComplete(t, key);
    var f := Find(t, key);
    forall i | 0 <= i < |t| && In(t[i], p, cblock + offset)
      ensures f == i
    {
      assert Compare(key, t[i]) == 0;
      SortedIsDisjoint(t, i, f, p, cblock + offset);
    }
    if f >= 0 {
      forall i | 0 <= i < |t| && In(t[i], p, t[f].end)
        ensures f == i
      {
        SortedIsDisjoint(t, i, f, p, t[f].end);
      }
    }
  }

  /** Moving a jump a second time changes nothing. */
  lemma RemapIdempotent(t: seq<Region>, domain: int, title: int, program: int, cblock: int, offset: int)
    requires Sorted(t) && Forward(t) && cblock + offset >= 0
    ensures var moved := Remap(t, domain, title, program, cblock, offset);
            cblock + moved >= 0 && Remap(t, domain, title, program, cblock, moved) == moved
  {
    hide Remap;
    var p := Region(domain, title, program, 0, 0);
    RemapTarget(t, domain, title, program, cblock, offset);
    var moved := Remap(t, domain, title, program, cblock, offset);
    RemapTarget(t, domain, title, program, cblock, moved);
    if i :| 0 <= i < |t| && In(t[i], p, cblock + moved) {
    }
  }

  /** Every sector of a lies in r. */
  predicate Inside(a: Region, r: Region) {
    a.domain == r.domain && a.title == r.title && a.program == r.program && r.start <= a.start && a.end <= r.end
  }

  predicate InsideOne(t: seq<Region>, a: Region) {
    exists i :: 0 <= i < |t| && Inside(a, t[i])
  }

  lemma AddKeepsInside(t: seq<Region>, b: Region, a: Region)
    ensures InsideOne(t, a) ==> InsideOne(Add(t, b), a)
    ensures InsideOne(Add(t, b), b)
  {
    var u, f, q := Add(t, b), Find(t, b), Position(t, b, |t|);
    if f >= 0 {
      assert Inside(b, u[f]);
    } else {
      assert Inside(b, u[q]);
    }
    if i :| 0 <= i < |t| && Inside(a, t[i]) {
      assert Inside(a, u[if f >= 0 || i < q then i else i + 1]);
    }
  }

  lemma {:induction false} AddedAreInside(regions: seq<Region>, k: nat)
    requires k < |regions|
    ensures InsideOne(AddAll(regions), regions[k])
  {
    var n := |regions| - 1;
    if k < n {
      AddedAreInside(regions[..n], k);
    }
    AddKeepsInside(AddAll(regions[..n]), regions[n], regions[k]);
  }

  /** What a map file promises: if no region in it bridges two earlier ones, a jump into any region
      of the file is moved to or past that region's end, and the sector it is moved to lies in no
      region of the file, except as its last sector. */
  lemma {:induction false} MapFileSkips(regions: seq<Region>, k: nat, domain: int, title: int, program: int,
                                        cblock: int, offset: int)
    requires Forward(regions) && NeverBridges(regions) && cblock + offset >= 0 && k < |regions|
    ensures var p := Region(domain, title, program, 0, 0);
            var target := cblock + Remap(AddAll(regions), domain, title, program, cblock, offset);
            && target >= cblock + offset
            && (In(regions[k], p, cblock + offset) ==> target >= regions[k].end)
            && (In(regions[k], p, target) ==> target == regions[k].end)
            && (target != cblock + offset ==> Covers(regions, p, cblock + offset))
  {
    hide Remap, Sorted, Find, AddAll;
    var p := Region(domain, title, program, 0, 0);
    var t := AddAll(regions);
    AlwaysSorted(regions);
    AddedAreInside(regions, k);
    RemapTarget(t, domain, title, program, cblock, offset);
    CoveredSet(regions, p, cblock + offset);
    var i :| 0 <= i < |t| && Inside(regions[k], t[i]);
    var target := cblock + Remap(t, domain, title, program, cblock, offset);
    assert In(regions[k], p, target) ==> In(t[i], p, target);
    assert In(regions[k], p, cblock + offset) ==> In(t[i], p, cblock + offset);
  }

  // ----- the table in memory ----------------------------------------------------------------

  /** struct remap_s. */
  class Table {
    var blocks: array<Region>
    var nblocks: nat

    ghost predicate Valid()
      reads this
    {
      nblocks <= blocks.Length
    }

    ghost function Contents(): seq<Region>
      requires Valid()
      reads this, blocks
    {
      blocks[..nblocks]
    }

    /** remap_new. */
    constructor ()
      ensures Valid() && Contents() == [] && fresh(blocks)
    {
      blocks := new Region[0];
      nblocks := 0;
    }

    /** findblock; the index stands for the pointer, and -1 for NULL. */
    method FindBlock(key: Region) returns (r: int)
      requires Valid()
      ensures r == Find(Contents(), key)
    {
      hide Compare, Search;
      ghost var t := Contents();
      var lb, ub := 0, nblocks - 1;
      while lb <= ub
        invariant 0 <= lb && ub < nblocks
        invariant Search(t, key, lb, ub) == Find(t, key)
        decreases ub - lb
      {
        SearchNarrows(t, key, lb, ub);
        var mid := lb + (ub - lb) / 2;
        var res := Compare(key, blocks[mid]);
        if res < 0 {
          ub := mid - 1;
        } else if res > 0 {
          lb := mid + 1;
        } else {
          return mid;
        }
      }
      SearchNarrows(t, key, lb, ub);
      r := -1;
    }

    /** mergeblock. */
    method MergeBlock(i: nat, tmp: Region)
      requires Valid() && i < nblocks
      modifies blocks
      ensures Contents() == old(Contents())[i := Merge(old(blocks[i]), tmp)]
    {
      if tmp.start < blocks[i].start {
        blocks[i] := blocks[i].(start := tmp.start);
      }
      if tmp.end > blocks[i].end {
        blocks[i] := blocks[i].(end := tmp.end);
      }
    }

    /** The realloc in remap_add_node. */
    method Grow()
      requires Valid()
      modifies this`blocks
      ensures Valid() && fresh(blocks) && blocks.Length == old(blocks.Length) + 20
      ensures Contents() == old(Contents())
    {
      var larger := new Region[blocks.Length + 20];
      forall k | 0 <= k < nblocks {
        larger[k] := blocks[k];
      }
      blocks := larger;
    }

    /** The loop of remap_add_node: entries that follow the new region move up by one. */
    method MakeRoom(block: Region) returns (n: nat)
      requires Valid() && nblocks < blocks.Length
      modifies blocks
      ensures n == Position(old(Contents()), block, nblocks)
      ensures forall k :: 0 <= k < n ==> blocks[k] == old(blocks[k])
      ensures forall k :: n <= k < nblocks ==> blocks[k + 1] == old(blocks[k])
    {
      hide Compare;
      ghost var t := Contents();
      n := nblocks;
      while n > 0 && Compare(block, blocks[n - 1]) < 0
        invariant n <= nblocks
        invariant forall k :: 0 <= k < n ==> blocks[k] == old(blocks[k])
        invariant forall k :: n <= k < nblocks ==> blocks[k + 1] == old(blocks[k])
        invariant Position(t, block, n) == Position(t, block, nblocks)
      {
        blocks[n] := blocks[n - 1];
        n := n - 1;
      }
    }

    /** The new-block branch of remap_add_node, once there is room. */
    method InsertBlock(block: Region)
      requires Valid() && nblocks < blocks.Length
      modifies this`nblocks, blocks
      ensures Valid() && Contents() == Insert(old(Contents()), block)
    {
      hide Position;
      ghost var t := Contents();
      var n := MakeRoom(block);
      nblocks := nblocks + 1;
      blocks[n] := block;
      assert Contents() == t[..n] + [block] + t[n..];
    }

    /** remap_add_node. */
    method AddNode(block: Region)
      requires Valid()
      modifies this, blocks
      ensures Valid() && Contents() == Add(old(Contents()), block)
      ensures blocks == old(blocks) || fresh(blocks)
    {
      hide Find, Merge;
      var b := FindBlock(block);
      if b >= 0 {
        MergeBlock(b, block);
      } else {
        if nblocks >= blocks.Length {
          Grow();
        }
        InsertBlock(block);
      }
    }

    /** remap_block. */
    method RemapBlock(domain: int, title: int, program: int, cblock: int, offset: int) returns (r: int)
      requires Valid() && cblock + offset >= 0
      ensures r == Remap(Contents(), domain, title, program, cblock, offset)
    {
      var b := FindBlock(Region(domain, title, program, cblock + offset, cblock + offset));
      if b >= 0 {
        return blocks[b].end - cblock;
      }
      r := offset;
    }
  }

  /** The loop of remap_loadmap over the regions of a map file. */
  method LoadMap(regions: seq<Region>) returns (table: Table)
    ensures table.Valid() && table.Contents() == AddAll(regions)
  {
    table := new Table();
    for k := 0 to |regions|
      invariant table.Valid() && fresh(table) && fresh(table.blocks)
      invariant table.Contents() == AddAll(regions[..k])
    {
      assert regions[..k + 1][..k] == regions[..k];
      table.AddNode(regions[k]);
    }
    assert regions[..|regions|] == regions;
  }
}
