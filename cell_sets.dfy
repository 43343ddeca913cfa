/**
 * The value-level pieces of the cell interest index: buckets of the CellRefs
 * map, std::find over the context list, sorting, and std::set_difference over
 * sorted ranges.
 */
module CellSets {
  import opened Base

  /** `(*cellRefs)[cell]`, with the default-inserted empty map for an unseen cell. */
  function Inner(refs: CellRefs, cell: int): map<int, set<int>>
  {
    if cell in refs then refs[cell] else map[]
  }

  /** `(*cellRefs)[cell][type]`, empty when either level is missing. */
  function Bucket(refs: CellRefs, cell: int, t: int): set<int>
  {
    var m := Inner(refs, cell);
    if t in m then m[t] else {}
  }

  /** `(*cellRefs)[cell][type].insert(ref)` */
  function Insert(refs: CellRefs, cell: int, t: int, ref: int): (r: CellRefs)
    ensures Bucket(r, cell, t) == Bucket(refs, cell, t) + {ref}
    ensures forall c, u :: c != cell || u != t ==> Bucket(r, c, u) == Bucket(refs, c, u)
  {
    var r := refs[cell := Inner(refs, cell)[t := Bucket(refs, cell, t) + {ref}]];
    assert Inner(r, cell) == Inner(refs, cell)[t := Bucket(refs, cell, t) + {ref}];
    assert forall c :: c != cell ==> Inner(r, c) == Inner(refs, c);
    r
  }

  /** `(*cellRefs)[cell][type].erase(ref)` */
  function Erase(refs: CellRefs, cell: int, t: int, ref: int): (r: CellRefs)
    ensures Bucket(r, cell, t) == Bucket(refs, cell, t) - {ref}
    ensures forall c, u :: c != cell || u != t ==> Bucket(r, c, u) == Bucket(refs, c, u)
  {
    var r := refs[cell := Inner(refs, cell)[t := Bucket(refs, cell, t) - {ref}]];
    assert Inner(r, cell) == Inner(refs, cell)[t := Bucket(refs, cell, t) - {ref}];
    assert forall c :: c != cell ==> Inner(r, c) == Inner(refs, c);
    r
  }

  /** Two indexes that agree on every bucket. */
  ghost predicate SameBuckets(a: CellRefs, b: CellRefs)
  {
    forall c, u :: Bucket(a, c, u) == Bucket(b, c, u)
  }

  /** A bucket is a set: inserting a refID twice is inserting it once. */
  lemma InsertIdempotent(refs: CellRefs, cell: int, t: int, ref: int)
    ensures Insert(Insert(refs, cell, t, ref), cell, t, ref) == Insert(refs, cell, t, ref)
  {
    var b := Bucket(refs, cell, t) + {ref};
    var inner := Inner(refs, cell)[t := b];
    var once := Insert(refs, cell, t, ref);
    assert once == refs[cell := inner];
    assert Inner(once, cell) == inner;
    assert Bucket(once, cell, t) == b;
    assert b + {ref} == b;
    assert inner[t := b] == inner;
    assert Insert(once, cell, t, ref) == once[cell := inner];
  }

  /** Erasing what was just inserted restores every bucket. */
  lemma EraseUndoesInsert(refs: CellRefs, cell: int, t: int, ref: int)
    requires ref !in Bucket(refs, cell, t)
    ensures SameBuckets(Erase(Insert(refs, cell, t, ref), cell, t, ref), refs)
  {
  }

  /** A move through erase-then-insert leaves the refID only in the target bucket of the two. */
  lemma MoveBetweenBuckets(refs: CellRefs, from: int, to: int, t: int, ref: int)
    ensures ref in Bucket(Insert(Erase(refs, from, t, ref), to, t, ref), to, t)
    ensures from != to ==> ref !in Bucket(Insert(Erase(refs, from, t, ref), to, t, ref), from, t)
    ensures forall c, u :: (c != from && c != to) || u != t ==>
              Bucket(Insert(Erase(refs, from, t, ref), to, t, ref), c, u) == Bucket(refs, c, u)
  {
  }

  /** std::find: the first position of `x` in `s`, or |s| when it is absent. */
  function Find(s: seq<int>, x: int): (i: nat)
    ensures i <= |s|
    ensures i < |s| ==> s[i] == x
    ensures forall j :: 0 <= j < i ==> s[j] != x
  {
    if s == [] then 0
    else if s[0] == x then 0
    else 1 + Find(s[1..], x)
  }

  /** IsInContext: cell 0 is never in context; any other cell is when the list holds it. */
  function IsInContext(context: seq<int>, cell: int): (r: bool)
    ensures r <==> cell != 0 && cell in context
  {
    if cell == 0 then false else Find(context, cell) != |context|
  }

  ghost predicate Sorted(s: seq<int>)
  {
    forall i, j :: 0 <= i < j < |s| ==> s[i] <= s[j]
  }

  function InsertSorted(x: int, s: seq<int>): (r: seq<int>)
    requires Sorted(s)
    ensures Sorted(r) && multiset(r) == multiset(s) + multiset{x}
  {
    if s == [] || x <= s[0] then [x] + s
    else
      var rest := InsertSorted(x, s[1..]);
      assert s == [s[0]] + s[1..];
      HeadBelowRest(s);
      assert forall k :: 0 <= k < |rest| ==> s[0] <= rest[k] by {
        forall k | 0 <= k < |rest|
          ensures s[0] <= rest[k]
        {
          assert rest[k] in multiset(rest);
        }
      }
      [s[0]] + rest
  }

  /** std::sort of the context list. */
  function Sort(s: seq<int>): (r: seq<int>)
    ensures Sorted(r) && multiset(r) == multiset(s)
  {
    if s == [] then []
    else
      assert s == [s[0]] + s[1..];
      InsertSorted(s[0], Sort(s[1..]))
  }

  /** A sorted sequence's multiset determines it. */
  lemma {:induction false} SortedUnique(a: seq<int>, b: seq<int>)
    requires Sorted(a) && Sorted(b) && multiset(a) == multiset(b)
    ensures a == b
  {
    if a != [] {
      assert a[0] in multiset(a);
      assert b != [];
      MinIsHead(a);
      MinIsHead(b);
      assert b[0] in multiset(b);
      assert a[0] <= b[0] && b[0] <= a[0];
      MultisetTail(a);
      MultisetTail(b);
      SortedTail(a);
      SortedTail(b);
      SortedUnique(a[1..], b[1..]);
      assert a == [a[0]] + a[1..] && b == [b[0]] + b[1..];
    }
  }

  lemma SortedTail(s: seq<int>)
    requires Sorted(s) && s != []
    ensures Sorted(s[1..])
  {
    forall i, j | 0 <= i < j < |s[1..]|
      ensures s[1..][i] <= s[1..][j]
    {
      assert s[1..][i] == s[i + 1] && s[1..][j] == s[j + 1];
    }
  }

  lemma MultisetTail(s: seq<int>)
    requires s != []
    ensures multiset(s[1..]) == multiset(s) - multiset{s[0]}
  {
    assert s == [s[0]] + s[1..];
  }

  lemma MinIsHead(s: seq<int>)
    requires Sorted(s) && s != []
    ensures forall x :: x in multiset(s) ==> s[0] <= x
  {
    forall x | x in multiset(s)
      ensures s[0] <= x
    {
      var k :| 0 <= k < |s| && s[k] == x;
    }
  }

  /** Sorting is idempotent: a sorted context sorts to itself. */
  lemma SortOfSorted(s: seq<int>)
    requires Sorted(s)
    ensures Sort(s) == s
  {
    SortedUnique(Sort(s), s);
  }

  /**
   * std::set_difference over two sorted ranges: the elements of `a` that `b`
   * does not match, keeping multiplicities, in sorted order.
   */
  function SetDifference(a: seq<int>, b: seq<int>): (r: seq<int>)
    requires Sorted(a) && Sorted(b)
    ensures Sorted(r)
    ensures multiset(r) == multiset(a) - multiset(b)
    decreases |a| + |b|
  {
    if a == [] then []
    else if b == [] then a
    else if a[0] < b[0] then
      var rest := SetDifference(a[1..], b);
      KeepHead(a, b, rest);
      [a[0]] + rest
    else if b[0] < a[0] then
      SkipHead(a, b);
      SetDifference(a, b[1..])
    else
      DropBoth(a, b);
      SetDifference(a[1..], b[1..])
  }

  lemma KeepHead(a: seq<int>, b: seq<int>, rest: seq<int>)
    requires Sorted(a) && Sorted(b) && a != [] && b != [] && a[0] < b[0]
    requires Sorted(rest) && multiset(rest) == multiset(a[1..]) - multiset(b)
    ensures Sorted([a[0]] + rest)
    ensures multiset([a[0]] + rest) == multiset(a) - multiset(b)
  {
    assert a == [a[0]] + a[1..];
    MinIsHead(b);
    assert multiset(b)[a[0]] == 0;
    HeadBelowRest(a);
    forall k | 0 <= k < |rest|
      ensures a[0] <= rest[k]
    {
      assert rest[k] in multiset(rest);
    }
    forall y
      ensures multiset([a[0]] + rest)[y] == (multiset(a) - multiset(b))[y]
    {
    }
    assert multiset([a[0]] + rest) == multiset(a) - multiset(b);
  }

  lemma SkipHead(a: seq<int>, b: seq<int>)
    requires Sorted(a) && Sorted(b) && a != [] && b != [] && b[0] < a[0]
    ensures multiset(a) - multiset(b[1..]) == multiset(a) - multiset(b)
  {
    assert b == [b[0]] + b[1..];
    MinIsHead(a);
    assert multiset(a)[b[0]] == 0;
    forall y
      ensures (multiset(a) - multiset(b[1..]))[y] == (multiset(a) - multiset(b))[y]
    {
    }
  }

  lemma DropBoth(a: seq<int>, b: seq<int>)
    requires a != [] && b != [] && a[0] == b[0]
    ensures multiset(a[1..]) - multiset(b[1..]) == multiset(a) - multiset(b)
  {
    assert a == [a[0]] + a[1..] && b == [b[0]] + b[1..];
    forall y
      ensures (multiset(a[1..]) - multiset(b[1..]))[y] == (multiset(a) - multiset(b))[y]
    {
    }
  }

  lemma HeadBelowRest(a: seq<int>)
    requires Sorted(a) && a != []
    ensures forall x :: x in multiset(a[1..]) ==> a[0] <= x
  {
    forall x | x in multiset(a[1..])
      ensures a[0] <= x
    {
      var k :| 0 <= k < |a[1..]| && a[1..][k] == x;
      assert a[k + 1] == x;
    }
  }

  /** A sorted list minus itself is empty: repeating a context update reports no change. */
  lemma DifferenceWithSelf(a: seq<int>)
    requires Sorted(a)
    ensures SetDifference(a, a) == []
  {
    var r := SetDifference(a, a);
    assert multiset(r) == multiset{};
  }

  /** On sequences without repeats the difference holds exactly the elements of `a` that are not in `b`. */
  lemma DifferenceMembers(a: seq<int>, b: seq<int>, x: int)
    requires Sorted(a) && Sorted(b)
    ensures x in SetDifference(a, b) ==> x in a
    ensures x in a && x !in b ==> x in SetDifference(a, b)
  {
    var r := SetDifference(a, b);
    assert x in r <==> x in multiset(r);
    assert x in a <==> x in multiset(a);
    assert x in b <==> x in multiset(b);
  }
}
