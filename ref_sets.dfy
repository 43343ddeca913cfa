/**
 * Sets of refIDs: the type-mask filter over one cell's buckets, and the
 * conversion of those sets into the vectors GetContext returns.
 */
module RefSets {
  /** `refs.first & type`: a bucket's type key against a type mask (the key is an unsigned int). */
  predicate HasType(t: int, mask: bv8)
  {
    ((t % 256) as bv8) & mask != 0
  }

  /** The refIDs of the buckets of `m` under the type keys `keys` that match the mask. */
  function Gather(m: map<int, set<int>>, keys: set<int>, mask: bv8): set<int>
  {
    set t, r | t in keys && t in m && r in m[t] && HasType(t, mask) :: r
  }
  lemma GatherAdd(m: map<int, set<int>>, keys: set<int>, t: int, mask: bv8)
    requires t in m
    ensures Gather(m, keys + {t}, mask) == Gather(m, keys, mask) + (if HasType(t, mask) then m[t] else {})
  {
    forall y | y in Gather(m, keys + {t}, mask)
      ensures y in Gather(m, keys, mask) + (if HasType(t, mask) then m[t] else {})
    {
      var u :| u in keys + {t} && u in m && y in m[u] && HasType(u, mask);
      if u != t {
        assert y in Gather(m, keys, mask);
      }
    }
    forall y | y in Gather(m, keys, mask)
      ensures y in Gather(m, keys + {t}, mask)
    {
      var u :| u in keys && u in m && y in m[u] && HasType(u, mask);
      assert u in keys + {t};
    }
    if HasType(t, mask) {
      forall y | y in m[t]
        ensures y in Gather(m, keys + {t}, mask)
      {
        assert t in keys + {t};
      }
    }
  }


  /** The set of elements of a sequence. */
  function Elems(s: seq<int>): set<int>
  {
    set x | x in s
  }

  lemma ElemsAppend(a: seq<int>, b: seq<int>)
    ensures Elems(a + b) == Elems(a) + Elems(b)
  {
    forall x
      ensures x in Elems(a + b) <==> x in Elems(a) + Elems(b)
    {
      if x in a + b {
        var k :| 0 <= k < |a + b| && (a + b)[k] == x;
        if k >= |a| {
          assert b[k - |a|] == x;
        }
      }
    }
  }

  /** A set other than the empty one has an element. */
  lemma NonEmptyHasElement(s: set<int>)
    requires s != {}
    ensures exists x :: x in s
  {
    if forall x :: x !in s {
      assert false;
    }
  }

  /** One bucket's step of CellRefsOf. */
  lemma GatherStep(m: map<int, set<int>>, done: set<int>, t: int, mask: bv8, part: seq<int>, elems: seq<int>)
    requires t in m && Elems(part) == Gather(m, done, mask)
    requires Elems(elems) == (if HasType(t, mask) then m[t] else {})
    ensures Elems(part + elems) == Gather(m, done + {t}, mask)
  {
    ElemsAppend(part, elems);
    GatherAdd(m, done, t, mask);
  }

  /** The matching buckets of one cell, appended in turn. */
  method CellRefsOf(m: map<int, set<int>>, mask: bv8) returns (part: seq<int>)
    ensures Elems(part) == Gather(m, m.Keys, mask)
  {
    part := [];
    var keys := m.Keys;
    ghost var done: set<int> := {};
    while keys != {}
      invariant keys <= m.Keys && done == m.Keys - keys
      invariant Elems(part) == Gather(m, done, mask)
      decreases keys
    {
      NonEmptyHasElement(keys);
      var t :| t in keys;
      var elems: seq<int> := [];
      if HasType(t, mask) {
        elems := SetToSeq(m[t]);
      }
      GatherStep(m, done, t, mask, part, elems);
      part := part + elems;
      keys := keys - {t};
      done := done + {t};
    }
  }

  /** The elements of a set, one after the other. */
  method SetToSeq(s: set<int>) returns (r: seq<int>)
    ensures Elems(r) == s
  {
    r := [];
    var rest := s;
    while rest != {}
      invariant rest <= s && Elems(r) == s - rest
      decreases rest
    {
      NonEmptyHasElement(rest);
      var x :| x in rest;
      ElemsAppend(r, [x]);
      r := r + [x];
      rest := rest - {x};
    }
  }
}
