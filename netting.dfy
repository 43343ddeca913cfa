/**
 * The first half of container reconciliation: the game diff of a container
 * (base form -> count delta) loses its zero lines, and the deltas that the
 * containers next to it explain are netted out of it.
 */
module Netting {

  /** One line of a game diff: a base form and its count delta. */
  datatype Delta = Delta(base: int, count: int)

  function Abs(x: int): nat
  {
    if x < 0 then -x else x
  }

  /** remove_if(!count): the zero lines go, every other line keeps its multiplicity and its place. */
  function NonZero(g: seq<Delta>): (r: seq<Delta>)
    ensures forall e :: multiset(r)[e] == if e.count == 0 then 0 else multiset(g)[e]
    ensures forall k :: 0 <= k < |r| ==> r[k].count != 0
    ensures |r| <= |g|
  {
    if g == [] then []
    else
      var rest := NonZero(g[1..]);
      assert g == [g[0]] + g[1..];
      if g[0].count == 0 then rest else [g[0]] + rest
  }

  /** A diff without zero lines passes the filter unchanged. */
  lemma {:induction false} NonZeroKeeps(g: seq<Delta>)
    requires forall k :: 0 <= k < |g| ==> g[k].count != 0
    ensures NonZero(g) == g
  {
    if g != [] {
      NonZeroKeeps(g[1..]);
    }
  }

  /** The filter is idempotent. */
  lemma NonZeroIdempotent(g: seq<Delta>)
    ensures NonZero(NonZero(g)) == NonZero(g)
  {
    NonZeroKeeps(NonZero(g));
  }

  /**
   * When a sibling's delta `s` for the same base explains the own delta `d`:
   * `s` is nonzero, of the opposite sign, and at least as large.
   */
  predicate Absorbs(d: int, s: int)
  {
    (s > 0 && d < 0 && s + d >= 0) || (s < 0 && d > 0 && s + d <= 0)
  }

  /** One netting step on one count. */
  function NetPair(d: int, s: int): (r: int)
    ensures r != d <==> s != 0 && d != 0 && (s > 0 <==> d < 0) && Abs(s) >= Abs(d)
    ensures r != d ==> r == d + s
    ensures r != d ==> r == 0 || (r > 0 <==> s > 0)
  {
    if Absorbs(d, s) then d + s else d
  }

  /** A sibling line applied to one own line: only a line of the same base can change. */
  function NetEntry(e: Delta, s: Delta): (r: Delta)
    ensures r.base == e.base
    ensures e.base != s.base ==> r == e
    ensures e.base == s.base ==> r.count == NetPair(e.count, s.count)
  {
    if e.base == s.base then Delta(e.base, NetPair(e.count, s.count)) else e
  }

  /** The inner loop over the own diff for one sibling line. */
  function NetEach(g: seq<Delta>, s: Delta): (r: seq<Delta>)
    ensures |r| == |g| && forall k :: 0 <= k < |g| ==> r[k] == NetEntry(g[k], s)
  {
    seq(|g|, k requires 0 <= k < |g| => NetEntry(g[k], s))
  }

  /** The sibling's lines applied in turn. */
  function NetFold(g: seq<Delta>, sib: seq<Delta>): seq<Delta>
  {
    if sib == [] then g else NetEach(NetFold(g, sib[..|sib| - 1]), sib[|sib| - 1])
  }

  /** Netting keeps every line's place and base; a line whose base the sibling lacks keeps its count. */
  lemma {:induction false} NetFoldShape(g: seq<Delta>, sib: seq<Delta>)
    ensures |NetFold(g, sib)| == |g|
    ensures forall k :: 0 <= k < |g| ==> NetFold(g, sib)[k].base == g[k].base
    ensures forall k :: 0 <= k < |g| && (forall m :: 0 <= m < |sib| ==> sib[m].base != g[k].base) ==>
              NetFold(g, sib)[k] == g[k]
  {
    if sib != [] {
      var init := sib[..|sib| - 1];
      NetFoldShape(g, init);
      forall k | 0 <= k < |g| && (forall m :: 0 <= m < |sib| ==> sib[m].base != g[k].base)
        ensures NetFold(g, sib)[k] == g[k]
      {
        assert forall m :: 0 <= m < |init| ==> init[m] == sib[m];
      }
    }
  }

  /** A sibling with no nonzero delta explains nothing. */
  lemma {:induction false} NetFoldQuiet(g: seq<Delta>, sib: seq<Delta>)
    requires forall m :: 0 <= m < |sib| ==> sib[m].count == 0
    ensures NetFold(g, sib) == g
  {
    if sib != [] {
      var init := sib[..|sib| - 1];
      assert forall m :: 0 <= m < |init| ==> init[m] == sib[m];
      NetFoldQuiet(g, init);
      var r := NetEach(g, sib[|sib| - 1]);
      assert forall k :: 0 <= k < |g| ==> r[k] == g[k];
    }
  }

  /** The two netting loops for one sibling: every sibling line against every own line, in place. */
  method NetSibling(g: seq<Delta>, sib: seq<Delta>) returns (r: seq<Delta>)
    ensures r == NetFold(g, sib)
  {
    r := g;
    var m := 0;
    while m < |sib|
      invariant 0 <= m <= |sib|
      invariant r == NetFold(g, sib[..m])
    {
      ghost var before := r;
      var s := sib[m];
      var k := 0;
      while k < |r|
        invariant 0 <= k <= |r| && |r| == |before|
        invariant forall x :: 0 <= x < k ==> r[x] == NetEntry(before[x], s)
        invariant forall x :: k <= x < |r| ==> r[x] == before[x]
      {
        if s.base == r[k].base && s.count != 0 {
          if (s.count > 0 && r[k].count < 0 && s.count + r[k].count >= 0) ||
             (s.count < 0 && r[k].count > 0 && s.count + r[k].count <= 0) {
            r := r[k := Delta(r[k].base, r[k].count + s.count)];
          }
        }
        k := k + 1;
      }
      assert r == NetEach(before, s);
      assert sib[..m + 1][..m] == sib[..m];
      m := m + 1;
    }
    assert sib[..m] == sib;
  }

  /** A container next to the scanned one, with what its own scan reported. */
  datatype Sibling = Sibling(id: int, cell: int, reported: bool, diff: seq<Delta>)

  /** Whether a container's scan is netted against the scanned container `id` in cell `cell`. */
  predicate Nets(x: Sibling, id: int, cell: int)
  {
    x.id != id && x.cell == cell && x.reported
  }

  /** Netting against every sibling in turn. */
  function NetAcross(g: seq<Delta>, id: int, cell: int, sibs: seq<Sibling>): seq<Delta>
  {
    if sibs == [] then g
    else
      var before := NetAcross(g, id, cell, sibs[..|sibs| - 1]);
      var x := sibs[|sibs| - 1];
      if Nets(x, id, cell) then NetFold(before, x.diff) else before
  }

  /** Siblings skipped by the loop (the container itself, another cell, nothing reported) change nothing. */
  lemma {:induction false} NetAcrossSkips(g: seq<Delta>, id: int, cell: int, sibs: seq<Sibling>)
    requires forall m :: 0 <= m < |sibs| ==> !Nets(sibs[m], id, cell)
    ensures NetAcross(g, id, cell, sibs) == g
  {
    if sibs != [] {
      var init := sibs[..|sibs| - 1];
      assert forall m :: 0 <= m < |init| ==> init[m] == sibs[m];
      NetAcrossSkips(g, id, cell, init);
    }
  }

  /** Netting across siblings keeps every line's place and base. */
  lemma {:induction false} NetAcrossShape(g: seq<Delta>, id: int, cell: int, sibs: seq<Sibling>)
    ensures |NetAcross(g, id, cell, sibs)| == |g|
    ensures forall k :: 0 <= k < |g| ==> NetAcross(g, id, cell, sibs)[k].base == g[k].base
  {
    if sibs != [] {
      var init := sibs[..|sibs| - 1];
      NetAcrossShape(g, id, cell, init);
      NetFoldShape(NetAcross(g, id, cell, init), sibs[|sibs| - 1].diff);
    }
  }

  /**
   * The netting pass of the reconciliation job: every other container of the
   * same cell whose scan reported a change nets its deltas out of `g`; the
   * lines that end at zero are removed.
   */
  method NetSiblings(g: seq<Delta>, id: int, cell: int, sibs: seq<Sibling>) returns (r: seq<Delta>)
    ensures r == NonZero(NetAcross(g, id, cell, sibs))
  {
    r := g;
    var m := 0;
    while m < |sibs|
      invariant 0 <= m <= |sibs|
      invariant r == NetAcross(g, id, cell, sibs[..m])
    {
      var x := sibs[m];
      assert sibs[..m + 1][..m] == sibs[..m];
      if x.id != id && x.cell == cell && x.reported {
        r := NetSibling(r, x.diff);
      }
      m := m + 1;
    }
    assert sibs[..m] == sibs;
    r := NonZero(r);
  }
}
