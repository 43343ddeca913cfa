/**
 * best_match: given the candidate stacks of one base form (refID and stack
 * count) and the count a diff line asks for, find the fewest stacks whose
 * counts add up to it exactly.
 *
 * The source enumerates every permutation of the sorted candidates, walks
 * each one as a prefix until the running count reaches the target, and keeps
 * the shortest prefix that hits it exactly, the first one on a tie. Here the
 * search is stated as a search over subsequences (`Best`), the walk over one
 * permutation is modelled as written (`Walk`, `PrefixWalk`), and lemmas tie the
 * two together: every subsequence is the prefix of some permutation, every
 * exact hit of the walk is the sum of a subsequence, so the shortest hit over
 * all permutations is exactly as long as `Best`.
 */
module BestMatch {
  import opened Base

  /** A candidate reference: its refID and the count of its stack. */
  datatype Stack = Stack(refID: int, count: int)

  function Sum(s: seq<Stack>): int
  {
    if s == [] then 0 else s[0].count + Sum(s[1..])
  }

  /** Every stack count is positive (an item reference always holds at least one item). */
  ghost predicate Positive(s: seq<Stack>)
  {
    forall k :: 0 <= k < |s| ==> s[k].count > 0
  }

  /** `s` is `data` with some stacks left out, in the same order. */
  predicate SubseqOf(s: seq<Stack>, data: seq<Stack>)
    decreases |data|
  {
    if s == [] then true
    else if data == [] then false
    else (s[0] == data[0] && SubseqOf(s[1..], data[1..])) || SubseqOf(s, data[1..])
  }

  /**
   * The shortest subsequence of `data` whose counts sum to `target`. On a tie
   * the one that takes the earliest stacks wins, which on sorted candidates
   * is the prefix of the first permutation in lexicographic order.
   */
  function Best(data: seq<Stack>, target: int): (r: Option<seq<Stack>>)
    ensures r.Some? ==> SubseqOf(r.value, data) && Sum(r.value) == target
    decreases |data|
  {
    if target == 0 then Some([])
    else if data == [] then None
    else
      var h := data[0];
      var taken := Best(data[1..], target - h.count);
      var skipped := Best(data[1..], target);
      if taken.Some? && (skipped.None? || |taken.value| + 1 <= |skipped.value|) then
        assert SubseqOf([h] + taken.value, data) by {
          assert ([h] + taken.value)[1..] == taken.value;
        }
        assert Sum([h] + taken.value) == h.count + Sum(taken.value) by {
          assert ([h] + taken.value)[1..] == taken.value;
        }
        Some([h] + taken.value)
      else
        assert skipped.Some? ==> SubseqOf(skipped.value, data) by {
          if skipped.Some? {
            SubseqSkip(skipped.value, data);
          }
        }
        skipped
  }

  lemma SubseqSkip(s: seq<Stack>, data: seq<Stack>)
    requires data != [] && SubseqOf(s, data[1..])
    ensures SubseqOf(s, data)
  {
  }

  /** No subsequence with the exact sum is shorter than `Best`, and `Best` exists whenever one does. */
  lemma {:induction false} BestIsShortest(data: seq<Stack>, target: int, s: seq<Stack>)
    requires SubseqOf(s, data) && Sum(s) == target
    ensures Best(data, target).Some? && |Best(data, target).value| <= |s|
    decreases |data|
  {
    if target != 0 {
      assert s != [];
      assert data != [];
      var h := data[0];
      if s[0] == h && SubseqOf(s[1..], data[1..]) {
        BestIsShortest(data[1..], target - h.count, s[1..]);
      } else {
        BestIsShortest(data[1..], target, s);
      }
    }
  }

  /** best_match's answer: the stacks of `Best`, or none when no subsequence hits the count. */
  function BestMatchOf(data: seq<Stack>, count: int): (r: seq<Stack>)
    ensures r != [] ==> SubseqOf(r, data) && Sum(r) == count
  {
    match Best(data, count)
    case Some(s) => s
    case None => []
  }

  /** The answer is empty exactly when no subsequence hits a nonzero count. */
  lemma BestMatchEmpty(data: seq<Stack>, count: int)
    requires count != 0
    ensures BestMatchOf(data, count) == [] ==> forall s :: SubseqOf(s, data) ==> Sum(s) != count
    ensures BestMatchOf(data, count) != [] ==> exists s :: SubseqOf(s, data) && Sum(s) == count
  {
    var r := BestMatchOf(data, count);
    forall s | SubseqOf(s, data) && Sum(s) == count
      ensures r != []
    {
      BestIsShortest(data, count, s);
      assert Best(data, count).value == r;
      assert Sum([]) == 0;
    }
    if r != [] {
      assert SubseqOf(r, data) && Sum(r) == count;
    }
  }

  // ----- The walk over one permutation, as the source writes it -----

  /**
   * The state of the walk over `p` starting from the remaining count `i` and
   * the stack count `num`: each stack lowers `i` and counts one more; an
   * overshoot resets the count to 0; reaching or passing 0 stops the walk.
   */
  function Walk(p: seq<Stack>, i: int, num: nat): (res: (int, nat))
    ensures res.1 <= num + |p|
    ensures res.0 > 0 ==> res.1 == num + |p|
    decreases |p|
  {
    if p == [] then (i, num)
    else
      var i' := i - p[0].count;
      var num' := if i' < 0 then 0 else num + 1;
      if i' <= 0 then (i', num') else Walk(p[1..], i', num')
  }

  /** The inner loop of best_match over one permutation. */
  method PrefixWalk(p: seq<Stack>, count: int) returns (num: nat, i: int)
    ensures (i, num) == Walk(p, count, 0)
  {
    num, i := 0, count;
    var k := 0;
    while k < |p|
      invariant 0 <= k <= |p|
      invariant i > 0 || k == 0
      invariant Walk(p, count, 0) == Walk(p[k..], i, num)
    {
      assert p[k..][1..] == p[k + 1..];
      i := i - p[k].count;
      num := num + 1;
      if i < 0 {
        num := 0;
      }
      if i <= 0 {
        return;
      }
      k := k + 1;
    }
    assert p[k..] == [];
  }

  lemma SumStep(p: seq<Stack>, k: nat)
    requires 0 < k <= |p|
    ensures Sum(p[..k]) == p[0].count + Sum(p[1..][..k - 1])
  {
    assert p[..k][1..] == p[1..][..k - 1];
  }

  /** On positive counts the prefix sums strictly grow. */
  lemma {:induction false} PrefixSumsGrow(p: seq<Stack>, a: nat, b: nat)
    requires Positive(p) && a < b <= |p|
    ensures Sum(p[..a]) < Sum(p[..b])
  {
    SumStep(p, b);
    if a == 0 {
      assert Sum(p[..0]) == 0;
      PrefixSumNonNegative(p[1..], b - 1);
    } else {
      SumStep(p, a);
      PrefixSumsGrow(p[1..], a - 1, b - 1);
    }
  }

  lemma {:induction false} PrefixSumNonNegative(p: seq<Stack>, k: nat)
    requires Positive(p) && k <= |p|
    ensures Sum(p[..k]) >= 0
  {
    if k > 0 {
      SumStep(p, k);
      PrefixSumNonNegative(p[1..], k - 1);
    }
  }

  /**
   * On positive counts and a positive remaining count, the walk ends at 0
   * exactly when some nonempty prefix sums to it, and then it counts the
   * stacks of that prefix.
   */
  lemma {:induction false} WalkHits(p: seq<Stack>, i: int, num: nat)
    requires Positive(p) && i > 0
    ensures Walk(p, i, num).0 == 0 ==>
              num < Walk(p, i, num).1 <= num + |p| && Sum(p[..Walk(p, i, num).1 - num]) == i
    ensures forall k :: 0 < k <= |p| && Sum(p[..k]) == i ==> Walk(p, i, num) == (0, num + k)
    decreases |p|
  {
    if p != [] {
      var i' := i - p[0].count;
      assert Sum(p[..1]) == p[0].count by {
        SumStep(p, 1);
      }
      forall k | 0 < k <= |p| && Sum(p[..k]) == i
        ensures Walk(p, i, num) == (0, num + k)
      {
        SumStep(p, k);
        if k == 1 {
          assert i' == 0;
        } else {
          PrefixSumsGrow(p, 1, k);
          assert i' > 0;
          WalkHits(p[1..], i', num + 1);
        }
      }
      if i' > 0 {
        WalkHits(p[1..], i', num + 1);
        var n := Walk(p, i, num).1;
        if Walk(p, i, num).0 == 0 {
          SumStep(p, n - num);
        }
      }
    }
  }

  // ----- From subsequences to permutations and back -----

  /** The stacks of `data` that the subsequence `s` leaves out. */
  function Rest(s: seq<Stack>, data: seq<Stack>): (r: seq<Stack>)
    requires SubseqOf(s, data)
    ensures multiset(s + r) == multiset(data)
    decreases |data|
  {
    if data == [] then []
    else if s != [] && s[0] == data[0] && SubseqOf(s[1..], data[1..]) then
      var r := Rest(s[1..], data[1..]);
      assert s == [s[0]] + s[1..] && data == [data[0]] + data[1..];
      assert s + r == [s[0]] + (s[1..] + r);
      r
    else
      var r := Rest(s, data[1..]);
      assert data == [data[0]] + data[1..];
      assert multiset(s + ([data[0]] + r)) == multiset(s + r) + multiset{data[0]};
      [data[0]] + r
  }

  /** Every subsequence is the prefix of a permutation of the candidates. */
  lemma SubseqIsPermutationPrefix(s: seq<Stack>, data: seq<Stack>)
    requires SubseqOf(s, data)
    ensures exists p: seq<Stack> :: multiset(p) == multiset(data) && |s| <= |p| && p[..|s|] == s
  {
    var p := s + Rest(s, data);
    assert p[..|s|] == s;
  }

  /** A sub-multiset of the candidates, put in their order, is a subsequence. */
  lemma {:induction false} SubmultisetIsSubseq(m: multiset<Stack>, data: seq<Stack>) returns (s: seq<Stack>)
    requires m <= multiset(data)
    ensures SubseqOf(s, data) && multiset(s) == m
    decreases |data|
  {
    if data == [] {
      s := [];
    } else {
      var h := data[0];
      assert data == [h] + data[1..];
      if h in m {
        var t := SubmultisetIsSubseq(m - multiset{h}, data[1..]);
        s := [h] + t;
        assert s[1..] == t;
      } else {
        s := SubmultisetIsSubseq(m, data[1..]);
        SubseqSkip(s, data);
      }
    }
  }

  lemma SumConcat(a: seq<Stack>, b: seq<Stack>)
    ensures Sum(a + b) == Sum(a) + Sum(b)
  {
    if a == [] {
      assert a + b == b;
    } else {
      assert (a + b)[1..] == a[1..] + b;
      SumConcat(a[1..], b);
    }
  }

  /** Taking stack j out of a list takes its count out of the sum. */
  lemma {:induction false} SumRemove(b: seq<Stack>, j: nat)
    requires j < |b|
    ensures Sum(b) == b[j].count + Sum(b[..j] + b[j + 1..])
    decreases j
  {
    if j == 0 {
      assert b[..0] + b[1..] == b[1..];
    } else {
      SumRemove(b[1..], j - 1);
      var t := b[1..][..j - 1] + b[1..][j..];
      assert b[..j] + b[j + 1..] == [b[0]] + t;
      assert ([b[0]] + t)[1..] == t;
    }
  }

  /** Taking stack j out of a list takes it out of its multiset. */
  lemma MultisetRemove(b: seq<Stack>, j: nat)
    requires j < |b|
    ensures multiset(b[..j] + b[j + 1..]) == multiset(b) - multiset{b[j]}
  {
    assert b == b[..j] + [b[j]] + b[j + 1..];
  }

  /** The sum depends only on the stacks, not on their order. */
  lemma {:induction false} SumPermutation(a: seq<Stack>, b: seq<Stack>)
    requires multiset(a) == multiset(b)
    ensures Sum(a) == Sum(b)
    decreases |a|
  {
    if a != [] {
      var h := a[0];
      assert h in multiset(b);
      var j :| 0 <= j < |b| && b[j] == h;
      assert a == [h] + a[1..];
      assert multiset(a[1..]) == multiset(a) - multiset{h};
      MultisetRemove(b, j);
      SumPermutation(a[1..], b[..j] + b[j + 1..]);
      SumRemove(b, j);
    } else {
      assert |b| == |multiset(b)|;
    }
  }

  lemma PositivePermutation(data: seq<Stack>, p: seq<Stack>)
    requires Positive(data) && multiset(p) == multiset(data)
    ensures Positive(p)
  {
    forall k | 0 <= k < |p|
      ensures p[k].count > 0
    {
      assert p[k] in multiset(data);
    }
  }

  /** Every exact hit of the walk over a permutation is an exact-sum subsequence of its length. */
  lemma HitIsSubseq(data: seq<Stack>, count: int, p: seq<Stack>) returns (s: seq<Stack>)
    requires Positive(data) && count > 0 && multiset(p) == multiset(data) && Walk(p, count, 0).0 == 0
    ensures SubseqOf(s, data) && Sum(s) == count && |s| == Walk(p, count, 0).1
  {
    PositivePermutation(data, p);
    WalkHits(p, count, 0);
    var n := Walk(p, count, 0).1;
    var prefix := p[..n];
    assert p == prefix + p[n..];
    assert multiset(prefix) <= multiset(data);
    s := SubmultisetIsSubseq(multiset(prefix), data);
    SumPermutation(s, prefix);
    assert |s| == |multiset(prefix)|;
  }

  /**
   * The subset search and the source's permutation walk agree: `Best` is
   * the prefix of a permutation that the walk hits, no permutation gets a
   * shorter hit, and there is no hit at all exactly when `Best` is None.
   */
  lemma BestIsShortestWalk(data: seq<Stack>, count: int)
    requires Positive(data) && count > 0
    ensures Best(data, count).Some? ==>
              exists p: seq<Stack> :: multiset(p) == multiset(data) && Walk(p, count, 0) == (0, |Best(data, count).value|) &&
                          |Best(data, count).value| <= |p| && p[..|Best(data, count).value|] == Best(data, count).value
    ensures forall p: seq<Stack> :: multiset(p) == multiset(data) && Walk(p, count, 0).0 == 0 ==>
              Best(data, count).Some? && |Best(data, count).value| <= Walk(p, count, 0).1
  {
    var b := Best(data, count);
    if b.Some? {
      var s := b.value;
      var p := s + Rest(s, data);
      assert p[..|s|] == s;
      PositivePermutation(data, p);
      WalkHits(p, count, 0);
      assert Positive(s) by {
        assert forall k :: 0 <= k < |s| ==> s[k] == p[k];
      }
      assert s != [] by {
        assert Sum([]) == 0;
      }
      assert Walk(p, count, 0) == (0, |s|);
    }
    forall p | multiset(p) == multiset(data) && Walk(p, count, 0).0 == 0
      ensures Best(data, count).Some? && |Best(data, count).value| <= Walk(p, count, 0).1
    {
      var s := HitIsSubseq(data, count, p);
      BestIsShortest(data, count, s);
    }
  }
}
