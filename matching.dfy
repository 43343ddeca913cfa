/**
 * The second half of container reconciliation: the references that appeared
 * in the player's cell are matched against the lines the container lost
 * (drops), the references that vanished against the lines it gained
 * (pickups), and every line that took part in a match leaves the diff.
 */
module Matching {
  import opened Base
  import opened Netting
  import opened BestMatch

  /** What the game answers for a refID: its base form and its stack count. */
  datatype Item = Item(base: int, count: int)

  /**
   * What admission reads for a refID: its base form and its stack count;
   * None when there is no item to read (a pickup whose reference is gone,
   * or a drop whose count was never asked for).
   */
  type Lookup = int -> Option<Item>

  /** find_if over the diff: the first line of base `b`, or |g| when there is none. */
  function FirstOf(g: seq<Delta>, b: int): (k: nat)
    ensures k <= |g|
    ensures k < |g| ==> g[k].base == b
    ensures forall j :: 0 <= j < k ==> g[j].base != b
  {
    if g == [] then 0
    else if g[0].base == b then 0
    else 1 + FirstOf(g[1..], b)
  }

  /**
   * Candidate admission: a dropped stack may explain a negative line whose
   * loss it does not exceed, a picked-up stack a positive line whose gain it
   * does not exceed.
   */
  predicate Fits(d: int, c: int, dropping: bool)
  {
    if dropping then d < 0 && c + d <= 0 else d > 0 && d - c >= 0
  }

  lemma FitsMeans(d: int, c: int, dropping: bool)
    ensures Fits(d, c, dropping) <==> (if dropping then d < 0 else d > 0) && c <= Abs(d)
  {
  }

  /** `found[baseID]`: the line the candidates of a base explain, and the candidates in arrival order. */
  datatype Found = Found(entry: nat, stacks: seq<Stack>)

  /** One refID of the admission loop. */
  function AdmitOne(found: map<int, Found>, g: seq<Delta>, x: int, it: Option<Item>, dropping: bool): map<int, Found>
  {
    match it
    case None => found
    case Some(item) =>
      var k := FirstOf(g, item.base);
      if k < |g| && Fits(g[k].count, item.count, dropping) then
        var before := if item.base in found then found[item.base].stacks else [];
        found[item.base := Found(k, before + [Stack(x, item.count)])]
      else found
  }

  /** The admission loop over the refIDs of the cell diff, in their order. */
  function Admit(g: seq<Delta>, refIDs: seq<int>, info: Lookup, dropping: bool): (r: map<int, Found>)
    ensures FoundIn(r, g)
  {
    if refIDs == [] then map[]
    else
      var x := refIDs[|refIDs| - 1];
      AdmitOne(Admit(g, refIDs[..|refIDs| - 1], info, dropping), g, x, info(x), dropping)
  }

  method AdmitAll(g: seq<Delta>, refIDs: seq<int>, info: Lookup, dropping: bool) returns (found: map<int, Found>)
    ensures found == Admit(g, refIDs, info, dropping)
  {
    found := map[];
    var m := 0;
    while m < |refIDs|
      invariant 0 <= m <= |refIDs|
      invariant found == Admit(g, refIDs[..m], info, dropping)
    {
      var x := refIDs[m];
      assert refIDs[..m + 1][..m] == refIDs[..m];
      var it := info(x);
      if it.Some? {
        var item := it.value;
        var k := FirstOf(g, item.base);
        if k < |g| {
          var d := g[k].count;
          if (dropping && d < 0 && item.count + d <= 0) || (!dropping && d > 0 && d - item.count >= 0) {
            var before := if item.base in found then found[item.base].stacks else [];
            found := found[item.base := Found(k, before + [Stack(x, item.count)])];
          }
        }
      }
      m := m + 1;
    }
    assert refIDs[..m] == refIDs;
  }

  /** Every base in `found` points at its first line in `g` and holds at least one candidate. */
  ghost predicate FoundIn(found: map<int, Found>, g: seq<Delta>)
  {
    forall b :: b in found ==> found[b].entry == FirstOf(g, b) < |g| && found[b].stacks != []
  }

  /** What a candidate of base `b` must be: a refID of the diff whose item has base `b` and fits the line. */
  ghost predicate Admissible(g: seq<Delta>, refIDs: seq<int>, info: Lookup, dropping: bool, b: int, st: Stack)
  {
    st.refID in refIDs && info(st.refID) == Some(Item(b, st.count)) &&
    FirstOf(g, b) < |g| && Fits(g[FirstOf(g, b)].count, st.count, dropping)
  }

  /** Admission keeps only admissible candidates, each under its own base. */
  lemma {:induction false} AdmitOnlyAdmissible(g: seq<Delta>, refIDs: seq<int>, info: Lookup, dropping: bool)
    ensures forall b, st :: b in Admit(g, refIDs, info, dropping) && st in Admit(g, refIDs, info, dropping)[b].stacks ==>
              Admissible(g, refIDs, info, dropping, b, st)
  {
    if refIDs != [] {
      var init := refIDs[..|refIDs| - 1];
      var x := refIDs[|refIDs| - 1];
      assert refIDs == init + [x];
      AdmitOnlyAdmissible(g, init, info, dropping);
      var before := Admit(g, init, info, dropping);
      var after := Admit(g, refIDs, info, dropping);
      forall b, st | b in after && st in after[b].stacks
        ensures Admissible(g, refIDs, info, dropping, b, st)
      {
        if b in before && st in before[b].stacks {
          assert Admissible(g, init, info, dropping, b, st);
        }
      }
    }
  }

  /** Admission keeps every admissible candidate. */
  lemma {:induction false} AdmitEveryAdmissible(g: seq<Delta>, refIDs: seq<int>, info: Lookup, dropping: bool)
    ensures forall x :: (x in refIDs && info(x).Some? &&
                         Admissible(g, refIDs, info, dropping, info(x).value.base, Stack(x, info(x).value.count))) ==>
              info(x).value.base in Admit(g, refIDs, info, dropping) &&
              Stack(x, info(x).value.count) in Admit(g, refIDs, info, dropping)[info(x).value.base].stacks
  {
    if refIDs != [] {
      var init := refIDs[..|refIDs| - 1];
      var x := refIDs[|refIDs| - 1];
      assert refIDs == init + [x];
      AdmitEveryAdmissible(g, init, info, dropping);
      var after := Admit(g, refIDs, info, dropping);
      forall y | y in refIDs && info(y).Some? &&
          Admissible(g, refIDs, info, dropping, info(y).value.base, Stack(y, info(y).value.count))
        ensures info(y).value.base in after && Stack(y, info(y).value.count) in after[info(y).value.base].stacks
      {
        if y != x {
          assert y in init;
          assert Admissible(g, init, info, dropping, info(y).value.base, Stack(y, info(y).value.count));
        }
      }
    }
  }

  /** The candidates of every base in strictly ascending refID order. */
  ghost predicate Ascending(s: seq<Stack>)
  {
    forall i, j :: 0 <= i < j < |s| ==> s[i].refID < s[j].refID
  }

  /**
   * The refIDs come from an ordered set, so they arrive in ascending order and
   * every base's candidates are already sorted: best_match's data.sort()
   * leaves them as they are.
   */
  lemma {:induction false} AdmitAscending(g: seq<Delta>, refIDs: seq<int>, info: Lookup, dropping: bool)
    requires forall i, j :: 0 <= i < j < |refIDs| ==> refIDs[i] < refIDs[j]
    ensures forall b :: b in Admit(g, refIDs, info, dropping) ==> Ascending(Admit(g, refIDs, info, dropping)[b].stacks)
  {
    if refIDs != [] {
      var init := refIDs[..|refIDs| - 1];
      var x := refIDs[|refIDs| - 1];
      AdmitAscending(g, init, info, dropping);
      AdmitOnlyAdmissible(g, init, info, dropping);
      var before := Admit(g, init, info, dropping);
      forall b | b in before
        ensures forall st :: st in before[b].stacks ==> st.refID < x
      {
        forall st | st in before[b].stacks
          ensures st.refID < x
        {
          assert Admissible(g, init, info, dropping, b, st);
          var i :| 0 <= i < |init| && init[i] == st.refID;
        }
      }
    }
  }

  /** best_match of every base against the count of the line it explains. */
  function Matches(found: map<int, Found>, g: seq<Delta>): (r: map<int, seq<Stack>>)
    ensures r.Keys == found.Keys
    ensures forall b :: b in r && r[b] != [] ==>
              found[b].entry < |g| && SubseqOf(r[b], found[b].stacks) && Sum(r[b]) == Abs(g[found[b].entry].count)
  {
    map b | b in found :: if found[b].entry < |g| then BestMatchOf(found[b].stacks, Abs(g[found[b].entry].count)) else []
  }

  /** The lines of `g` at the positions of `idx` erased, the others kept in order. */
  function EraseAt(g: seq<Delta>, idx: set<int>): (r: seq<Delta>)
    ensures |r| <= |g|
    ensures forall e :: e in r <==> exists k :: 0 <= k < |g| && k !in idx && g[k] == e
  {
    if g == [] then []
    else
      var n := |g| - 1;
      var init := EraseAt(g[..n], idx);
      assert forall k :: 0 <= k < n ==> g[..n][k] == g[k];
      init + (if n in idx then [] else [g[n]])
  }

  /** The positions of the lines the found bases explain. */
  function Handled(found: map<int, Found>): set<int>
  {
    set b | b in found :: found[b].entry as int
  }

  /** Every base names its line once. */
  ghost predicate UniqueBases(g: seq<Delta>)
  {
    forall i, j :: 0 <= i < j < |g| ==> g[i].base != g[j].base
  }

  /** With one line per base, a position is handled exactly when its base was found. */
  lemma HandledAt(g: seq<Delta>, found: map<int, Found>, k: int)
    requires FoundIn(found, g) && UniqueBases(g) && 0 <= k < |g|
    ensures k in Handled(found) <==> g[k].base in found
  {
    var b := g[k].base;
    if b in found {
      var entry := found[b].entry;
      assert g[entry].base == b;
      assert entry as int == k;
    }
  }

  /** After the erase, no handled base is left, and every other line remains. */
  lemma EraseHandled(g: seq<Delta>, found: map<int, Found>)
    requires FoundIn(found, g) && UniqueBases(g)
    ensures forall e :: e in EraseAt(g, Handled(found)) <==> e in g && e.base !in found
  {
    forall k | 0 <= k < |g|
      ensures k in Handled(found) <==> g[k].base in found
    {
      HandledAt(g, found, k);
    }
  }

  /** What the reconciliation job produces: the matched drops and pickups per base, and the lines left unexplained. */
  datatype Outcome = Outcome(drops: map<int, seq<Stack>>, pickups: map<int, seq<Stack>>, unmatched: seq<Delta>)

  /**
   * ScanContainer's job: the zero lines go; siblings net their deltas out;
   * then, if anything is left, the appeared references are matched as drops
   * and the handled lines erased, then the vanished references as pickups on
   * what remains and those lines erased too.
   */
  function Reconcile(g0: seq<Delta>, id: int, cell: int, sibs: seq<Sibling>,
                     appeared: seq<int>, vanished: seq<int>, dropInfo: Lookup, pickInfo: Lookup): (r: Outcome)
    ensures forall e :: e in r.unmatched ==> e.count != 0 && e in NonZero(NetAcross(NonZero(g0), id, cell, sibs))
  {
    var g1 := NonZero(g0);
    if g1 == [] then Outcome(map[], map[], [])
    else
      var g := NonZero(NetAcross(g1, id, cell, sibs));
      if g == [] then Outcome(map[], map[], [])
      else MatchPhases(g, appeared, vanished, dropInfo, pickInfo)
  }

  /** The drop phase, then the pickup phase on what the drops left. */
  function MatchPhases(g: seq<Delta>, appeared: seq<int>, vanished: seq<int>, dropInfo: Lookup, pickInfo: Lookup): (r: Outcome)
    ensures |r.unmatched| <= |g| && forall e :: e in r.unmatched ==> e in g
    ensures r.drops.Keys <= set e | e in g :: e.base
  {
    var dropFound := Admit(g, appeared, dropInfo, true);
    var afterDrops := EraseAt(g, Handled(dropFound));
    var pickFound := Admit(afterDrops, vanished, pickInfo, false);
    var left := EraseAt(afterDrops, Handled(pickFound));
    assert forall e :: e in left ==> e in afterDrops;
    assert forall e :: e in afterDrops ==> e in g;
    forall b | b in dropFound
      ensures b in set e | e in g :: e.base
    {
      var e := g[FirstOf(g, b)];
      assert e in g && e.base == b;
    }
    Outcome(Matches(dropFound, g), Matches(pickFound, afterDrops), left)
  }

  /**
   * The game's answers in the drop phase: GetBase's, then GetRefCount's;
   * None when the five-second wait for it failed.
   */
  datatype Answer = Answer(base: Option<int>, count: Option<int>)
  type Answers = int -> Answer

  /**
   * Admitting a dropped refID waits in vain: its base never arrives, or its
   * base has a losing line and its count never arrives.
   */
  predicate Stalls(g: seq<Delta>, a: Answer)
  {
    a.base.None? || (FirstOf(g, a.base.value) < |g| && g[FirstOf(g, a.base.value)].count < 0 && a.count.None?)
  }

  /** The item admission reads from the answers of a refID whose waits succeeded. */
  function Read(a: Answer): (it: Option<Item>)
    ensures it.Some? <==> a.base.Some? && a.count.Some?
    ensures it.Some? ==> it.value == Item(a.base.value, a.count.value)
  {
    if a.base.Some? && a.count.Some? then Some(Item(a.base.value, a.count.value)) else None
  }

  function Reads(ans: Answers): Lookup
  {
    x => Read(ans(x))
  }

  /**
   * The drop admission loop with its waits: the first refID whose wait
   * fails throws, and the job's catch abandons the whole reconciliation.
   */
  function AdmitWaiting(g: seq<Delta>, refIDs: seq<int>, ans: Answers): (r: Result<map<int, Found>>)
    ensures r.Ok? <==> forall x :: x in refIDs ==> !Stalls(g, ans(x))
    ensures r.Err? ==> r.error == Timeout
    ensures r.Ok? ==> r.value == Admit(g, refIDs, Reads(ans), true)
    decreases |refIDs|
  {
    if refIDs == [] then Ok(map[])
    else
      var init, x := refIDs[..|refIDs| - 1], refIDs[|refIDs| - 1];
      assert refIDs == init + [x];
      match AdmitWaiting(g, init, ans)
      case Err(e) => Err(e)
      case Ok(found) =>
        if Stalls(g, ans(x)) then Err(Timeout)
        else Ok(AdmitOne(found, g, x, Read(ans(x)), true))
  }

  /**
   * ScanContainer's job as it runs: Reconcile when every wait of the drop
   * phase succeeds; a failed wait ends the job with nothing produced. The
   * pickup phase reads the factory's objects and waits for nothing.
   */
  function ReconcileJob(g0: seq<Delta>, id: int, cell: int, sibs: seq<Sibling>,
                        appeared: seq<int>, vanished: seq<int>, dropAns: Answers, pickInfo: Lookup): (r: Result<Outcome>)
    ensures r.Ok? ==> r.value == Reconcile(g0, id, cell, sibs, appeared, vanished, Reads(dropAns), pickInfo)
    ensures r.Err? <==> NonZero(g0) != [] && NonZero(NetAcross(NonZero(g0), id, cell, sibs)) != [] &&
                        exists x :: x in appeared && Stalls(NonZero(NetAcross(NonZero(g0), id, cell, sibs)), dropAns(x))
    ensures r.Err? ==> r.error == Timeout
  {
    var g1 := NonZero(g0);
    if g1 == [] then Ok(Outcome(map[], map[], []))
    else
      var g := NonZero(NetAcross(g1, id, cell, sibs));
      if g == [] then Ok(Outcome(map[], map[], []))
      else
        match AdmitWaiting(g, appeared, dropAns)
        case Err(e) => Err(e)
        case Ok(dropFound) =>
          var afterDrops := EraseAt(g, Handled(dropFound));
          var pickFound := Admit(afterDrops, vanished, pickInfo, false);
          Ok(Outcome(Matches(dropFound, g), Matches(pickFound, afterDrops), EraseAt(afterDrops, Handled(pickFound))))
  }

  /** A job whose every wait is answered produces the sound reconciliation. */
  lemma AnsweredJobIsSound(g0: seq<Delta>, id: int, cell: int, sibs: seq<Sibling>,
                           appeared: seq<int>, vanished: seq<int>, dropAns: Answers, pickInfo: Lookup)
    requires UniqueBases(g0)
    requires forall x :: x in appeared ==> dropAns(x).base.Some? && dropAns(x).count.Some?
    ensures ReconcileJob(g0, id, cell, sibs, appeared, vanished, dropAns, pickInfo).Ok?
    ensures Sound(ReconcileJob(g0, id, cell, sibs, appeared, vanished, dropAns, pickInfo).value,
                  appeared, vanished, Reads(dropAns), pickInfo)
  {
    ReconcileSound(g0, id, cell, sibs, appeared, vanished, Reads(dropAns), pickInfo);
  }

  /** The diff the matching phases start from has no zero line and one line per base. */
  lemma NettedUnique(g0: seq<Delta>, id: int, cell: int, sibs: seq<Sibling>)
    requires UniqueBases(g0)
    ensures UniqueBases(NonZero(NetAcross(NonZero(g0), id, cell, sibs)))
  {
    var g1 := NonZero(g0);
    UniqueNonZero(g0);
    NetAcrossShape(g1, id, cell, sibs);
    UniqueKeptByShape(g1, NetAcross(g1, id, cell, sibs));
    UniqueNonZero(NetAcross(g1, id, cell, sibs));
  }

  /** Every stack matched for a base is made of `refIDs` whose lookup gives that base and that count. */
  ghost predicate MatchedFrom(m: map<int, seq<Stack>>, refIDs: seq<int>, info: Lookup)
  {
    forall b, st :: b in m && st in m[b] ==> st.refID in refIDs && info(st.refID) == Some(Item(b, st.count))
  }

  /** Every line left over is nonzero and of a base that took part in no match. */
  ghost predicate LeftOver(left: seq<Delta>, drops: map<int, seq<Stack>>, pickups: map<int, seq<Stack>>)
  {
    forall e :: e in left ==> e.count != 0 && e.base !in drops && e.base !in pickups
  }

  /** Every matched stack is an admitted candidate of its base. */
  lemma MatchedAreAdmitted(m: map<int, seq<Stack>>, g: seq<Delta>, refIDs: seq<int>, info: Lookup, dropping: bool)
    requires m == Matches(Admit(g, refIDs, info, dropping), g)
    ensures MatchedFrom(m, refIDs, info)
  {
    var found := Admit(g, refIDs, info, dropping);
    AdmitOnlyAdmissible(g, refIDs, info, dropping);
    forall b: int, st: Stack | b in m && st in m[b]
      ensures st.refID in refIDs && info(st.refID) == Some(Item(b, st.count))
    {
      SubseqMembers(m[b], found[b].stacks, st);
      assert Admissible(g, refIDs, info, dropping, b, st);
    }
  }

  /**
   * What a reconciliation promises: every matched drop is made of appeared
   * references of that base, every matched pickup of vanished references of
   * that base, and a line is left unmatched only when its count is nonzero and
   * its base took part in no match.
   */
  ghost predicate Sound(r: Outcome, appeared: seq<int>, vanished: seq<int>, dropInfo: Lookup, pickInfo: Lookup)
  {
    MatchedFrom(r.drops, appeared, dropInfo) && MatchedFrom(r.pickups, vanished, pickInfo) &&
    LeftOver(r.unmatched, r.drops, r.pickups)
  }

  /** With one line per base in the container's diff, every reconciliation is sound. */
  lemma ReconcileSound(g0: seq<Delta>, id: int, cell: int, sibs: seq<Sibling>,
                       appeared: seq<int>, vanished: seq<int>, dropInfo: Lookup, pickInfo: Lookup)
    requires UniqueBases(g0)
    ensures Sound(Reconcile(g0, id, cell, sibs, appeared, vanished, dropInfo, pickInfo), appeared, vanished, dropInfo, pickInfo)
  {
    var g1 := NonZero(g0);
    var g := NonZero(NetAcross(g1, id, cell, sibs));
    if g1 != [] && g != [] {
      NettedUnique(g0, id, cell, sibs);
      MatchPhasesSound(g, appeared, vanished, dropInfo, pickInfo);
    }
  }

  /** The two matching phases on a diff with nonzero lines, one per base, are sound. */
  lemma MatchPhasesSound(g: seq<Delta>, appeared: seq<int>, vanished: seq<int>, dropInfo: Lookup, pickInfo: Lookup)
    requires UniqueBases(g) && forall k :: 0 <= k < |g| ==> g[k].count != 0
    ensures Sound(MatchPhases(g, appeared, vanished, dropInfo, pickInfo), appeared, vanished, dropInfo, pickInfo)
  {
    var dropFound := Admit(g, appeared, dropInfo, true);
    var afterDrops := EraseAt(g, Handled(dropFound));
    var pickFound := Admit(afterDrops, vanished, pickInfo, false);
    var drops := Matches(dropFound, g);
    var pickups := Matches(pickFound, afterDrops);
    MatchedAreAdmitted(drops, g, appeared, dropInfo, true);
    MatchedAreAdmitted(pickups, afterDrops, vanished, pickInfo, false);
    UnmatchedLeft(g, dropFound, afterDrops, pickFound, EraseAt(afterDrops, Handled(pickFound)), drops.Keys, pickups.Keys);
  }

  /** The lines both erasures leave are nonzero lines of `g` whose base neither phase handled. */
  lemma UnmatchedLeft(g: seq<Delta>, dropFound: map<int, Found>, afterDrops: seq<Delta>, pickFound: map<int, Found>,
                      left: seq<Delta>, dropped: set<int>, picked: set<int>)
    requires UniqueBases(g) && forall k :: 0 <= k < |g| ==> g[k].count != 0
    requires FoundIn(dropFound, g) && afterDrops == EraseAt(g, Handled(dropFound))
    requires FoundIn(pickFound, afterDrops) && left == EraseAt(afterDrops, Handled(pickFound))
    requires dropped == dropFound.Keys && picked == pickFound.Keys
    ensures forall e :: e in left ==> e.count != 0 && e.base !in dropped && e.base !in picked
  {
    EraseHandled(g, dropFound);
    UniqueErase(g, Handled(dropFound));
    EraseHandled(afterDrops, pickFound);
    forall e | e in left
      ensures e.count != 0 && e.base !in dropped && e.base !in picked
    {
      assert e in afterDrops;
      assert e in g;
    }
  }

  lemma {:induction false} SubseqMembers(s: seq<Stack>, data: seq<Stack>, x: Stack)
    requires SubseqOf(s, data) && x in s
    ensures x in data
    decreases |data|
  {
    assert s != [] && data != [];
    if s[0] == data[0] && SubseqOf(s[1..], data[1..]) {
      if x != s[0] {
        assert x in s[1..];
        SubseqMembers(s[1..], data[1..], x);
      }
    } else {
      SubseqMembers(s, data[1..], x);
    }
  }

  lemma UniqueNonZero(g: seq<Delta>)
    requires UniqueBases(g)
    ensures UniqueBases(NonZero(g))
  {
    var r := NonZero(g);
    forall i, j | 0 <= i < j < |r|
      ensures r[i].base != r[j].base
    {
      assert r[i] in multiset(r) && r[j] in multiset(r);
      assert r[i] in g && r[j] in g;
      var a :| 0 <= a < |g| && g[a] == r[i];
      var b :| 0 <= b < |g| && g[b] == r[j];
      if a == b {
        assert r[i] == r[j];
        EqualInNonZero(g, r, i, j);
      }
    }
  }

  /** Two positions of the filtered diff never hold the same line when the bases are unique. */
  lemma {:induction false} EqualInNonZero(g: seq<Delta>, r: seq<Delta>, i: int, j: int)
    requires UniqueBases(g) && r == NonZero(g) && 0 <= i < j < |r|
    ensures r[i] != r[j]
  {
    if r[i] == r[j] {
      TwiceInMultiset(r, i, j);
      MultiplicityOne(g, r[i]);
    }
  }

  /** A line at two positions occurs at least twice in the multiset. */
  lemma TwiceInMultiset(r: seq<Delta>, i: int, j: int)
    requires 0 <= i < j < |r| && r[i] == r[j]
    ensures multiset(r)[r[i]] >= 2
  {
    assert r == r[..j] + r[j..];
    assert r[..j][i] == r[i];
    assert r[j..][0] == r[i];
    assert multiset(r[..j])[r[i]] >= 1;
    assert multiset(r[j..])[r[i]] >= 1;
  }

  lemma MultiplicityOne(g: seq<Delta>, e: Delta)
    requires UniqueBases(g)
    ensures multiset(g)[e] <= 1
  {
    if g != [] {
      assert g == [g[0]] + g[1..];
      MultiplicityOne(g[1..], e);
      if g[0] == e {
        assert forall k :: 0 <= k < |g[1..]| ==> g[1..][k].base != e.base;
        assert e !in g[1..];
      }
    }
  }

  lemma UniqueKeptByShape(g: seq<Delta>, h: seq<Delta>)
    requires UniqueBases(g) && |h| == |g| && forall k :: 0 <= k < |g| ==> h[k].base == g[k].base
    ensures UniqueBases(h)
  {
  }

  lemma UniqueErase(g: seq<Delta>, idx: set<int>)
    requires UniqueBases(g)
    ensures UniqueBases(EraseAt(g, idx))
  {
    var r := EraseAt(g, idx);
    forall i, j | 0 <= i < j < |r|
      ensures r[i].base != r[j].base
    {
      ErasePositions(g, idx, i, j);
    }
  }

  /** The erase keeps lines in order: two positions of the result come from two increasing positions of `g`. */
  lemma {:induction false} ErasePositions(g: seq<Delta>, idx: set<int>, i: int, j: int)
    requires 0 <= i < j < |EraseAt(g, idx)|
    ensures exists a, b :: 0 <= a < b < |g| && g[a] == EraseAt(g, idx)[i] && g[b] == EraseAt(g, idx)[j]
    decreases |g|
  {
    var n := |g| - 1;
    var init := EraseAt(g[..n], idx);
    var r := EraseAt(g, idx);
    assert forall k :: 0 <= k < n ==> g[..n][k] == g[k];
    if j < |init| {
      ErasePositions(g[..n], idx, i, j);
      var a, b :| 0 <= a < b < n && g[..n][a] == init[i] && g[..n][b] == init[j];
      assert g[a] == r[i] && g[b] == r[j];
    } else {
      assert r[j] == g[n] && r[i] == init[i];
      assert init[i] in init;
      var a :| 0 <= a < n && a !in idx && g[..n][a] == init[i];
      assert g[a] == r[i];
    }
  }
}
