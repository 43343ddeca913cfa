/**
 * The last part of net_UpdateContext: every object of a cell that left the
 * context is disabled unless it is persistent, and every object of a cell
 * that entered it is enabled and brought into that cell. The cells of the
 * diff are the sorted vectors set_difference fills, so they are walked
 * ascending, repeats included; the refIDs of a bucket are a std::set and are
 * walked ascending too.
 * The type buckets of a cell sit in an unordered_map, which fixes no order;
 * the model walks them in ascending type order.
 */
module Switching {
  import opened Base
  import opened CellSets
  import opened RefSets

  /** What the context switch reads and writes of one object the client has. */
  datatype Known = Known(persistent: bool, enabled: bool, gameCell: int)

  /** refID -> object; a refID without an entry is a static reference the client has no object for. */
  type Objects = map<int, Known>

  ghost predicate StrictlyAscending(s: seq<int>)
  {
    forall i, j :: 0 <= i < j < |s| ==> s[i] < s[j]
  }

  /** A finite set of integers other than the empty one has a least element. */
  lemma {:induction false} MinExists(s: set<int>)
    requires s != {}
    ensures exists m :: m in s && forall y :: y in s ==> m <= y
    decreases |s|
  {
    NonEmptyHasElement(s);
    var x :| x in s;
    if s - {x} == {} {
      forall y | y in s
        ensures x <= y
      {
        assert y !in s - {x};
      }
    } else {
      MinExists(s - {x});
      var m :| m in s - {x} && forall y :: y in s - {x} ==> m <= y;
      var least := if x < m then x else m;
      forall y | y in s
        ensures least <= y
      {
        if y != x {
          assert y in s - {x};
        }
      }
      assert least in s;
    }
  }

  /** The first element a std::set iterates: its least. */
  function Least(s: set<int>): (m: int)
    requires s != {}
    ensures m in s && forall y :: y in s ==> m <= y
  {
    MinExists(s);
    var m :| m in s && forall y :: y in s ==> m <= y;
    m
  }

  /** The elements of a set in the order a std::set iterates them. */
  function Ascending(s: set<int>): (r: seq<int>)
    ensures Elems(r) == s
    ensures StrictlyAscending(r)
    decreases |s|
  {
    if s == {} then []
    else
      var m := Least(s);
      var rest := Ascending(s - {m});
      PrependLeast(s, m, rest);
      [m] + rest
  }

  lemma PrependLeast(s: set<int>, m: int, rest: seq<int>)
    requires m in s && forall y :: y in s ==> m <= y
    requires Elems(rest) == s - {m} && StrictlyAscending(rest)
    ensures Elems([m] + rest) == s && StrictlyAscending([m] + rest)
  {
    ElemsAppend([m], rest);
    assert Elems([m]) == {m};
    forall i, j | 0 <= i < j < |[m] + rest|
      ensures ([m] + rest)[i] < ([m] + rest)[j]
    {
      assert rest[j - 1] in Elems(rest);
      if i > 0 {
        assert ([m] + rest)[i] == rest[i - 1];
      }
    }
  }

  /** Every refID of a cell's buckets, whatever its type. */
  ghost function AllRefs(inner: map<int, set<int>>): set<int>
  {
    set t, x | t in inner && x in inner[t] :: x
  }

  /** The buckets under `types`, one after the other. */
  function Flatten(inner: map<int, set<int>>, types: seq<int>): (r: seq<int>)
    requires forall i :: 0 <= i < |types| ==> types[i] in inner
    ensures forall x :: x in r <==> exists t :: t in types && t in inner && x in inner[t]
    decreases |types|
  {
    if types == [] then []
    else
      var head := Ascending(inner[types[0]]);
      var rest := Flatten(inner, types[1..]);
      assert forall x :: x in head <==> x in inner[types[0]] by {
        assert Elems(head) == inner[types[0]];
      }
      assert forall t :: t in types <==> t == types[0] || t in types[1..];
      head + rest
  }

  /**
   * The refIDs of one copied cell: the type buckets in ascending type order
   * (the model's choice for the unordered_map), each bucket ascending.
   */
  function CellOrder(inner: map<int, set<int>>): (r: seq<int>)
    ensures forall x :: x in r <==> x in AllRefs(inner)
  {
    var types := Ascending(inner.Keys);
    assert forall t :: t in types <==> t in inner by {
      assert Elems(types) == inner.Keys;
    }
    assert forall i :: 0 <= i < |types| ==> types[i] in inner by {
      assert forall i :: 0 <= i < |types| ==> types[i] in types;
    }
    Flatten(inner, types)
  }

  /** The disable step for one refID of a cell that left the context. */
  function Leave(objs: Objects, ref: int): (Objects, seq<Command>)
  {
    if ref == PLAYER_REFERENCE || ref !in objs || objs[ref].persistent || !objs[ref].enabled then (objs, [])
    else (objs[ref := objs[ref].(enabled := false)], [ToggleEnabled(ref)])
  }

  /** The enable and move step for one refID of a cell that entered the context. */
  function Enter(objs: Objects, ref: int, cell: int): (Objects, seq<Command>)
  {
    if ref == PLAYER_REFERENCE || ref !in objs then (objs, [])
    else
      var o := objs[ref];
      (objs[ref := Known(o.persistent, true, cell)],
       (if o.enabled then [] else [ToggleEnabled(ref)]) +
       (if o.gameCell == cell then [] else [MoveTo(ref, PLAYER_REFERENCE, true, NO_KEY)]))
  }

  /** The disable steps for `refs`, in order. */
  function LeaveAll(objs: Objects, refs: seq<int>): (Objects, seq<Command>)
    decreases |refs|
  {
    if refs == [] then (objs, [])
    else
      var done := LeaveAll(objs, refs[..|refs| - 1]);
      var step := Leave(done.0, refs[|refs| - 1]);
      (step.0, done.1 + step.1)
  }

  /** The enable and move steps for `refs` of `cell`, in order. */
  function EnterAll(objs: Objects, refs: seq<int>, cell: int): (Objects, seq<Command>)
    decreases |refs|
  {
    if refs == [] then (objs, [])
    else
      var done := EnterAll(objs, refs[..|refs| - 1], cell);
      var step := Enter(done.0, refs[|refs| - 1], cell);
      (step.0, done.1 + step.1)
  }

  /** The disable loop over the nonzero cells that left the context. */
  function LeaveCells(objs: Objects, copy: CellRefs, cells: seq<int>): (Objects, seq<Command>)
    decreases |cells|
  {
    if cells == [] then (objs, [])
    else
      var done := LeaveCells(objs, copy, cells[..|cells| - 1]);
      var cell := cells[|cells| - 1];
      if cell == 0 then done
      else
        var step := LeaveAll(done.0, CellOrder(Inner(copy, cell)));
        (step.0, done.1 + step.1)
  }

  /** The enable loop over the nonzero cells that entered the context. */
  function EnterCells(objs: Objects, copy: CellRefs, cells: seq<int>): (Objects, seq<Command>)
    decreases |cells|
  {
    if cells == [] then (objs, [])
    else
      var done := EnterCells(objs, copy, cells[..|cells| - 1]);
      var cell := cells[|cells| - 1];
      if cell == 0 then done
      else
        var step := EnterAll(done.0, CellOrder(Inner(copy, cell)), cell);
        (step.0, done.1 + step.1)
  }

  /** Both loops: the leaving cells first, then the entering ones. */
  function Switch(objs: Objects, copy: CellRefs, leaving: seq<int>, entering: seq<int>): (Objects, seq<Command>)
  {
    var left := LeaveCells(objs, copy, leaving);
    var entered := EnterCells(left.0, copy, entering);
    (entered.0, left.1 + entered.1)
  }

  /** `r` is in a bucket of one of the nonzero `cells`. */
  ghost predicate InCells(copy: CellRefs, cells: seq<int>, r: int)
  {
    exists c :: c in cells && c != 0 && r in AllRefs(Inner(copy, c))
  }

  /** The last of the nonzero `cells` whose buckets hold `r`, 0 when there is none. */
  ghost function LastCell(copy: CellRefs, cells: seq<int>, r: int): int
    decreases |cells|
  {
    if cells == [] then 0
    else
      var cell := cells[|cells| - 1];
      if cell != 0 && r in AllRefs(Inner(copy, cell)) then cell else LastCell(copy, cells[..|cells| - 1], r)
  }

  lemma {:induction false} LastCellHolds(copy: CellRefs, cells: seq<int>, r: int)
    requires InCells(copy, cells, r)
    ensures LastCell(copy, cells, r) in cells && LastCell(copy, cells, r) != 0
    ensures r in AllRefs(Inner(copy, LastCell(copy, cells, r)))
    decreases |cells|
  {
    var init, cell := cells[..|cells| - 1], cells[|cells| - 1];
    assert cells == init + [cell];
    if !(cell != 0 && r in AllRefs(Inner(copy, cell))) {
      var c :| c in cells && c != 0 && r in AllRefs(Inner(copy, c));
      assert c in init;
      LastCellHolds(copy, init, r);
    }
  }

  lemma InCellsStep(copy: CellRefs, cells: seq<int>, r: int)
    requires cells != []
    ensures InCells(copy, cells, r) <==>
            InCells(copy, cells[..|cells| - 1], r) ||
            (cells[|cells| - 1] != 0 && r in AllRefs(Inner(copy, cells[|cells| - 1])))
  {
    assert cells == cells[..|cells| - 1] + [cells[|cells| - 1]];
    if InCells(copy, cells, r) {
      var c :| c in cells && c != 0 && r in AllRefs(Inner(copy, c));
      if c != cells[|cells| - 1] {
        assert c in cells[..|cells| - 1];
      }
    }
  }

  /** Over cells whose copied buckets are the index's own, the copy and the index hold the same refIDs. */
  lemma {:induction false} CopyHoldsSame(copy: CellRefs, refs: CellRefs, cells: seq<int>, r: int)
    requires forall c :: c in cells && c != 0 ==> c in copy && copy[c] == Inner(refs, c)
    ensures InCells(copy, cells, r) <==> InCells(refs, cells, r)
    ensures LastCell(copy, cells, r) == LastCell(refs, cells, r)
    decreases |cells|
  {
    assert forall c :: c in cells && c != 0 ==> Inner(copy, c) == Inner(refs, c);
    if cells != [] {
      var init := cells[..|cells| - 1];
      assert forall c :: c in init ==> c in cells;
      CopyHoldsSame(copy, refs, init, r);
    }
  }

  /** The disable steps leave every key, and turn off exactly the non-persistent objects of `refs`. */
  lemma {:induction false} LeaveAllState(objs: Objects, refs: seq<int>)
    ensures LeaveAll(objs, refs).0.Keys == objs.Keys
    ensures forall r :: r in objs ==>
              LeaveAll(objs, refs).0[r] ==
              (if r in refs && r != PLAYER_REFERENCE && !objs[r].persistent then objs[r].(enabled := false) else objs[r])
    decreases |refs|
  {
    if refs != [] {
      var init, last := refs[..|refs| - 1], refs[|refs| - 1];
      assert refs == init + [last];
      LeaveAllState(objs, init);
    }
  }

  /** The enable steps leave every key, and put exactly the objects of `refs` enabled into `cell`. */
  lemma {:induction false} EnterAllState(objs: Objects, refs: seq<int>, cell: int)
    ensures EnterAll(objs, refs, cell).0.Keys == objs.Keys
    ensures forall r :: r in objs ==>
              EnterAll(objs, refs, cell).0[r] ==
              (if r in refs && r != PLAYER_REFERENCE then Known(objs[r].persistent, true, cell) else objs[r])
    decreases |refs|
  {
    if refs != [] {
      var init, last := refs[..|refs| - 1], refs[|refs| - 1];
      assert refs == init + [last];
      EnterAllState(objs, init, cell);
    }
  }

  /** After the disable loop, exactly the non-persistent objects of the leaving cells are off. */
  lemma {:induction false} LeaveCellsState(objs: Objects, copy: CellRefs, cells: seq<int>)
    ensures LeaveCells(objs, copy, cells).0.Keys == objs.Keys
    ensures forall r :: r in objs ==>
              LeaveCells(objs, copy, cells).0[r] ==
              (if InCells(copy, cells, r) && r != PLAYER_REFERENCE && !objs[r].persistent
               then objs[r].(enabled := false) else objs[r])
    decreases |cells|
  {
    if cells != [] {
      var init, cell := cells[..|cells| - 1], cells[|cells| - 1];
      LeaveCellsState(objs, copy, init);
      forall r | r in objs
        ensures InCells(copy, cells, r) <==>
                InCells(copy, init, r) || (cell != 0 && r in AllRefs(Inner(copy, cell)))
      {
        InCellsStep(copy, cells, r);
      }
      if cell != 0 {
        LeaveAllState(LeaveCells(objs, copy, init).0, CellOrder(Inner(copy, cell)));
      }
    }
  }

  /** After the enable loop, exactly the objects of the entering cells are on, each in the last of them that holds it. */
  lemma {:induction false} EnterCellsState(objs: Objects, copy: CellRefs, cells: seq<int>)
    ensures EnterCells(objs, copy, cells).0.Keys == objs.Keys
    ensures forall r :: r in objs ==>
              EnterCells(objs, copy, cells).0[r] ==
              (if InCells(copy, cells, r) && r != PLAYER_REFERENCE
               then Known(objs[r].persistent, true, LastCell(copy, cells, r)) else objs[r])
    decreases |cells|
  {
    if cells != [] {
      var init, cell := cells[..|cells| - 1], cells[|cells| - 1];
      EnterCellsState(objs, copy, init);
      forall r | r in objs
        ensures InCells(copy, cells, r) <==>
                InCells(copy, init, r) || (cell != 0 && r in AllRefs(Inner(copy, cell)))
      {
        InCellsStep(copy, cells, r);
      }
      if cell != 0 {
        EnterAllState(EnterCells(objs, copy, init).0, CellOrder(Inner(copy, cell)), cell);
      }
    }
  }

  /**
   * The context switch, object by object: an object of an entering cell
   * ends enabled in the last entering cell that holds it; an object only
   * of leaving cells ends disabled unless it is persistent; the player and
   * every other object are left as they were.
   */
  lemma SwitchState(objs: Objects, copy: CellRefs, leaving: seq<int>, entering: seq<int>)
    ensures Switch(objs, copy, leaving, entering).0.Keys == objs.Keys
    ensures forall r :: r in objs && r != PLAYER_REFERENCE && InCells(copy, entering, r) ==>
              Switch(objs, copy, leaving, entering).0[r] ==
              Known(objs[r].persistent, true, LastCell(copy, entering, r))
    ensures forall r :: r in objs && r != PLAYER_REFERENCE && !InCells(copy, entering, r) &&
                        InCells(copy, leaving, r) && !objs[r].persistent ==>
              Switch(objs, copy, leaving, entering).0[r] == objs[r].(enabled := false)
    ensures forall r :: r in objs && (r == PLAYER_REFERENCE ||
                        (!InCells(copy, entering, r) && (!InCells(copy, leaving, r) || objs[r].persistent))) ==>
              Switch(objs, copy, leaving, entering).0[r] == objs[r]
  {
    LeaveCellsState(objs, copy, leaving);
    EnterCellsState(LeaveCells(objs, copy, leaving).0, copy, entering);
  }

  /** SwitchState read against the index the copy was taken from. */
  lemma SwitchOnIndex(objs: Objects, copy: CellRefs, refs: CellRefs, leaving: seq<int>, entering: seq<int>)
    requires forall c :: c in leaving && c != 0 ==> c in copy && copy[c] == Inner(refs, c)
    requires forall c :: c in entering && c != 0 ==> c in copy && copy[c] == Inner(refs, c)
    ensures Switch(objs, copy, leaving, entering).0.Keys == objs.Keys
    ensures forall r :: r in objs && r != PLAYER_REFERENCE && InCells(refs, entering, r) ==>
              Switch(objs, copy, leaving, entering).0[r] ==
              Known(objs[r].persistent, true, LastCell(refs, entering, r))
    ensures forall r :: r in objs && r != PLAYER_REFERENCE && !InCells(refs, entering, r) &&
                        InCells(refs, leaving, r) && !objs[r].persistent ==>
              Switch(objs, copy, leaving, entering).0[r] == objs[r].(enabled := false)
    ensures forall r :: r in objs && (r == PLAYER_REFERENCE ||
                        (!InCells(refs, entering, r) && (!InCells(refs, leaving, r) || objs[r].persistent))) ==>
              Switch(objs, copy, leaving, entering).0[r] == objs[r]
  {
    SwitchState(objs, copy, leaving, entering);
    forall r
      ensures InCells(copy, entering, r) <==> InCells(refs, entering, r)
      ensures InCells(copy, leaving, r) <==> InCells(refs, leaving, r)
      ensures LastCell(copy, entering, r) == LastCell(refs, entering, r)
    {
      CopyHoldsSame(copy, refs, entering, r);
      CopyHoldsSame(copy, refs, leaving, r);
    }
  }

  /** The commands of a switch: ToggleEnabled, or MoveTo the player, of an object other than the player. */
  ghost predicate SwitchCommand(objs: Objects, c: Command)
  {
    (c.ToggleEnabled? || c.MoveTo?) && c.ref != PLAYER_REFERENCE && c.ref in objs &&
    (c.MoveTo? ==> c.target == PLAYER_REFERENCE && c.toCell && c.key == NO_KEY)
  }

  lemma {:induction false} LeaveAllCommands(objs: Objects, refs: seq<int>)
    ensures forall c :: c in LeaveAll(objs, refs).1 ==> SwitchCommand(objs, c) && c.ToggleEnabled? && c.ref in refs
    decreases |refs|
  {
    if refs != [] {
      var init, last := refs[..|refs| - 1], refs[|refs| - 1];
      assert refs == init + [last];
      LeaveAllCommands(objs, init);
      LeaveAllState(objs, init);
    }
  }

  lemma {:induction false} EnterAllCommands(objs: Objects, refs: seq<int>, cell: int)
    ensures forall c :: c in EnterAll(objs, refs, cell).1 ==> SwitchCommand(objs, c) && c.ref in refs
    decreases |refs|
  {
    if refs != [] {
      var init, last := refs[..|refs| - 1], refs[|refs| - 1];
      assert refs == init + [last];
      EnterAllCommands(objs, init, cell);
      EnterAllState(objs, init, cell);
    }
  }

  lemma {:induction false} LeaveCellsCommands(objs: Objects, copy: CellRefs, cells: seq<int>)
    ensures forall c :: c in LeaveCells(objs, copy, cells).1 ==>
              SwitchCommand(objs, c) && c.ToggleEnabled? && InCells(copy, cells, c.ref)
    decreases |cells|
  {
    if cells != [] {
      var init, cell := cells[..|cells| - 1], cells[|cells| - 1];
      LeaveCellsCommands(objs, copy, init);
      LeaveCellsState(objs, copy, init);
      forall r
        ensures InCells(copy, init, r) || (cell != 0 && r in AllRefs(Inner(copy, cell))) ==> InCells(copy, cells, r)
      {
        InCellsStep(copy, cells, r);
      }
      if cell != 0 {
        LeaveAllCommands(LeaveCells(objs, copy, init).0, CellOrder(Inner(copy, cell)));
      }
    }
  }

  lemma {:induction false} EnterCellsCommands(objs: Objects, copy: CellRefs, cells: seq<int>)
    ensures forall c :: c in EnterCells(objs, copy, cells).1 ==> SwitchCommand(objs, c) && InCells(copy, cells, c.ref)
    decreases |cells|
  {
    if cells != [] {
      var init, cell := cells[..|cells| - 1], cells[|cells| - 1];
      EnterCellsCommands(objs, copy, init);
      EnterCellsState(objs, copy, init);
      forall r
        ensures InCells(copy, init, r) || (cell != 0 && r in AllRefs(Inner(copy, cell))) ==> InCells(copy, cells, r)
      {
        InCellsStep(copy, cells, r);
      }
      if cell != 0 {
        EnterAllCommands(EnterCells(objs, copy, init).0, CellOrder(Inner(copy, cell)), cell);
      }
    }
  }

  /**
   * A switch issues only ToggleEnabled and MoveTo-the-player commands,
   * each for an object other than the player, of a leaving or an entering
   * cell; the ToggleEnabled commands of the disable loop come first.
   */
  lemma SwitchCommands(objs: Objects, copy: CellRefs, leaving: seq<int>, entering: seq<int>)
    ensures forall c :: c in Switch(objs, copy, leaving, entering).1 ==>
              SwitchCommand(objs, c) && (InCells(copy, leaving, c.ref) || InCells(copy, entering, c.ref))
    ensures forall c :: c in LeaveCells(objs, copy, leaving).1 ==> c.ToggleEnabled?
    ensures Switch(objs, copy, leaving, entering).1 ==
            LeaveCells(objs, copy, leaving).1 + EnterCells(LeaveCells(objs, copy, leaving).0, copy, entering).1
  {
    LeaveCellsCommands(objs, copy, leaving);
    LeaveCellsState(objs, copy, leaving);
    EnterCellsCommands(LeaveCells(objs, copy, leaving).0, copy, entering);
  }

  /** The disable loop over the refIDs of one leaving cell. */
  method DisableRefs(objs: Objects, refs: seq<int>) returns (res: Objects, cmds: seq<Command>)
    ensures (res, cmds) == LeaveAll(objs, refs)
  {
    res, cmds := objs, [];
    var j := 0;
    while j < |refs|
      invariant 0 <= j <= |refs|
      invariant (res, cmds) == LeaveAll(objs, refs[..j])
    {
      assert refs[..j + 1][..j] == refs[..j];
      var ref := refs[j];
      ghost var step := Leave(res, ref);
      ghost var before := cmds;
      if ref != PLAYER_REFERENCE && ref in res && !res[ref].persistent && res[ref].enabled {
        res := res[ref := res[ref].(enabled := false)];
        cmds := cmds + [ToggleEnabled(ref)];
      }
      assert res == step.0 && cmds == before + step.1;
      j := j + 1;
    }
    assert refs[..j] == refs;
  }

  /** The enable loop over the refIDs of one entering cell. */
  method EnableRefs(objs: Objects, refs: seq<int>, cell: int) returns (res: Objects, cmds: seq<Command>)
    ensures (res, cmds) == EnterAll(objs, refs, cell)
  {
    res, cmds := objs, [];
    var j := 0;
    while j < |refs|
      invariant 0 <= j <= |refs|
      invariant (res, cmds) == EnterAll(objs, refs[..j], cell)
    {
      assert refs[..j + 1][..j] == refs[..j];
      var ref := refs[j];
      ghost var step := Enter(res, ref, cell);
      ghost var before := cmds;
      if ref != PLAYER_REFERENCE && ref in res {
        var o := res[ref];
        res := res[ref := Known(o.persistent, true, cell)];
        var toggle: seq<Command> := if o.enabled then [] else [ToggleEnabled(ref)];
        var move: seq<Command> := if o.gameCell == cell then [] else [MoveTo(ref, PLAYER_REFERENCE, true, NO_KEY)];
        cmds := cmds + (toggle + move);
      }
      assert res == step.0 && cmds == before + step.1;
      j := j + 1;
    }
    assert refs[..j] == refs;
  }

  /** The loop over the cells that left the context. */
  method DisableCells(objs: Objects, copy: CellRefs, cells: seq<int>) returns (res: Objects, cmds: seq<Command>)
    ensures (res, cmds) == LeaveCells(objs, copy, cells)
  {
    res, cmds := objs, [];
    var i := 0;
    while i < |cells|
      invariant 0 <= i <= |cells|
      invariant (res, cmds) == LeaveCells(objs, copy, cells[..i])
    {
      assert cells[..i + 1][..i] == cells[..i];
      var cell := cells[i];
      if cell != 0 {
        var more;
        res, more := DisableRefs(res, CellOrder(Inner(copy, cell)));
        cmds := cmds + more;
      }
      i := i + 1;
    }
    assert cells[..i] == cells;
  }

  /** The loop over the cells that entered the context. */
  method EnableCells(objs: Objects, copy: CellRefs, cells: seq<int>) returns (res: Objects, cmds: seq<Command>)
    ensures (res, cmds) == EnterCells(objs, copy, cells)
  {
    res, cmds := objs, [];
    var i := 0;
    while i < |cells|
      invariant 0 <= i <= |cells|
      invariant (res, cmds) == EnterCells(objs, copy, cells[..i])
    {
      assert cells[..i + 1][..i] == cells[..i];
      var cell := cells[i];
      if cell != 0 {
        var more;
        res, more := EnableRefs(res, CellOrder(Inner(copy, cell)), cell);
        cmds := cmds + more;
      }
      i := i + 1;
    }
    assert cells[..i] == cells;
  }

  /** The two loops of net_UpdateContext over the copied buckets. */
  method SwitchObjects(objs: Objects, copy: CellRefs, leaving: seq<int>, entering: seq<int>)
    returns (res: Objects, cmds: seq<Command>)
    ensures (res, cmds) == Switch(objs, copy, leaving, entering)
  {
    var left, entered;
    res, left := DisableCells(objs, copy, leaving);
    res, entered := EnableCells(res, copy, entering);
    cmds := left + entered;
  }
}
