/**
 * Limb bitmasks. IsLimbGone collects one answer per limb into a 16-bit
 * mask held in a correlation slot and fulfils the slot on the last limb
 * (the weapon); KillActor expands a dismemberment mask into one Kill
 * command per set bit.
 */
module Limbs {
  import opened Base
  import opened Slots

  /**
   * The limb numbering of the engine: the query asks for torso, two head
   * parts, arms, legs, brain and weapon in this order; Limb_None stands for
   * "no limb".
   */
  const LIMB_NONE: int := -1
  const LIMB_WEAPON: int := 14
  const LIMB_COUNT: nat := 15

  /** The limbs from `a` up to, not including, `b`. */
  function Range(a: int, b: int): (r: seq<int>)
    ensures |r| == if a < b then b - a else 0
    decreases b - a
  {
    if a >= b then [] else [a] + Range(a + 1, b)
  }

  /**
   * `static_cast<unsigned short>(gone) << limb` stored into an unsigned
   * short: the bit for `limb` when the limb is gone; a shift past bit 15
   * is lost in the narrowing.
   */
  function LimbBit(limb: int, gone: bool): bv16
  {
    if gone && 0 <= limb < 16 then (1 as bv16) << (limb as bv5) else 0
  }

  /** The mask stored in a limb slot; a slot nobody answered yet holds 0. */
  function LimbBits(s: Slot): bv16
  {
    if s.value.Some? && s.value.value.LimbValue? then s.value.value.bits else 0
  }

  /**
   * IsLimbGone(key, limb, gone): "Storage has expired" without a slot,
   * "Storage is corrupted" when the slot is not a limb mask; otherwise
   * the limb's bit is ORed in, and on the weapon limb the promise is
   * fulfilled.
   */
  function IsLimbGone(store: Store, key: Key, limb: int, gone: bool): (r: Result<Store>)
    ensures r == Err(StorageExpired) <==> key !in store
    ensures r == Err(StorageCorrupted) <==> key in store && store[key].tag != LimbSlot
    ensures r.Ok? ==> r.value.Keys == store.Keys
    ensures r.Ok? ==> r.value[key] == Slot(LimbSlot, Some(LimbValue(LimbBits(store[key]) | LimbBit(limb, gone))),
                                           store[key].promised || limb == LIMB_WEAPON)
    ensures r.Ok? ==> forall k :: k in store && k != key ==> r.value[k] == store[k]
  {
    if key !in store then Err(StorageExpired)
    else if store[key].tag != LimbSlot then Err(StorageCorrupted)
    else
      var bits := LimbBits(store[key]) | LimbBit(limb, gone);
      Ok(store[key := Slot(LimbSlot, Some(LimbValue(bits)), store[key].promised || limb == LIMB_WEAPON)])
  }

  /** The answers for `limbs`, in order, fed to IsLimbGone; the first error stops the run. */
  function Feed(store: Store, key: Key, limbs: seq<int>, gones: seq<bool>): (r: Result<Store>)
    requires |limbs| == |gones|
    ensures limbs != [] && key !in store ==> r == Err(StorageExpired)
    ensures limbs != [] && key in store && store[key].tag != LimbSlot ==> r == Err(StorageCorrupted)
    ensures r.Ok? ==> r.value.Keys == store.Keys
    ensures r.Ok? ==> forall k :: k in store && k != key ==> r.value[k] == store[k]
    decreases |limbs|
  {
    if limbs == [] then Ok(store)
    else
      match IsLimbGone(store, key, limbs[0], gones[0])
      case Err(e) => Err(e)
      case Ok(s) => Feed(s, key, limbs[1..], gones[1..])
  }

  /** The mask of the first `n` answers: bit i set for each gone limb i. */
  function MaskOf(gones: seq<bool>, n: nat): bv16
    requires n <= |gones| && n <= 16
  {
    if n == 0 then 0 else MaskOf(gones, n - 1) | LimbBit(n - 1, gones[n - 1])
  }

  /** Bit i of the collected mask is set exactly when limb i was reported gone. */
  lemma {:induction false} MaskOfBits(gones: seq<bool>, n: nat, i: nat)
    requires n <= |gones| && n <= 16 && i < 16
    ensures MaskOf(gones, n) & ((1 as bv16) << (i as bv5)) != 0 <==> i < n && gones[i]
  {
    if n > 0 {
      MaskOfBits(gones, n - 1, i);
      OneBit(n - 1, i);
    }
  }

  lemma OneBit(a: nat, b: nat)
    requires a < 16 && b < 16
    ensures ((1 as bv16) << (a as bv5)) & ((1 as bv16) << (b as bv5)) != 0 <==> a == b
  {
  }

  /**
   * Answering the query for the limbs n..14 in order, on a limb slot that
   * holds the mask of the first n answers, leaves the mask of all answers;
   * the slot is fulfilled once the weapon limb was answered.
   */
  lemma {:induction false} FeedCollects(store: Store, key: Key, gones: seq<bool>, n: nat)
    requires |gones| == LIMB_COUNT && n <= LIMB_COUNT
    requires key in store && store[key].tag == LimbSlot && !store[key].promised
    requires LimbBits(store[key]) == MaskOf(gones, n)
    ensures Feed(store, key, Range(n, LIMB_COUNT), gones[n..]).Ok?
    ensures Feed(store, key, Range(n, LIMB_COUNT), gones[n..]).value.Keys == store.Keys
    ensures Feed(store, key, Range(n, LIMB_COUNT), gones[n..]).value[key].tag == LimbSlot
    ensures LimbBits(Feed(store, key, Range(n, LIMB_COUNT), gones[n..]).value[key]) == MaskOf(gones, LIMB_COUNT)
    ensures Feed(store, key, Range(n, LIMB_COUNT), gones[n..]).value[key].promised == (n < LIMB_COUNT)
    decreases LIMB_COUNT - n
  {
    if n < LIMB_COUNT {
      AnswerStep(store, key, gones, n);
      var s := IsLimbGone(store, key, n, gones[n]).value;
      assert gones[n..][0] == gones[n] && gones[n..][1..] == gones[n + 1..];
      FeedStep(store, key, Range(n, LIMB_COUNT), gones[n..]);
      if n + 1 < LIMB_COUNT {
        FeedCollects(s, key, gones, n + 1);
      } else {
        assert gones[n + 1..] == [];
      }
    } else {
      assert gones[n..] == [];
    }
  }

  /**
   * The limb query answered in order from a fresh limb slot: the slot ends
   * fulfilled, and bit i of its mask is set exactly when limb i is gone.
   */
  lemma LimbQueryCollects(store: Store, key: Key, gones: seq<bool>)
    requires |gones| == LIMB_COUNT && key in store && store[key] == Slot(LimbSlot, None, false)
    ensures Feed(store, key, Range(0, LIMB_COUNT), gones).Ok?
    ensures Feed(store, key, Range(0, LIMB_COUNT), gones).value.Keys == store.Keys
    ensures Feed(store, key, Range(0, LIMB_COUNT), gones).value[key].promised
    ensures forall i: nat :: i < LIMB_COUNT ==>
              (LimbBits(Feed(store, key, Range(0, LIMB_COUNT), gones).value[key]) & ((1 as bv16) << (i as bv5)) != 0 <==> gones[i])
  {
    assert gones[0..] == gones;
    FeedCollects(store, key, gones, 0);
    MaskBits(gones, LIMB_COUNT);
  }

  lemma MaskBits(gones: seq<bool>, n: nat)
    requires n == |gones| && n <= 16
    ensures forall i: nat :: i < n ==> (MaskOf(gones, n) & ((1 as bv16) << (i as bv5)) != 0 <==> gones[i])
  {
    forall i: nat | i < n
      ensures MaskOf(gones, n) & ((1 as bv16) << (i as bv5)) != 0 <==> gones[i]
    {
      MaskOfBits(gones, n, i);
    }
  }

  /** One answer, for limb n, extends the mask by bit n; the weapon limb fulfils the slot. */
  lemma AnswerStep(store: Store, key: Key, gones: seq<bool>, n: nat)
    requires |gones| == LIMB_COUNT && n < LIMB_COUNT
    requires key in store && store[key].tag == LimbSlot && !store[key].promised
    requires LimbBits(store[key]) == MaskOf(gones, n)
    ensures IsLimbGone(store, key, n, gones[n]).Ok?
    ensures IsLimbGone(store, key, n, gones[n]).value.Keys == store.Keys
    ensures IsLimbGone(store, key, n, gones[n]).value[key].tag == LimbSlot
    ensures LimbBits(IsLimbGone(store, key, n, gones[n]).value[key]) == MaskOf(gones, n + 1)
    ensures IsLimbGone(store, key, n, gones[n]).value[key].promised == (n == LIMB_WEAPON)
  {
    MaskStep(gones, n);
  }

  lemma FeedStep(store: Store, key: Key, limbs: seq<int>, gones: seq<bool>)
    requires |limbs| == |gones| && limbs != []
    requires IsLimbGone(store, key, limbs[0], gones[0]).Ok?
    ensures Feed(store, key, limbs, gones) == Feed(IsLimbGone(store, key, limbs[0], gones[0]).value, key, limbs[1..], gones[1..])
  {
  }

  lemma MaskStep(gones: seq<bool>, n: nat)
    requires n < |gones| && n < 16
    ensures MaskOf(gones, n + 1) == MaskOf(gones, n) | LimbBit(n, gones[n])
  {
  }

  /** No answer is visible before the weapon limb. */
  lemma NotFulfilledBeforeWeapon(store: Store, key: Key, limb: int, gone: bool)
    requires key in store && store[key].tag == LimbSlot && !store[key].promised && limb != LIMB_WEAPON
    ensures IsLimbGone(store, key, limb, gone).Ok?
    ensures Answer(IsLimbGone(store, key, limb, gone).value, key) == None
  {
  }

  function Pow2(j: nat): (p: nat)
    ensures p >= 1
  {
    if j == 0 then 1 else 2 * Pow2(j - 1)
  }

  /** `limbs & (1 << j)` */
  predicate Bit(limbs: nat, j: nat)
  {
    limbs / Pow2(j) % 2 == 1
  }

  /**
   * The Kill commands for the bits from `j` upwards: one per set bit, in
   * ascending order; only the bit whose double exceeds the mask carries
   * the key.
   */
  function Kills(ref: int, limbs: nat, cause: int, key: Key, j: nat): seq<Command>
    decreases limbs + 1 - Pow2(j)
  {
    if Pow2(j) > limbs then []
    else
      (if Bit(limbs, j) then [Kill(ref, j, cause, if Pow2(j + 1) > limbs then key else NO_KEY)] else []) +
      Kills(ref, limbs, cause, key, j + 1)
  }

  /** The commands KillActor issues for a mask: a zero mask kills once, with no limb. */
  function KillCommands(ref: int, limbs: nat, cause: int, key: Key): (r: seq<Command>)
    ensures forall c :: c in r ==> c.Kill? && c.ref == ref && c.cause == cause
    ensures forall c :: c in r && c.key != NO_KEY ==> c.key == key
  {
    if limbs == 0 then [Kill(ref, LIMB_NONE, cause, key)]
    else
      KillsShape(ref, limbs, cause, key, 0);
      Kills(ref, limbs, cause, key, 0)
  }

  /** KillActor: the bit loop over the mask. */
  method KillActor(ref: int, limbs: nat, cause: int, key: Key) returns (cmds: seq<Command>)
    ensures cmds == KillCommands(ref, limbs, cause, key)
  {
    cmds := [];
    if limbs != 0 {
      var i: nat := 1;
      var j: nat := 0;
      while i <= limbs
        invariant i == Pow2(j)
        invariant cmds + Kills(ref, limbs, cause, key, j) == Kills(ref, limbs, cause, key, 0)
        decreases limbs + 1 - i
      {
        if limbs / i % 2 == 1 {
          cmds := cmds + [Kill(ref, j, cause, if 2 * i > limbs then key else NO_KEY)];
        }
        i := 2 * i;
        j := j + 1;
      }
    } else {
      cmds := [Kill(ref, LIMB_NONE, cause, key)];
    }
  }

  lemma Pow2Grows(a: nat, b: nat)
    requires a < b
    ensures 2 * Pow2(a) <= Pow2(b)
    decreases b
  {
    if b > a + 1 {
      Pow2Grows(a, b - 1);
    }
  }

  /** What the Kills from bit `j` are: their limbs, their order and their keys. */
  lemma {:induction false} KillsShape(ref: int, limbs: nat, cause: int, key: Key, j: nat)
    ensures forall c :: c in Kills(ref, limbs, cause, key, j) ==>
              c.Kill? && c.ref == ref && c.cause == cause && c.limb >= j && Pow2(c.limb) <= limbs && Bit(limbs, c.limb) &&
              c.key == (if Pow2(c.limb + 1) > limbs then key else NO_KEY)
    ensures forall a, b :: 0 <= a < b < |Kills(ref, limbs, cause, key, j)| ==>
              Kills(ref, limbs, cause, key, j)[a].limb < Kills(ref, limbs, cause, key, j)[b].limb
    ensures forall m: nat :: j <= m && Pow2(m) <= limbs && Bit(limbs, m) ==>
              exists c: Command :: c in Kills(ref, limbs, cause, key, j) && c.limb == m
    decreases limbs + 1 - Pow2(j)
  {
    if Pow2(j) <= limbs {
      var head := if Bit(limbs, j) then [Kill(ref, j, cause, if Pow2(j + 1) > limbs then key else NO_KEY)] else [];
      var rest := Kills(ref, limbs, cause, key, j + 1);
      KillsShape(ref, limbs, cause, key, j + 1);
      assert Kills(ref, limbs, cause, key, j) == head + rest;
      forall m: nat | j <= m && Pow2(m) <= limbs && Bit(limbs, m)
        ensures exists c: Command :: c in head + rest && c.limb == m
      {
        if m == j {
          assert head[0] in head + rest;
        } else {
          var c :| c in rest && c.limb == m;
          assert c in head + rest;
        }
      }
    } else {
      forall m: nat | j <= m && Pow2(m) <= limbs
        ensures false
      {
        if m > j {
          Pow2Grows(j, m);
        }
      }
    }
  }

  /** The highest set bit of a nonzero mask. */
  lemma HighestBit(limbs: nat) returns (h: nat)
    requires limbs > 0
    ensures Pow2(h) <= limbs < Pow2(h + 1) && Bit(limbs, h)
  {
    h := 0;
    while Pow2(h + 1) <= limbs
      invariant Pow2(h) <= limbs
      decreases limbs - Pow2(h)
    {
      h := h + 1;
    }
    var p := Pow2(h);
    assert p <= limbs < 2 * p;
    assert limbs / p == 1 by {
      DivOne(limbs, p);
    }
  }

  lemma DivOne(x: nat, p: nat)
    requires 1 <= p <= x < 2 * p
    ensures x / p == 1
  {
    var q := x / p;
    var r := x % p;
    assert x == q * p + r && 0 <= r < p;
    assert q * p < 2 * p;
    assert (q + 1) * p > p;
  }

  lemma Pow2Below(x: nat, y: nat)
    requires Pow2(x) < Pow2(y)
    ensures x < y
  {
    if x >= y {
      Pow2Mono(y, x);
    }
  }

  lemma Pow2Mono(a: nat, b: nat)
    requires a <= b
    ensures Pow2(a) <= Pow2(b)
  {
    if a < b {
      Pow2Grows(a, b);
    }
  }

  /** KillActor on a nonzero mask: one Kill per set bit, in ascending order of bits. */
  lemma KillActorBits(ref: int, limbs: nat, cause: int, key: Key)
    requires limbs > 0
    ensures forall c :: c in KillCommands(ref, limbs, cause, key) ==>
              c.Kill? && c.ref == ref && c.cause == cause && c.limb >= 0 && Bit(limbs, c.limb)
    ensures forall j: nat :: Pow2(j) <= limbs && Bit(limbs, j) ==>
              exists c: Command :: c in KillCommands(ref, limbs, cause, key) && c.limb == j
    ensures forall a, b :: 0 <= a < b < |KillCommands(ref, limbs, cause, key)| ==>
              KillCommands(ref, limbs, cause, key)[a].limb < KillCommands(ref, limbs, cause, key)[b].limb
  {
    KillsShape(ref, limbs, cause, key, 0);
  }

  /** The last Kill of a nonzero mask is the one for its highest set bit. */
  lemma LastKillIsHighest(ref: int, limbs: nat, cause: int, key: Key) returns (h: nat)
    requires limbs > 0
    ensures Pow2(h) <= limbs < Pow2(h + 1)
    ensures Kills(ref, limbs, cause, key, 0) != []
    ensures Kills(ref, limbs, cause, key, 0)[|Kills(ref, limbs, cause, key, 0)| - 1] == Kill(ref, h, cause, key)
  {
    var r := Kills(ref, limbs, cause, key, 0);
    KillsShape(ref, limbs, cause, key, 0);
    h := HighestBit(limbs);
    var c: Command :| c in r && c.limb == h;
    var last := |r| - 1;
    var i :| 0 <= i < |r| && r[i] == c;
    assert r[last] in r;
    assert r[last].limb >= h by {
      assert i == last || r[i].limb < r[last].limb;
    }
    assert r[last].limb <= h by {
      var l := r[last].limb;
      assert l >= 0 && Pow2(l) <= limbs;
      Pow2Below(l, h + 1);
    }
  }

  /** Only the last Kill, the one for the highest set bit, carries the key. */
  lemma KillActorKey(ref: int, limbs: nat, cause: int, key: Key)
    requires limbs > 0
    ensures KillCommands(ref, limbs, cause, key) != []
    ensures forall c :: c in KillCommands(ref, limbs, cause, key) ==> c.Kill?
    ensures forall k :: 0 <= k < |KillCommands(ref, limbs, cause, key)| - 1 ==> KillCommands(ref, limbs, cause, key)[k].key == NO_KEY
    ensures KillCommands(ref, limbs, cause, key)[|KillCommands(ref, limbs, cause, key)| - 1].key == key
  {
    var h := LastKillIsHighest(ref, limbs, cause, key);
    var r := Kills(ref, limbs, cause, key, 0);
    KillsShape(ref, limbs, cause, key, 0);
    var last := |r| - 1;
    forall k | 0 <= k < last
      ensures r[k].key == NO_KEY
    {
      assert r[k] in r;
      assert r[k].limb < h;
      Pow2Mono(r[k].limb + 1, h);
    }
  }

  /** A zero mask kills once, with no limb, and the key rides on that command. */
  lemma KillActorWhole(ref: int, cause: int, key: Key)
    ensures KillCommands(ref, 0, cause, key) == [Kill(ref, LIMB_NONE, cause, key)]
  {
  }
}
