/**
 * FactoryObject: a holder of a game reference that keeps one lock session on
 * it open for as long as it holds it. Construction starts a session, copying
 * starts another, assignment ends the old one and starts the new one,
 * destruction ends the held one. The invariant this buys is the session
 * balance: on every reference, sessions started minus sessions ended equals
 * the number of live holders of that reference.
 */
module Sessions {
  import opened Base

  /** A game reference as far as its lock sessions go. */
  class Reference {
    /** StartSession answers null for a reference that is no longer known. */
    const known: bool
    var started: nat
    var ended: nat

    constructor (known: bool)
      ensures this.known == known && started == 0 && ended == 0
    {
      this.known := known;
      started, ended := 0, 0;
    }

    method StartSession() returns (ok: bool)
      modifies this
      ensures ok == known
      ensures started == old(started) + (if ok then 1 else 0) && ended == old(ended)
    {
      ok := known;
      if ok {
        started := started + 1;
      }
    }

    method EndSession()
      modifies this
      ensures started == old(started) && ended == old(ended) + 1
    {
      ended := ended + 1;
    }
  }

  /** The number of holders in `held` that hold `r`. */
  ghost function Holding(held: map<FactoryObject, Reference?>, r: Reference): nat
  {
    |HoldersOf(held, r)|
  }

  ghost function HoldersOf(held: map<FactoryObject, Reference?>, r: Reference): set<FactoryObject>
  {
    set h | h in held && held[h] == r
  }

  lemma HoldersUpdate(held: map<FactoryObject, Reference?>, h: FactoryObject, v: Reference?, r: Reference)
    ensures HoldersOf(held[h := v], r) == (HoldersOf(held, r) - {h}) + (if v == r then {h} else {})
  {
    var m := held[h := v];
    forall g
      ensures g in HoldersOf(m, r) <==> g in (HoldersOf(held, r) - {h}) + (if v == r then {h} else {})
    {
      if g == h {
      } else {
        assert g in m <==> g in held;
      }
    }
  }

  /** Holding after one holder changes what it holds. */
  lemma {:induction false} HoldingUpdate(held: map<FactoryObject, Reference?>, h: FactoryObject, v: Reference?, r: Reference)
    ensures Holding(held[h := v], r) ==
            Holding(held, r) - (if h in held && held[h] == r then 1 else 0) + (if v == r then 1 else 0)
  {
    var before := HoldersOf(held, r);
    var rest := before - {h};
    HoldersUpdate(held, h, v, r);
    assert h !in rest;
    if h in before {
      assert before == rest + {h};
    } else {
      assert rest == before;
    }
  }

  /** Holding after a holder leaves. */
  lemma {:induction false} HoldingRemove(held: map<FactoryObject, Reference?>, h: FactoryObject, r: Reference)
    requires h in held
    ensures Holding(held - {h}, r) == Holding(held, r) - (if held[h] == r then 1 else 0)
  {
    var before := HoldersOf(held, r);
    var m := held - {h};
    var after := HoldersOf(m, r);
    assert after == before - {h};
  }

  /** All live holders and the references they may hold. */
  class Pool {
    ghost var held: map<FactoryObject, Reference?>
    ghost var refs: set<Reference>

    ghost predicate Valid()
      reads this, held.Keys, refs
    {
      (forall h :: h in held ==> h.reference == held[h]) &&
      (forall h :: h in held && held[h] != null ==> held[h] in refs && held[h].known) &&
      (forall r :: r in refs ==> r.started == r.ended + Holding(held, r))
    }

    constructor ()
      ensures Valid() && held == map[] && refs == {}
    {
      held, refs := map[], {};
    }

    /** Brings a reference with no open session under the balance. */
    method Adopt(r: Reference)
      requires Valid() && r !in refs && r.started == r.ended
      modifies this
      ensures Valid() && held == old(held) && refs == old(refs) + {r}
    {
      forall h | h in held && held[h] != null
        ensures held[h] != r
      {
      }
      assert Holding(held, r) == 0 by {
        assert HoldersOf(held, r) == {};
      }
      refs := refs + {r};
    }
  }

  class FactoryObject {
    var reference: Reference?

    /**
     * The private constructor: take `r` and start a session on it; when
     * StartSession answers null the holder throws "Unknown object".
     */
    static method Open(pool: Pool, r: Reference) returns (res: Result<FactoryObject>)
      requires pool.Valid() && r in pool.refs
      modifies pool, r
      ensures pool.Valid() && pool.refs == old(pool.refs)
      ensures res.Ok? <==> r.known
      ensures res.Err? ==> res.error == UnknownObject && pool.held == old(pool.held)
      ensures res.Err? ==> r.started == old(r.started) && r.ended == old(r.ended)
      ensures res.Ok? ==> fresh(res.value) && res.value.reference == r
      ensures res.Ok? ==> pool.held == old(pool.held)[res.value := r]
      ensures res.Ok? ==> r.started == old(r.started) + 1 && r.ended == old(r.ended)
    {
      var ok := r.StartSession();
      if !ok {
        return Err(UnknownObject);
      }
      var h := new FactoryObject.Empty();
      h.reference := r;
      HoldingUpdate(pool.held, h, r, r);
      forall q | q in pool.refs && q != r
        ensures Holding(pool.held[h := r], q) == Holding(pool.held, q)
      {
        HoldingUpdate(pool.held, h, r, q);
      }
      pool.held := pool.held[h := r];
      return Ok(h);
    }

    /** A holder that holds nothing. */
    constructor Empty()
      ensures reference == null
    {
      reference := null;
    }

    /** The public default constructor: a null holder that touches no reference. */
    static method Default(pool: Pool) returns (h: FactoryObject)
      requires pool.Valid()
      modifies pool
      ensures pool.Valid() && fresh(h) && h.reference == null
      ensures pool.held == old(pool.held)[h := null] && pool.refs == old(pool.refs)
    {
      h := new FactoryObject.Empty();
      forall q | q in pool.refs
        ensures Holding(pool.held[h := null], q) == Holding(pool.held, q)
      {
        HoldingUpdate(pool.held, h, null, q);
      }
      pool.held := pool.held[h := null];
    }

    /** The copy constructor: the copy starts its own session on a non-null reference. */
    method Copy(pool: Pool) returns (h: FactoryObject)
      requires pool.Valid() && this in pool.held
      modifies pool, reference
      ensures pool.Valid() && fresh(h) && h.reference == reference
      ensures pool.held == old(pool.held)[h := reference] && pool.refs == old(pool.refs)
      ensures reference != null ==> reference.started == old(reference.started) + 1
      ensures reference != null ==> reference.ended == old(reference.ended)
    {
      var r := reference;
      h := new FactoryObject.Empty();
      h.reference := r;
      if r != null {
        var ok := r.StartSession();
      }
      forall q | q in pool.refs
        ensures Holding(pool.held[h := r], q) == Holding(pool.held, q) + (if q == r then 1 else 0)
      {
        HoldingUpdate(pool.held, h, r, q);
      }
      pool.held := pool.held[h := r];
    }

    /**
     * Assignment: self-assignment changes nothing; otherwise the old
     * reference's session ends and the new one's starts.
     */
    method Assign(pool: Pool, p: FactoryObject)
      requires pool.Valid() && this in pool.held && p in pool.held
      modifies pool, this, reference, p.reference
      ensures pool.Valid() && pool.refs == old(pool.refs)
      ensures reference == old(p.reference)
      ensures pool.held == old(pool.held)[this := old(p.reference)]
      ensures this == p ==> old(reference) == null || unchanged(old(reference))
      ensures this != p && old(reference) != null && old(reference) != old(p.reference) ==>
                old(reference).ended == old(reference.ended) + 1 &&
                old(reference).started == old(reference.started)
      ensures this != p && old(p.reference) != null && old(reference) != old(p.reference) ==>
                old(p.reference).started == old(p.reference.started) + 1 &&
                old(p.reference).ended == old(p.reference.ended)
      ensures this != p && old(reference) != null && old(reference) == old(p.reference) ==>
                old(reference).started == old(reference.started) + 1 &&
                old(reference).ended == old(reference.ended) + 1
    {
      if this != p {
        var r1 := reference;
        var r2 := p.reference;
        if r1 != null {
          r1.EndSession();
        }
        reference := r2;
        if r2 != null {
          var ok := r2.StartSession();
        }
        forall q | q in pool.refs
          ensures Holding(pool.held[this := r2], q) ==
                  Holding(pool.held, q) - (if r1 == q then 1 else 0) + (if r2 == q then 1 else 0)
        {
          HoldingUpdate(pool.held, this, r2, q);
        }
        pool.held := pool.held[this := r2];
      } else {
        assert pool.held[this := p.reference] == pool.held;
      }
    }

    /** The destructor: ends the session on a non-null reference. */
    method Destroy(pool: Pool)
      requires pool.Valid() && this in pool.held
      modifies pool, reference
      ensures pool.Valid() && pool.refs == old(pool.refs)
      ensures pool.held == old(pool.held) - {this}
      ensures reference != null ==> reference.ended == old(reference.ended) + 1
      ensures reference != null ==> reference.started == old(reference.started)
    {
      var r := reference;
      if r != null {
        r.EndSession();
      }
      forall q | q in pool.refs
        ensures Holding(pool.held - {this}, q) == Holding(pool.held, q) - (if r == q then 1 else 0)
      {
        HoldingRemove(pool.held, this, q);
      }
      pool.held := pool.held - {this};
    }
  }
}
