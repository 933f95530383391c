/**
  `LocalRef` owns one entry of the JNI local reference table: constructing it adopts the
  entry, moving from it hands the entry on and leaves null behind, destroying it deletes
  the entry if it still owns one.
 */
module LocalRefs {
  import opened Words

  type Ref = nat

  /** The Java object a reference stands for. */
  type JObject = nat

  /**
    The bookkeeping of one `JNIEnv`: the live references, those of them a JNI call has
    returned but no `LocalRef` has adopted, what every living `LocalRef` holds, and the
    references deleted so far.  References are numbered in the order they are created.
   */
  datatype Ledger<O(==)> = Ledger(
    table: set<Ref>,
    raw: set<Ref>,
    owners: map<O, Option<Ref>>,
    deleted: seq<Ref>,
    next: Ref)

  datatype Step<O> =
    | Create                               // a JNI call returns a new local reference
    | Construct(o: O, ref: Option<Ref>)    // LocalRef(env, ref)
    | MoveFrom(o: O, other: O)             // LocalRef(LocalRef&& other)
    | Release(o: O)                        // ~LocalRef()

  /** What C++ and JNI ask of a step: only a reference nobody owns yet may be adopted. */
  predicate Can<O(==)>(l: Ledger<O>, s: Step<O>) {
    match s
    case Create => true
    case Construct(o, ref) => o !in l.owners && (ref.Some? ==> ref.value in l.raw)
    case MoveFrom(o, other) => o !in l.owners && other in l.owners
    case Release(o) => o in l.owners
  }

  function Do<O(==)>(l: Ledger<O>, s: Step<O>): Ledger<O>
    requires Can(l, s)
  {
    match s
    case Create => l.(table := l.table + {l.next}, raw := l.raw + {l.next}, next := l.next + 1)
    case Construct(o, ref) =>
      l.(owners := l.owners[o := ref], raw := if ref.Some? then l.raw - {ref.value} else l.raw)
    case MoveFrom(o, other) => l.(owners := l.owners[o := l.owners[other]][other := None])
    case Release(o) =>
      var rest := l.(owners := l.owners - {o});
      match l.owners[o]
      case None => rest
      case Some(r) => rest.(table := l.table - {r}, deleted := l.deleted + [r])
  }

  ghost predicate Owns<O(!new)>(l: Ledger<O>, o: O, r: Ref) {
    o in l.owners && l.owners[o] == Some(r)
  }

  /** Live since before the ledger was opened. */
  ghost predicate Opening(table: set<Ref>, start: Ref) {
    forall r :: r in table ==> r < start
  }

  /** A reference made since the ledger was opened at `start` is raw, owned or deleted, and just one of these. */
  ghost predicate Accounted<O(!new)>(base: set<Ref>, start: Ref, l: Ledger<O>, r: Ref) {
    && (r in l.raw ==> r in l.table && !(exists o :: Owns(l, o, r)))
    && (r in l.table && r !in l.raw && r !in base ==> exists o :: Owns(l, o, r))
    && multiset(l.deleted)[r] == if start <= r < l.next && r !in l.table then 1 else 0
  }

  ghost predicate Balanced<O(!new)>(base: set<Ref>, start: Ref, l: Ledger<O>) {
    && Opening(base, start) && base <= l.table && start <= l.next
    && (forall r :: r in l.table ==> r in base || start <= r < l.next)
    && (forall r :: r in l.raw ==> r !in base)
    && (forall o, r :: Owns(l, o, r) ==> r in l.table && r !in base)
    && (forall o, p, r :: Owns(l, o, r) && Owns(l, p, r) ==> o == p)
    && (forall r :: Accounted(base, start, l, r))
  }

  lemma StepKeepsBalance<O(!new)>(base: set<Ref>, start: Ref, l: Ledger<O>, s: Step<O>)
    requires Balanced(base, start, l) && Can(l, s)
    ensures Balanced(base, start, Do(l, s))
  {
    var k := Do(l, s);
    match s {
    case Create =>
      assert forall o, r: Ref :: Owns(k, o, r) <==> Owns(l, o, r);
      assert l.next !in l.table && forall o :: !Owns(l, o, l.next);
      assert Accounted(base, start, l, l.next);
    case Construct(o, ref) =>
      forall p, r: Ref ensures Owns(k, p, r) <==> if p == o then ref == Some(r) else Owns(l, p, r) {}
      if ref.Some? { assert Accounted(base, start, l, ref.value) && Owns(k, o, ref.value); }
    case MoveFrom(o, other) =>
      forall p, r: Ref ensures Owns(k, p, r) <==> if p == o then Owns(l, other, r) else p != other && Owns(l, p, r) {}
    case Release(o) =>
      forall p, r: Ref ensures Owns(k, p, r) <==> p != o && Owns(l, p, r) {}
      if l.owners[o].Some? { assert Owns(l, o, l.owners[o].value); }
    }
    forall r ensures Accounted(base, start, k, r) {
      assert Accounted(base, start, l, r);
      if p :| Owns(l, p, r) {
        // the owner after the step is the same, unless it was moved from
        var q := if s.MoveFrom? && p == s.other then s.o else p;
        assert Owns(k, q, r) || s == Release(p);
      }
    }
  }

  function After<O(==)>(l: Ledger<O>, steps: seq<Step<O>>): Option<Ledger<O>> {
    if steps == [] then Some(l)
    else
      match After(l, steps[..|steps| - 1])
      case None => None
      case Some(m) =>
        var s := steps[|steps| - 1];
        if Can(m, s) then Some(Do(m, s)) else None
  }

  /** The state in which native code is entered with `base` live. */
  function Open<O>(base: set<Ref>, start: Ref): Ledger<O> {
    Ledger(base, {}, map[], [], start)
  }

  lemma {:induction false} AlwaysBalanced<O(!new)>(base: set<Ref>, start: Ref, steps: seq<Step<O>>)
    requires Opening(base, start) && After(Open(base, start), steps).Some?
    ensures Balanced(base, start, After(Open(base, start), steps).value)
  {
    if steps != [] {
      var before := steps[..|steps| - 1];
      AlwaysBalanced(base, start, before);
      StepKeepsBalance(base, start, After(Open(base, start), before).value, steps[|steps| - 1]);
    } else {
      var l: Ledger<O> := Open(base, start);
      forall r ensures Accounted(base, start, l, r) {}
    }
  }

  /**
    Over any sequence of steps: an adopted live reference has exactly one owner, a deletion
    always hits a live reference, and nothing is deleted twice.
   */
  lemma OneOwnerEach<O(!new)>(base: set<Ref>, start: Ref, steps: seq<Step<O>>, r: Ref)
    requires Opening(base, start) && After(Open<O>(base, start), steps).Some?
    ensures var l := After(Open<O>(base, start), steps).value;
            && (r in l.table - base - l.raw <==> exists o :: Owns(l, o, r))
            && (forall o, p :: Owns(l, o, r) && Owns(l, p, r) ==> o == p)
            && multiset(l.deleted)[r] <= 1
            && (r in l.table ==> r !in l.deleted)
  {
    AlwaysBalanced(base, start, steps);
    assert Accounted(base, start, After(Open<O>(base, start), steps).value, r);
  }

  /**
    Once every owner is gone and every returned reference was adopted, the table holds what
    it held at the start, and each reference made in between was deleted exactly once.
   */
  lemma AllReturned<O(!new)>(base: set<Ref>, start: Ref, steps: seq<Step<O>>, r: Ref)
    requires Opening(base, start) && After(Open<O>(base, start), steps).Some?
    requires var l := After(Open<O>(base, start), steps).value; l.owners == map[] && l.raw == {}
    ensures var l := After(Open<O>(base, start), steps).value;
            l.table == base && multiset(l.deleted)[r] == if start <= r < l.next then 1 else 0
  {
    AlwaysBalanced(base, start, steps);
    var l := After(Open<O>(base, start), steps).value;
    forall q | q in l.table ensures q in base {
      assert Accounted(base, start, l, q);
    }
    assert Accounted(base, start, l, r);
  }

  /** Adopting a reference that already has an owner would delete it twice; that is why `Can` forbids it. */
  lemma SecondOwnerDeletesTwice()
    ensures var l: Ledger<nat> := Ledger({0}, {}, map[7 := Some(0), 8 := Some(0)], [], 1);
            var k := Do(Do(l, Release(7)), Release(8));
            !Can(Ledger({0}, {}, map[7 := Some(0)], [], 1), Construct(8, Some(0)))
            && k.deleted == [0, 0]
  {
  }

  // ------------------------------- the objects -------------------------------

  function Max(a: nat, b: nat): nat {
    if a < b then b else a
  }

  /** What a caller of native code can tell of the table and of who owns what. */
  datatype Holdings = Holdings(table: map<Ref, JObject>, owners: map<LocalRef, Option<Ref>>, raw: set<Ref>)

  /** A holder's whole claim moves to a new holder. */
  ghost function Moved(h: Holdings, o: LocalRef, other: LocalRef): Holdings
    requires other in h.owners
  {
    h.(owners := h.owners[o := h.owners[other]][other := None])
  }

  /** A holder is gone, and with it the entry it held. */
  ghost function Dropped(h: Holdings, o: LocalRef): Holdings
    requires o in h.owners
  {
    Holdings(if h.owners[o].Some? then h.table - {h.owners[o].value} else h.table, h.owners - {o}, h.raw)
  }

  /** The table itself, with the largest size it has reached. */
  class JniEnv {
    var table: map<Ref, JObject>
    var next: Ref
    ghost var ledger: Ledger<LocalRef>
    ghost var ownerOf: map<Ref, LocalRef>
    ghost var peak: nat

    ghost function View(): Holdings
      reads this
    {
      Holdings(table, ledger.owners, ledger.raw)
    }

    ghost predicate Valid()
      reads this, ledger.owners.Keys
    {
      && ledger.table == table.Keys && ledger.next == next && |table| <= peak
      && (forall r :: r in table ==> r < next)
      && ledger.raw <= ledger.table && ownerOf.Keys <= ledger.table && ownerOf.Keys !! ledger.raw
      // every owner holds what the ledger says, and no two hold the same reference
      && (forall o :: o in ledger.owners ==>
            o.ref == ledger.owners[o] && (o.ref.Some? ==> o.ref.value in ownerOf && ownerOf[o.ref.value] == o))
    }

    /** A JNI call that returns a new local reference, or null. */
    method Return(obj: Option<JObject>) returns (r: Option<Ref>)
      requires Valid()
      modifies this
      ensures Valid() && ownerOf == old(ownerOf)
      ensures obj.None? ==> r.None? && table == old(table) && ledger == old(ledger) && peak == old(peak)
      ensures obj.Some? ==> r == Some(old(next)) && table == old(table)[old(next) := obj.value]
                            && ledger == Do(old(ledger), Create) && peak == Max(old(peak), |old(table)| + 1)
      ensures r.Some? ==> r.value !in old(table) && r.value !in old(ledger.raw)
    {
      if obj.None? {
        return None;
      }
      r := Some(next);
      assert next !in table;
      ghost var created := Do(ledger, Create);
      assert created.owners == ledger.owners;
      assert created.table == table.Keys + {next} && created.raw == ledger.raw + {next};
      ledger := created;
      peak := Max(peak, |table| + 1);
      table := table[next := obj.value];
      next := next + 1;
      assert |table| == |old(table)| + 1;
    }

    /** JNI leaves deleting a dead reference undefined; the callers show it never happens. */
    method DeleteLocalRef(r: Ref)
      requires r in table
      modifies this`table
      ensures table == old(table) - {r}
      ensures table.Keys == old(table).Keys - {r} && |table| < |old(table)|
    {
      table := table - {r};
      assert table.Keys == old(table).Keys - {r};
      assert |table| == |table.Keys|;
    }
  }

  class LocalRef {
    const env: JniEnv
    var ref: Option<Ref>

    constructor (env: JniEnv, ref: Option<Ref>)
      requires env.Valid() && (ref.Some? ==> ref.value in env.ledger.raw)
      modifies env`ledger, env`ownerOf
      ensures this.env == env && this.ref == ref && env.Valid()
      ensures Can(old(env.ledger), Construct(this, ref)) && env.ledger == Do(old(env.ledger), Construct(this, ref))
    {
      this.env := env;
      this.ref := ref;
      new;
      assert this !in env.ledger.owners by {
        assert forall o :: o in env.ledger.owners ==> o != this;
      }
      env.ledger := Do(env.ledger, Construct(this, ref));
      if ref.Some? {
        env.ownerOf := env.ownerOf[ref.value := this];
      }
    }

    constructor Move(other: LocalRef)
      requires other.env.Valid() && other in other.env.ledger.owners
      modifies other.env`ledger, other.env`ownerOf, other`ref
      ensures env == other.env && ref == old(other.ref) && other.ref == None && env.Valid()
      ensures Can(old(other.env.ledger), MoveFrom(this, other))
      ensures env.ledger == Do(old(other.env.ledger), MoveFrom(this, other))
      ensures this !in old(other.env.ledger.owners) && env.View() == Moved(old(other.env.View()), this, other)
    {
      this.env := other.env;
      this.ref := other.ref;
      new;
      assert this !in env.ledger.owners by {
        assert forall o :: o in env.ledger.owners ==> o != this;
      }
      env.ledger := Do(env.ledger, MoveFrom(this, other));
      if other.ref.Some? {
        env.ownerOf := env.ownerOf[other.ref.value := this];
      }
      other.ref := None;
    }

    /** The destructor. */
    method Destroy()
      requires env.Valid() && this in env.ledger.owners
      modifies env
      ensures env.Valid() && env.ledger == Do(old(env.ledger), Release(this))
      ensures env.View() == Dropped(old(env.View()), this) && env.peak == old(env.peak)
    {
      if ref.Some? {
        DeleteOwned();
      } else {
        ghost var ledger := Do(env.ledger, Release(this));
        assert ledger.owners == env.ledger.owners - {this} && ledger.raw == env.ledger.raw;
        env.ledger := ledger;
      }
    }

    method DeleteOwned()
      requires env.Valid() && this in env.ledger.owners && ref.Some?
      modifies env
      ensures env.Valid() && env.ledger == Do(old(env.ledger), Release(this))
      ensures env.View() == Dropped(old(env.View()), this) && env.peak == old(env.peak)
    {
      ghost var ledger, owned := Do(env.ledger, Release(this)), ref.value;
      assert ledger.owners == env.ledger.owners - {this} && ledger.raw == env.ledger.raw;
      assert ledger.table == env.table.Keys - {owned} && ledger.next == env.next;
      assert forall o :: o in ledger.owners && o.ref.Some? ==> o.ref.value != owned;
      env.ownerOf := env.ownerOf - {owned};
      env.DeleteLocalRef(ref.value);
      env.ledger := ledger;
      assert forall o :: o in ledger.owners && o.ref.Some? ==> o.ref.value in env.ownerOf;
      assert |env.table| <= env.peak;
    }
  }
}
