/**
  `JNI::Iterate` and `JNI::IterateWithIndex`: walk a Java iterable, handing each element to a
  callback as a `LocalRef` passed by value.  Native code can hold only so many local
  references, so what matters is that the walk needs the same room however long it is.
 */
module Iteration {
  import opened Words
  import opened LocalRefs

  /** A Java iterable or iterator, over elements that may be null. */
  class JavaIterator {
    const self: JObject
    const elements: seq<Option<JObject>>
    var position: nat

    ghost predicate Valid()
      reads this
    {
      position <= |elements|
    }

    constructor (self: JObject, elements: seq<Option<JObject>>)
      ensures Valid() && this.self == self && this.elements == elements && position == 0
    {
      this.self := self;
      this.elements := elements;
      position := 0;
    }

    method HasNext() returns (more: bool)
      requires Valid()
      ensures more == (position < |elements|)
    {
      more := position < |elements|;
    }

    /** `Iterator.next`: a new local reference to the element, adopted at once. */
    method Next(env: JniEnv) returns (element: LocalRef)
      requires Valid() && position < |elements| && env.Valid()
      modifies this`position, env
      ensures Valid() && position == old(position) + 1
      ensures env.Valid() && fresh(element) && element.env == env
      ensures Adopted(old(env.View()), element, elements[old(position)], env.View())
      ensures element.ref == env.ledger.owners[element]
      ensures env.peak <= Max(old(env.peak), |old(env.table)| + 1) && |env.table| <= |old(env.table)| + 1
    {
      element := Wrap(env, elements[position]);
      position := position + 1;
    }
  }

  /** After a JNI call whose result `element` adopted: one more entry and owner, or a null owner. */
  ghost predicate Adopted(before: Holdings, element: LocalRef, obj: Option<JObject>, after: Holdings) {
    && element !in before.owners && element in after.owners
    && after.raw == before.raw
    && after.owners == before.owners[element := after.owners[element]]
    && match (obj, after.owners[element])
       case (None, None) => after.table == before.table
       case (Some(x), Some(r)) => r !in before.table && after.table == before.table[r := x]
       case _ => false
  }

  /** The generated wrappers: make the JNI call and adopt what it returns. */
  method Wrap(env: JniEnv, obj: Option<JObject>) returns (element: LocalRef)
    requires env.Valid()
    modifies env
    ensures env.Valid() && fresh(element) && element.env == env && Adopted(old(env.View()), element, obj, env.View())
    ensures element.ref == env.ledger.owners[element]
    ensures env.peak <= Max(old(env.peak), |old(env.table)| + 1) && |env.table| <= |old(env.table)| + 1
  {
    var r := env.Return(obj);
    element := new LocalRef(env, r);
    assert env.ledger.raw == old(env.ledger.raw);
  }

  /** Dropping what was adopted restores the holdings, whether or not it was passed on first. */
  lemma DropRestores(before: Holdings, element: LocalRef, obj: Option<JObject>, during: Holdings)
    requires Adopted(before, element, obj, during)
    ensures Dropped(during, element) == before
  {
    assert Dropped(during, element).owners == before.owners;
    assert Dropped(during, element).table == before.table;
  }

  lemma PassingRestores(before: Holdings, element: LocalRef, obj: Option<JObject>,
                        during: Holdings, parameter: LocalRef)
    requires Adopted(before, element, obj, during) && parameter !in during.owners
    ensures var moved := Moved(during, parameter, element);
            && Target(moved.table, during.owners[element]) == obj
            && parameter in moved.owners && element in Dropped(moved, parameter).owners
            && Dropped(Dropped(moved, parameter), element) == before
  {
    var last := Dropped(Dropped(Moved(during, parameter, element), parameter), element);
    assert last.owners == before.owners;
    assert last.table == before.table;
  }

  /** The move and the destructor, as far as the holdings go. */
  method PassOn(element: LocalRef) returns (parameter: LocalRef)
    requires element.env.Valid() && element in element.env.ledger.owners
    modifies element.env, element`ref
    ensures fresh(parameter) && parameter.env == element.env && element.env.Valid()
    ensures parameter !in old(element.env.ledger.owners)
    ensures element.env.View() == Moved(old(element.env.View()), parameter, element)
    ensures parameter.ref == old(element.env.ledger.owners[element])
    ensures element.env.peak == old(element.env.peak)
  {
    parameter := new LocalRef.Move(element);
  }

  method Discard(o: LocalRef)
    requires o.env.Valid() && o in o.env.ledger.owners
    modifies o.env
    ensures o.env.Valid() && o.env.View() == Dropped(old(o.env.View()), o) && o.env.peak == old(o.env.peak)
  {
    o.Destroy();
  }

  /** The object a reference leads to. */
  function Target(table: map<Ref, JObject>, r: Option<Ref>): Option<JObject> {
    if r.Some? && r.value in table then Some(table[r.value]) else None
  }

  /**
    A callback: what it was called with, and the most references it makes at one time.  The
    contract of `Invoke` is what is asked of a callback, that it gives back every reference
    it makes; this body makes and drops one for each of `temporaries`, if it has room for one.
   */
  class Callback {
    const room: nat
    const temporaries: seq<Option<JObject>>
    var seen: seq<(Option<JObject>, int)>

    constructor (room: nat, temporaries: seq<Option<JObject>>)
      ensures seen == [] && this.room == room && this.temporaries == temporaries
    {
      this.room := room;
      this.temporaries := temporaries;
      seen := [];
    }

    method Invoke(element: LocalRef, i: int)
      requires element.env.Valid() && element in element.env.ledger.owners
      modifies this`seen, element.env
      ensures element.env.Valid() && element.env.View() == old(element.env.View())
      ensures seen == old(seen) + [(Target(old(element.env.table), element.ref), i)]
      ensures element.env.peak <= Max(old(element.env.peak), |old(element.env.table)| + room)
    {
      var env := element.env;
      seen := seen + [(Target(env.table, element.ref), i)];
      var n := 0;
      while 0 < room && n < |temporaries|
        invariant n <= |temporaries|
        invariant env.Valid() && env.View() == old(env.View())
        invariant seen == old(seen) + [(Target(old(env.table), element.ref), i)]
        invariant env.peak <= Max(old(env.peak), |old(env.table)| + room)
      {
        var temporary := Wrap(env, temporaries[n]);
        DropRestores(old(env.View()), temporary, temporaries[n], env.View());
        Discard(temporary);
        n := n + 1;
      }
    }
  }

  /** The calls an iteration makes: each element once, in order, with its index. */
  function Indexed(elements: seq<Option<JObject>>): (calls: seq<(Option<JObject>, int)>)
    ensures |calls| == |elements|
    ensures forall i :: 0 <= i < |calls| ==> calls[i] == (elements[i], i)
  {
    seq(|elements|, i requires 0 <= i < |elements| => (elements[i], i))
  }

  /**
    `callback(next, i)`: the temporary is moved into the parameter, and both are destroyed
    when the call is over.
   */
  method CallWith(element: LocalRef, i: int, callback: Callback, ghost before: Holdings, ghost obj: Option<JObject>)
    requires element.env.Valid() && Adopted(before, element, obj, element.env.View())
    modifies element, element.env, callback`seen
    ensures element.env.Valid() && element.env.View() == before
    ensures callback.seen == old(callback.seen) + [(obj, i)]
    ensures element.env.peak <= Max(old(element.env.peak), |old(element.env.table)| + callback.room)
  {
    ghost var during, peak := element.env.View(), element.env.peak;
    var parameter := PassOn(element);
    PassingRestores(before, element, obj, during, parameter);
    ghost var moved := element.env.View();
    assert |moved.table| == |during.table|;
    Consume(parameter, i, callback, obj);
    ghost var consumed := element.env.View();
    assert consumed == Dropped(moved, parameter);
    assert element in consumed.owners && Dropped(consumed, element) == before;
    assert element.env.peak <= Max(peak, |during.table| + callback.room);
    Discard(element);
  }

  /** The call itself, whose parameter is gone when it returns. */
  method Consume(parameter: LocalRef, i: int, callback: Callback, ghost obj: Option<JObject>)
    requires parameter.env.Valid() && parameter in parameter.env.ledger.owners
    requires Target(parameter.env.table, parameter.ref) == obj
    modifies parameter.env, callback`seen
    ensures parameter.env.Valid() && parameter.env.View() == Dropped(old(parameter.env.View()), parameter)
    ensures callback.seen == old(callback.seen) + [(obj, i)]
    ensures parameter.env.peak <= Max(old(parameter.env.peak), |old(parameter.env.table)| + callback.room)
  {
    callback.Invoke(parameter, i);
    Discard(parameter);
  }

  /** One turn of the loop: get the next element and call back with it. */
  method CallWithNext(env: JniEnv, walk: JavaIterator, i: int, callback: Callback)
    requires env.Valid() && walk.Valid() && walk.position < |walk.elements|
    modifies env, walk`position, callback`seen
    ensures env.Valid() && env.View() == old(env.View())
    ensures walk.Valid() && walk.position == old(walk.position) + 1
    ensures callback.seen == old(callback.seen) + [(walk.elements[old(walk.position)], i)]
    ensures env.peak <= Max(old(env.peak), |old(env.table)| + 1 + callback.room)
  {
    ghost var before, obj := env.View(), walk.elements[walk.position];
    var element := walk.Next(env);
    CallWith(element, i, callback, before, obj);
  }

  /**
    The whole of `IterateWithIndex`, with its loop in `CallWithAll`.  The table ends as it
    began, and on the way holds at most the iterator, one element and the callback's own
    references more, whatever the length.
    `Iterate` is the same loop with a callback that takes no index.
   */
  method IterateWithIndex(env: JniEnv, walk: JavaIterator, callback: Callback)
    requires env.Valid() && walk.position == 0
    modifies env, walk`position, callback`seen
    ensures env.Valid() && env.View() == old(env.View())
    ensures callback.seen == old(callback.seen) + Indexed(walk.elements)
    ensures env.peak <= Max(old(env.peak), |old(env.table)| + 2 + callback.room)
  {
    ghost var before := env.View();
    var holder := Wrap(env, Some(walk.self));
    DropRestores(before, holder, Some(walk.self), env.View());
    CallWithAll(env, walk, callback);
    Discard(holder);
  }

  method CallWithAll(env: JniEnv, walk: JavaIterator, callback: Callback)
    requires env.Valid() && walk.position == 0
    modifies env, walk`position, callback`seen
    ensures env.Valid() && env.View() == old(env.View())
    ensures callback.seen == old(callback.seen) + Indexed(walk.elements)
    ensures env.peak <= Max(old(env.peak), |old(env.table)| + 1 + callback.room)
  {
    ghost var calls := Indexed(walk.elements);
    var i := 0;
    var more := walk.HasNext();
    while more
      invariant walk.Valid() && walk.position == i
      invariant more == (i < |walk.elements|)
      invariant env.Valid() && env.View() == old(env.View())
      invariant callback.seen == old(callback.seen) + calls[..i]
      invariant env.peak <= Max(old(env.peak), |old(env.table)| + 1 + callback.room)
      decreases |walk.elements| - i
    {
      CallWithNext(env, walk, i, callback);
      assert calls[..i + 1] == calls[..i] + [(walk.elements[i], i)];
      i := i + 1;
      more := walk.HasNext();
    }
    assert calls[..i] == calls;
  }
}
