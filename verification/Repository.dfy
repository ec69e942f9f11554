/** `Repository`: objects under small reusable ids. */
module Repository {
  import opened Options

  /** `get_first_unused_object_id`: the least free id from 1 up, or one past the end. */
  predicate IsFirstFree<T>(objects: seq<Option<T>>, id: nat) {
    && 1 <= id <= |objects|
    && (forall i :: 1 <= i < id ==> objects[i].Some?)
    && (id < |objects| ==> objects[id].None?)
  }

  function FirstFreeFrom<T>(objects: seq<Option<T>>, from: nat): (id: nat)
    requires 1 <= from <= |objects|
    requires forall i :: 1 <= i < from ==> objects[i].Some?
    ensures IsFirstFree(objects, id)
    decreases |objects| - from
  {
    if from == |objects| || objects[from].None? then from else FirstFreeFrom(objects, from + 1)
  }

  function FirstFree<T>(objects: seq<Option<T>>): (id: nat)
    requires |objects| >= 1
    ensures IsFirstFree(objects, id)
  {
    FirstFreeFrom(objects, 1)
  }

  /** The slots after `create_object` put `x` at its id. */
  function Created<T>(objects: seq<Option<T>>, x: T): (r: seq<Option<T>>)
    requires |objects| >= 1
  {
    var id := FirstFree(objects);
    if id == |objects| then objects + [Some(x)] else objects[id := Some(x)]
  }

  class Repository<T> {
    var objects: seq<Option<T>>

    /** Id 0 is never used. */
    ghost predicate Valid()
      reads this
    {
      |objects| >= 1 && objects[0].None?
    }

    constructor ()
      ensures Valid() && objects == [None]
    {
      objects := [None];
    }

    method FirstUnusedObjectId() returns (id: nat)
      requires Valid()
      modifies this
      ensures Valid() && IsFirstFree(old(objects), id) && id < |objects|
      ensures objects == if id == |old(objects)| then old(objects) + [None] else old(objects)
    {
      id := 1;
      while id < |objects|
        invariant 1 <= id <= |objects|
        invariant forall i :: 1 <= i < id ==> objects[i].Some?
      {
        if objects[id].None? {
          return;
        }
        id := id + 1;
      }
      objects := objects + [None];
    }

    method CreateObject(x: T) returns (id: nat)
      requires Valid()
      modifies this
      ensures Valid() && id == FirstFree(old(objects)) && objects == Created(old(objects), x)
    {
      ghost var was := objects;
      id := FirstUnusedObjectId();
      objects := objects[id := Some(x)];
      FirstFreeUnique(was, id, FirstFree(was));
    }

    /** The error is an exception; nothing changes then. */
    method DeleteObjectById(id: nat) returns (ok: bool)
      requires Valid()
      modifies this
      ensures Valid() && ok == (id < |old(objects)| && old(objects)[id].Some?)
      ensures objects == if ok then old(objects)[id := None] else old(objects)
    {
      ok := id < |objects| && objects[id].Some?;
      if ok {
        objects := objects[id := None];
      }
    }

    /** `replace_object`: the object becomes what `transform` makes of it, under the
        same id; on an error nothing changes. */
    method ReplaceObject(id: nat, transform: T -> T) returns (ok: bool)
      requires Valid()
      modifies this
      ensures Valid() && ok == (id < |old(objects)| && old(objects)[id].Some?)
      ensures objects == if ok then old(objects)[id := Some(transform(old(objects)[id].value))] else old(objects)
    {
      ok := id < |objects| && objects[id].Some?;
      if ok {
        objects := objects[id := Some(transform(objects[id].value))];
      }
    }
  }

  lemma FirstFreeUnique<T>(objects: seq<Option<T>>, a: nat, b: nat)
    requires IsFirstFree(objects, a) && IsFirstFree(objects, b)
    ensures a == b
  {
  }
}
