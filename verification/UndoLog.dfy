/** The object store, the undo records kept beside it, and the algebra of those records:
    what reverting a record restores, and what merging two records means. */
module UndoLog {

  /** The index an object lives in: its space and type (`object_id_type` without the instance). */
  datatype Kind = Kind(space: nat, typ: nat)

  datatype ObjectId = ObjectId(kind: Kind, instance: nat)

  /** All indexes together: the live objects, and each registered index's next instance number. */
  datatype Store<O> = Store(objects: map<ObjectId, O>, next: map<Kind, nat>)

  /** One `undo_state`: what was changed since a stack entry was opened. */
  datatype UndoState<O> = UndoState(
    oldValues: map<ObjectId, O>,
    oldNext: map<Kind, nat>,
    newIds: set<ObjectId>,
    removed: map<ObjectId, O>)

  function EmptyUndo<O>(): UndoState<O> {
    UndoState(map[], map[], {}, map[])
  }

  /** Ids below the counter were handed out; ids at or above it were not. */
  predicate WellFormed<O>(s: Store<O>) {
    forall id <- s.objects :: id.kind in s.next && id.instance < s.next[id.kind]
  }

  // ---------------------------------------------------------------- store edits

  function CreateObject<O>(s: Store<O>, k: Kind, value: O): Store<O>
    requires k in s.next
  {
    Store(s.objects[ObjectId(k, s.next[k]) := value], s.next[k := s.next[k] + 1])
  }

  function ModifyObject<O>(s: Store<O>, id: ObjectId, value: O): Store<O> {
    s.(objects := s.objects[id := value])
  }

  function RemoveObject<O>(s: Store<O>, id: ObjectId): Store<O> {
    s.(objects := s.objects - {id})
  }

  // ---------------------------------------------------------------- recording

  function OnCreate<O>(u: UndoState<O>, id: ObjectId): UndoState<O> {
    u.(oldNext := if id.kind in u.oldNext then u.oldNext else u.oldNext[id.kind := id.instance],
       newIds := u.newIds + {id})
  }

  function OnModify<O>(u: UndoState<O>, id: ObjectId, before: O): UndoState<O> {
    if id in u.newIds || id in u.oldValues then u
    else u.(oldValues := u.oldValues[id := before])
  }

  function OnRemove<O>(u: UndoState<O>, id: ObjectId, before: O): UndoState<O> {
    if id in u.newIds then u.(newIds := u.newIds - {id})
    else if id in u.oldValues then
      u.(removed := u.removed[id := u.oldValues[id]], oldValues := u.oldValues - {id})
    else if id in u.removed then u
    else u.(removed := u.removed[id := before])
  }

  // ---------------------------------------------------------------- reverting and merging

  /** The four restoring loops shared by `undo` and `pop_commit`. */
  function Revert<O>(u: UndoState<O>, s: Store<O>): Store<O> {
    Store((s.objects + u.oldValues) - u.newIds + u.removed, s.next + u.oldNext)
  }

  /** Updated objects after the first loop of `merge`: entries of `a` win, ids new in `a` need none. */
  function MergedUpdates<O>(a: UndoState<O>, b: UndoState<O>): map<ObjectId, O> {
    a.oldValues + (b.oldValues - (a.newIds + a.oldValues.Keys))
  }

  /** The composition that `merge` leaves in the older record `a`, in the order of its loops. */
  function MergeStates<O>(a: UndoState<O>, b: UndoState<O>): UndoState<O> {
    var updates := MergedUpdates(a, b);
    var created := a.newIds + b.newIds;
    UndoState(
      updates - (b.removed.Keys - created),
      b.oldNext + a.oldNext,
      created - b.removed.Keys,
      a.removed + map id | id in b.removed && id !in created ::
        if id in updates then updates[id] else b.removed[id])
  }

  // ---------------------------------------------------------------- what a record means

  /** `u` is exactly the record of how the store went from `before` to `after`. */
  ghost predicate Records<O(!new)>(u: UndoState<O>, before: Store<O>, after: Store<O>) {
    && WellFormed(before) && WellFormed(after)
    && before.next.Keys == after.next.Keys
    && (forall id :: RecordsAt(u, before, after, id))
    && (forall k :: RecordsCounter(u, before, after, k))
  }

  /** The record of one object: new, removed, updated or untouched. */
  ghost predicate RecordsAt<O>(u: UndoState<O>, before: Store<O>, after: Store<O>, id: ObjectId) {
    && (id in u.newIds <==> id in after.objects && id !in before.objects)
    && (id in u.newIds ==> id.kind in before.next && before.next[id.kind] <= id.instance)
    && (id in u.removed <==> id in before.objects && id !in after.objects)
    && (id in u.removed ==> u.removed[id] == before.objects[id])
    && (id in u.oldValues ==>
          id in before.objects && id in after.objects && u.oldValues[id] == before.objects[id])
    && (id in before.objects && id in after.objects && id !in u.oldValues ==>
          before.objects[id] == after.objects[id])
  }

  /** The record of one index's counter, which only grows. */
  ghost predicate RecordsCounter<O>(u: UndoState<O>, before: Store<O>, after: Store<O>, k: Kind)
    requires before.next.Keys == after.next.Keys
  {
    && (k in u.oldNext ==> k in before.next && u.oldNext[k] == before.next[k])
    && (k in before.next ==> before.next[k] <= after.next[k])
    && (k in before.next && k !in u.oldNext ==> before.next[k] == after.next[k])
  }

  /** The three record sets never overlap. */
  lemma RecordSetsAreDisjoint<O(!new)>(u: UndoState<O>, before: Store<O>, after: Store<O>)
    requires Records(u, before, after)
    ensures u.newIds !! u.oldValues.Keys && u.newIds !! u.removed.Keys && u.oldValues.Keys !! u.removed.Keys
  {
    forall id
      ensures !(id in u.newIds && id in u.oldValues)
      ensures !(id in u.newIds && id in u.removed)
      ensures !(id in u.oldValues && id in u.removed)
    {
      assert RecordsAt(u, before, after, id);
    }
  }

  lemma EmptyRecordsNothing<O(!new)>(s: Store<O>)
    requires WellFormed(s)
    ensures Records(EmptyUndo(), s, s)
  {
  }

  /** Reverting a record of `before -> after` gives back `before`: objects and counters. */
  lemma RevertRestores<O(!new)>(u: UndoState<O>, before: Store<O>, after: Store<O>)
    requires Records(u, before, after)
    ensures Revert(u, after) == before
  {
    var r := Revert(u, after);
    forall id
      ensures id in r.objects <==> id in before.objects
      ensures id in r.objects ==> r.objects[id] == before.objects[id]
    {
      assert RecordsAt(u, before, after, id);
    }
    assert r.objects == before.objects;
    forall k
      ensures k in r.next <==> k in before.next
      ensures k in r.next ==> r.next[k] == before.next[k]
    {
      assert RecordsCounter(u, before, after, k);
      assert k in after.next <==> k in after.next.Keys;
    }
    assert r.next == before.next;
  }

  // ---------------------------------------------------------------- recording keeps the meaning

  lemma CreateIsRecorded<O(!new)>(u: UndoState<O>, before: Store<O>, s: Store<O>, k: Kind, value: O)
    requires Records(u, before, s) && k in s.next
    ensures Records(OnCreate(u, ObjectId(k, s.next[k])), before, CreateObject(s, k, value))
  {
    var id := ObjectId(k, s.next[k]);
    var u', s' := OnCreate(u, id), CreateObject(s, k, value);
    assert RecordsCounter(u, before, s, k) && k in before.next.Keys;
    assert s'.next.Keys == s.next.Keys;
    assert id !in before.objects;
    forall x ensures RecordsAt(u', before, s', x) {
      assert RecordsAt(u, before, s, x);
    }
    forall c ensures RecordsCounter(u', before, s', c) {
      assert RecordsCounter(u, before, s, c);
    }
  }

  lemma ModifyIsRecorded<O(!new)>(u: UndoState<O>, before: Store<O>, s: Store<O>, id: ObjectId, value: O)
    requires Records(u, before, s) && id in s.objects
    ensures Records(OnModify(u, id, s.objects[id]), before, ModifyObject(s, id, value))
  {
    var u', s' := OnModify(u, id, s.objects[id]), ModifyObject(s, id, value);
    forall x ensures RecordsAt(u', before, s', x) {
      assert RecordsAt(u, before, s, x);
    }
    forall c ensures RecordsCounter(u', before, s', c) {
      assert RecordsCounter(u, before, s, c);
    }
  }

  lemma RemoveIsRecorded<O(!new)>(u: UndoState<O>, before: Store<O>, s: Store<O>, id: ObjectId)
    requires Records(u, before, s) && id in s.objects
    ensures Records(OnRemove(u, id, s.objects[id]), before, RemoveObject(s, id))
  {
    var u', s' := OnRemove(u, id, s.objects[id]), RemoveObject(s, id);
    forall x ensures RecordsAt(u', before, s', x) {
      assert RecordsAt(u, before, s, x);
    }
    forall c ensures RecordsCounter(u', before, s', c) {
      assert RecordsCounter(u, before, s, c);
    }
  }

  // ---------------------------------------------------------------- merge is composition

  /** The cells of the merge table marked N/A, one object at a time: an id is never handed out
      twice, and a removed object is not touched again. */
  lemma ImpossibleMergesNeverOccur<O(!new)>(
    a: UndoState<O>, b: UndoState<O>, s0: Store<O>, s1: Store<O>, s2: Store<O>, id: ObjectId)
    requires Records(a, s0, s1) && Records(b, s1, s2)
    ensures id in b.newIds ==> id !in a.newIds && id !in a.oldValues && id !in a.removed
    ensures id in a.removed ==> id !in b.oldValues && id !in b.removed
  {
    assert RecordsAt(a, s0, s1, id) && RecordsAt(b, s1, s2, id);
    assert RecordsCounter(a, s0, s1, id.kind);
    assert id.kind in s0.next <==> id.kind in s0.next.Keys;
  }

  /** `merge` composes: the merged record describes the whole step `s0 -> s2`. */
  lemma MergeRecordsBoth<O(!new)>(a: UndoState<O>, b: UndoState<O>, s0: Store<O>, s1: Store<O>, s2: Store<O>)
    requires Records(a, s0, s1) && Records(b, s1, s2)
    ensures Records(MergeStates(a, b), s0, s2)
  {
    var m := MergeStates(a, b);
    forall id ensures RecordsAt(m, s0, s2, id) {
      ImpossibleMergesNeverOccur(a, b, s0, s1, s2, id);
      assert RecordsAt(a, s0, s1, id) && RecordsAt(b, s1, s2, id);
      assert RecordsCounter(a, s0, s1, id.kind);
      assert id.kind in s0.next <==> id.kind in s0.next.Keys;
    }
    forall k ensures RecordsCounter(m, s0, s2, k) {
      assert RecordsCounter(a, s0, s1, k) && RecordsCounter(b, s1, s2, k);
      assert k in s0.next <==> k in s0.next.Keys;
      assert k in s1.next <==> k in s1.next.Keys;
    }
  }

  /** Reverting the merged record equals reverting the newer record and then the older one. */
  lemma MergeIsComposition<O(!new)>(a: UndoState<O>, b: UndoState<O>, s0: Store<O>, s1: Store<O>, s2: Store<O>)
    requires Records(a, s0, s1) && Records(b, s1, s2)
    ensures Revert(MergeStates(a, b), s2) == Revert(a, Revert(b, s2)) == s0
  {
    MergeRecordsBoth(a, b, s0, s1, s2);
    RevertRestores(MergeStates(a, b), s0, s2);
    RevertRestores(b, s1, s2);
    RevertRestores(a, s0, s1);
  }
}
