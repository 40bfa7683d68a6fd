/** The undo database as the object that the node mutates: each method is one command of
    `UndoMachine`, carried out by the loops of the source. */
module UndoDatabase {
  import opened UndoLog
  import opened UndoMachine

  class UndoDatabase<O(!new)> {
    var store: Store<O>
    var stack: seq<UndoState<O>>
    var active: nat
    var maxSize: nat
    /** The stores held when the stack entries were opened. */
    ghost var history: seq<Store<O>>

    function State(): Db<O>
      reads this
    {
      Db(store, stack, active, maxSize)
    }

    ghost predicate Valid()
      reads this
    {
      Consistent(State(), history)
    }

    constructor (initial: Store<O>)
      requires WellFormed(initial)
      ensures Valid() && State() == Db(initial, [], 0, 256) && history == []
    {
      store, stack, active, maxSize := initial, [], 0, 256;
      history := [];
    }

    /** Restores what `u` recorded, object by object, in whatever order the hash maps give. */
    method Restore(u: UndoState<O>, ghost before: Store<O>)
      requires Records(u, before, store)
      modifies this`store
      ensures store == Revert(u, old(store)) == before
    {
      RevertRestores(u, before, store);
      var objects := PutAll(store.objects, u.oldValues);
      objects := DropAll(objects, u.newIds);
      var next := PutAll(store.next, u.oldNext);
      objects := PutAll(objects, u.removed);
      store := Store(objects, next);
    }

    static method PutAll<K, V>(m: map<K, V>, entries: map<K, V>) returns (r: map<K, V>)
      ensures r == m + entries
    {
      r := m;
      var todo := entries.Keys;
      while todo != {}
        invariant todo <= entries.Keys && r == m + (entries - todo)
      {
        var k :| k in todo;
        r := r[k := entries[k]];
        todo := todo - {k};
        assert entries - todo == (entries - (todo + {k}))[k := entries[k]];
      }
      assert entries - todo == entries;
    }

    static method DropAll<K, V>(m: map<K, V>, keys: set<K>) returns (r: map<K, V>)
      ensures r == m - keys
    {
      r := m;
      var todo := keys;
      while todo != {}
        invariant todo <= keys && r == m - (keys - todo)
      {
        var k :| k in todo;
        r := r - {k};
        todo := todo - {k};
      }
      assert keys - todo == keys;
    }

    static method PruneFront(start: seq<UndoState<O>>, max: nat) returns (r: seq<UndoState<O>>)
      ensures r == Prune(start, max)
    {
      r := start;
      while |r| > max
        invariant |r| <= |start| && r == start[|start| - |r|..]
        invariant |start| > max ==> |r| >= max
        invariant |start| <= max ==> r == start
      {
        r := r[1..];
      }
    }

    method StartSession()
      requires Valid()
      modifies this
      ensures Valid() && State() == Step(old(State()), Start)
      ensures history == StepHistory(old(State()), old(history), Start)
      ensures store == old(store) && active == old(active) + 1 && maxSize == old(maxSize)
      ensures |old(history)| <= maxSize ==> history == old(history) + [store]
      ensures |old(history)| > maxSize ==> history == old(history)[|old(history)| - maxSize..] + [store]
    {
      StepConsistent(State(), history, Start);
      ghost var h := Prune(history, maxSize) + [store];
      var kept := PruneFront(stack, maxSize);
      stack := kept + [EmptyUndo()];
      active := active + 1;
      history := h;
    }

    /** `create`, with the undo database told just after. */
    method Create(k: Kind, value: O) returns (ok: bool)
      requires Valid()
      modifies this
      ensures Valid() && State() == Step(old(State()), Command.Create(k, value))
      ensures history == StepHistory(old(State()), old(history), Command.Create(k, value))
      ensures ok <==> k in old(store).next
      ensures store == if !ok then old(store) else
        var n := old(store).next[k];
        Store(old(store).objects[ObjectId(k, n) := value], old(store).next[k := n + 1])
    {
      StepConsistent(State(), history, Command.Create(k, value));
      history := StepHistory(State(), history, Command.Create(k, value));
      ok := k in store.next;
      if ok {
        var id := ObjectId(k, store.next[k]);
        store := CreateObject(store, k, value);
        if |stack| == 0 {
          stack := [EmptyUndo()];
        }
        var top := NoteCreation(stack[|stack| - 1], id);
        stack := stack[..|stack| - 1] + [top];
      }
    }

    static method NoteCreation(u: UndoState<O>, id: ObjectId) returns (top: UndoState<O>)
      ensures top == OnCreate(u, id)
    {
      top := u;
      if id.kind !in top.oldNext {
        top := top.(oldNext := top.oldNext[id.kind := id.instance]);
      }
      top := top.(newIds := top.newIds + {id});
    }

    /** `modify`, with the undo database told just before. */
    method Modify(id: ObjectId, value: O) returns (ok: bool)
      requires Valid()
      modifies this
      ensures Valid() && State() == Step(old(State()), Command.Modify(id, value))
      ensures history == StepHistory(old(State()), old(history), Command.Modify(id, value))
      ensures ok <==> id in old(store).objects
      ensures store == if ok then Store(old(store).objects[id := value], old(store).next) else old(store)
    {
      StepConsistent(State(), history, Command.Modify(id, value));
      history := StepHistory(State(), history, Command.Modify(id, value));
      ok := id in store.objects;
      if ok {
        if |stack| == 0 {
          stack := [EmptyUndo()];
        }
        var top := NoteModification(stack[|stack| - 1], id, store.objects[id]);
        stack := stack[..|stack| - 1] + [top];
        store := ModifyObject(store, id, value);
      }
    }

    static method NoteModification(u: UndoState<O>, id: ObjectId, before: O) returns (top: UndoState<O>)
      ensures top == OnModify(u, id, before)
    {
      top := u;
      if id !in top.newIds && id !in top.oldValues {
        top := top.(oldValues := top.oldValues[id := before]);
      }
    }

    /** `remove`, with the undo database told just before. */
    method Remove(id: ObjectId) returns (ok: bool)
      requires Valid()
      modifies this
      ensures Valid() && State() == Step(old(State()), Command.Remove(id))
      ensures history == StepHistory(old(State()), old(history), Command.Remove(id))
      ensures ok <==> id in old(store).objects
      ensures store == if ok then Store(old(store).objects - {id}, old(store).next) else old(store)
    {
      StepConsistent(State(), history, Command.Remove(id));
      history := StepHistory(State(), history, Command.Remove(id));
      ok := id in store.objects;
      if ok {
        if |stack| == 0 {
          stack := [EmptyUndo()];
        }
        var top := NoteRemoval(stack[|stack| - 1], id, store.objects[id]);
        stack := stack[..|stack| - 1] + [top];
        store := RemoveObject(store, id);
      }
    }

    static method NoteRemoval(u: UndoState<O>, id: ObjectId, before: O) returns (top: UndoState<O>)
      ensures top == OnRemove(u, id, before)
    {
      top := u;
      if id in top.newIds {
        top := top.(newIds := top.newIds - {id});
      } else if id in top.oldValues {
        top := top.(removed := top.removed[id := top.oldValues[id]], oldValues := top.oldValues - {id});
      } else if id !in top.removed {
        top := top.(removed := top.removed[id := before]);
      }
    }

    /** Undoing puts back exactly the store held when the top entry was opened. */
    method Undo() returns (ok: bool)
      requires Valid()
      modifies this
      ensures Valid() && State() == Step(old(State()), Command.Undo)
      ensures history == StepHistory(old(State()), old(history), Command.Undo)
      ensures ok <==> old(active) > 0
      ensures ok ==> |old(history)| >= 1 && store == old(history)[|old(history)| - 1] && active == old(active) - 1
      ensures ok ==> history == if |old(history)| == 1 then [store] else old(history)[..|old(history)| - 1]
    {
      StepConsistent(State(), history, Command.Undo);
      ok := active > 0;
      if ok {
        ghost var n := |history| - 1;
        assert Recorded(State(), history, n);
        ghost var h := StepHistory(State(), history, Command.Undo);
        Restore(stack[|stack| - 1], history[n]);
        stack := stack[..|stack| - 1];
        if |stack| == 0 {
          stack := [EmptyUndo()];
        }
        active := active - 1;
        history := h;
      }
    }

    /** The destructor of a session that was neither committed nor merged. */
    method DestroySession()
      requires Valid() && active > 0
      modifies this
      ensures Valid() && active == old(active) - 1 && maxSize == old(maxSize) && |old(history)| >= 1
      ensures store == old(history)[|old(history)| - 1]
      ensures history == if |old(history)| == 1 then [store] else old(history)[..|old(history)| - 1]
    {
      var _ := Undo();
    }

    method Commit() returns (ok: bool)
      requires Valid()
      modifies this
      ensures Valid() && State() == Step(old(State()), Command.Commit)
      ensures history == old(history)
      ensures ok <==> old(active) > 0
      ensures store == old(store) && stack == old(stack) && active == if ok then old(active) - 1 else 0
    {
      StepConsistent(State(), history, Command.Commit);
      ok := active > 0;
      if ok {
        active := active - 1;
      }
    }

    /** Popping a committed entry puts back exactly the store held when it was opened. */
    method PopCommit() returns (ok: bool)
      requires Valid()
      modifies this
      ensures Valid() && State() == Step(old(State()), Command.PopCommit)
      ensures history == StepHistory(old(State()), old(history), Command.PopCommit)
      ensures ok <==> old(active) == 0 && |old(stack)| >= 1
      ensures ok ==> |old(history)| >= 1 && store == old(history)[|old(history)| - 1]
    {
      StepConsistent(State(), history, Command.PopCommit);
      ok := active == 0 && |stack| >= 1;
      if ok {
        ghost var n := |history| - 1;
        assert Recorded(State(), history, n);
        ghost var h := StepHistory(State(), history, Command.PopCommit);
        Restore(stack[|stack| - 1], history[n]);
        stack := stack[..|stack| - 1];
        history := h;
      }
    }

    /** `PopCommit` as the chain uses it, with no session open. */
    method PopEntry() returns (ok: bool)
      requires Valid() && active == 0
      modifies this
      ensures Valid() && active == 0 && maxSize == old(maxSize)
      ensures ok <==> |old(history)| >= 1
      ensures ok ==> store == old(history)[|old(history)| - 1] && history == old(history)[..|old(history)| - 1]
      ensures !ok ==> store == old(store) && history == old(history)
    {
      ok := PopCommit();
    }

    method SetMaxSize(n: nat)
      requires Valid()
      modifies this
      ensures Valid() && State() == Step(old(State()), Command.SetMaxSize(n))
      ensures history == old(history) && store == old(store) && stack == old(stack) && maxSize == n
    {
      StepConsistent(State(), history, Command.SetMaxSize(n));
      maxSize := n;
    }

    /** Merges the top entry into the one below, as the three loops over the newer record do. */
    method Merge() returns (ok: bool)
      requires Valid()
      modifies this
      ensures Valid() && State() == Step(old(State()), Command.Merge)
      ensures history == StepHistory(old(State()), old(history), Command.Merge)
      ensures ok <==> old(active) > 0 && |old(stack)| >= 2
      ensures store == old(store) && (ok ==> |old(history)| >= 2 && history == old(history)[..|old(history)| - 1])
    {
      StepConsistent(State(), history, Command.Merge);
      ghost var h := StepHistory(State(), history, Command.Merge);
      ok := active > 0 && |stack| >= 2;
      if ok {
        var n := |stack|;
        var merged := MergeRecords(stack[n - 2], stack[n - 1]);
        stack := stack[..n - 2] + [merged];
        active := active - 1;
      }
      history := h;
    }

    static method MergeRecords(a: UndoState<O>, b: UndoState<O>) returns (m: UndoState<O>)
      ensures m == MergeStates(a, b)
    {
      m := MergeUpdates(a, b);
      var newer := b.newIds;
      while newer != {}
        invariant newer <= b.newIds
        invariant m == UndoState(MergedUpdates(a, b), a.oldNext, a.newIds + (b.newIds - newer), a.removed)
      {
        var id :| id in newer;
        m := m.(newIds := m.newIds + {id});
        newer := newer - {id};
      }
      assert b.newIds - newer == b.newIds;
      var kinds := b.oldNext.Keys;
      ghost var created := a.newIds + b.newIds;
      while kinds != {}
        invariant kinds <= b.oldNext.Keys
        invariant m == UndoState(MergedUpdates(a, b), (b.oldNext - kinds) + a.oldNext, created, a.removed)
      {
        var k :| k in kinds;
        if k !in m.oldNext {
          m := m.(oldNext := m.oldNext[k := b.oldNext[k]]);
        }
        kinds := kinds - {k};
        assert b.oldNext - kinds == (b.oldNext - (kinds + {k}))[k := b.oldNext[k]];
      }
      assert b.oldNext - kinds == b.oldNext;
      m := MergeRemovals(m, b);
      assert m.removed == MergeStates(a, b).removed;
    }

    /** First loop of `merge`: updates recorded by the newer entry. */
    static method MergeUpdates(a: UndoState<O>, b: UndoState<O>) returns (m: UndoState<O>)
      ensures m == a.(oldValues := MergedUpdates(a, b))
    {
      m := a;
      ghost var skip := a.newIds + a.oldValues.Keys;
      var todo := b.oldValues.Keys;
      while todo != {}
        invariant todo <= b.oldValues.Keys
        invariant m == a.(oldValues := a.oldValues + ((b.oldValues - todo) - skip))
      {
        var id :| id in todo;
        if id !in m.newIds && id !in m.oldValues {
          m := m.(oldValues := m.oldValues[id := b.oldValues[id]]);
        }
        todo := todo - {id};
        assert m.oldValues == a.oldValues + ((b.oldValues - todo) - skip);
      }
      assert b.oldValues - todo == b.oldValues;
    }

    /** Last loop of `merge`: objects the newer entry removed. */
    static method MergeRemovals(m0: UndoState<O>, b: UndoState<O>) returns (m: UndoState<O>)
      ensures m == RemovalsMerged(m0, b, b.removed.Keys)
    {
      m := m0;
      var todo := b.removed.Keys;
      assert RemovalsMerged(m0, b, b.removed.Keys - todo) == m0;
      while todo != {}
        invariant todo <= b.removed.Keys && m == RemovalsMerged(m0, b, b.removed.Keys - todo)
      {
        var id :| id in todo;
        ghost var done := b.removed.Keys - todo;
        MergeOneRemoval(m0, b, done, id);
        if id in m.newIds {
          m := m.(newIds := m.newIds - {id});
        } else if id in m.oldValues {
          m := m.(removed := m.removed[id := m.oldValues[id]], oldValues := m.oldValues - {id});
        } else {
          m := m.(removed := m.removed[id := b.removed[id]]);
        }
        todo := todo - {id};
        assert b.removed.Keys - todo == done + {id};
      }
      assert b.removed.Keys - todo == b.removed.Keys;
    }
  }

  /** The old values of the objects in `done` that were not new in `m`. */
  ghost function RemovedValues<O>(m: UndoState<O>, b: UndoState<O>, done: set<ObjectId>): map<ObjectId, O>
    requires done <= b.removed.Keys
  {
    map id | id in done && id !in m.newIds :: if id in m.oldValues then m.oldValues[id] else b.removed[id]
  }

  /** `m` after the removals `done` of the newer record `b` have been merged into it. */
  ghost function RemovalsMerged<O>(m: UndoState<O>, b: UndoState<O>, done: set<ObjectId>): UndoState<O>
    requires done <= b.removed.Keys
  {
    UndoState(m.oldValues - (done - m.newIds), m.oldNext, m.newIds - done, m.removed + RemovedValues(m, b, done))
  }

  function MergeRemoval<O>(m: UndoState<O>, id: ObjectId, value: O): UndoState<O> {
    if id in m.newIds then m.(newIds := m.newIds - {id})
    else if id in m.oldValues then
      m.(removed := m.removed[id := m.oldValues[id]], oldValues := m.oldValues - {id})
    else m.(removed := m.removed[id := value])
  }

  lemma MergeOneRemoval<O>(m0: UndoState<O>, b: UndoState<O>, done: set<ObjectId>, id: ObjectId)
    requires done <= b.removed.Keys && id in b.removed && id !in done
    ensures RemovalsMerged(m0, b, done + {id}) == MergeRemoval(RemovalsMerged(m0, b, done), id, b.removed[id])
  {
    if id in m0.newIds {
      assert RemovedValues(m0, b, done + {id}) == RemovedValues(m0, b, done);
      assert done + {id} - m0.newIds == done - m0.newIds;
      assert m0.newIds - (done + {id}) == m0.newIds - done - {id};
    } else {
      MergeOneOldRemoval(m0, b, done, id);
    }
  }

  lemma MergeOneOldRemoval<O>(m0: UndoState<O>, b: UndoState<O>, done: set<ObjectId>, id: ObjectId)
    requires done <= b.removed.Keys && id in b.removed && id !in done && id !in m0.newIds
    ensures RemovalsMerged(m0, b, done + {id}) == MergeRemoval(RemovalsMerged(m0, b, done), id, b.removed[id])
  {
    var value := if id in m0.oldValues then m0.oldValues[id] else b.removed[id];
    assert RemovedValues(m0, b, done + {id}) == RemovedValues(m0, b, done)[id := value];
    assert m0.newIds - (done + {id}) == m0.newIds - done;
    assert m0.removed + RemovedValues(m0, b, done)[id := value]
      == (m0.removed + RemovedValues(m0, b, done))[id := value];
    assert m0.oldValues - (done + {id} - m0.newIds) == m0.oldValues - (done - m0.newIds) - {id};
    if id !in m0.oldValues {
      assert m0.oldValues - (done - m0.newIds) - {id} == m0.oldValues - (done - m0.newIds);
    }
  }
}
