/** The undo database as a machine: every run of edits, nested sessions, merges, commits and
    undos, and what the top stack entry restores. */
module UndoMachine {
  import opened UndoLog

  datatype Db<O> = Db(store: Store<O>, stack: seq<UndoState<O>>, active: nat, maxSize: nat)

  datatype Command<O> =
    | Create(kind: Kind, value: O)
    | Modify(id: ObjectId, value: O)
    | Remove(id: ObjectId)
    | Start
    | Undo
    | Merge
    | Commit
    | PopCommit
    | SetMaxSize(size: nat)

  /** The record an edit goes to: the top entry, opened on demand when the stack is empty. */
  function Opened<O>(stack: seq<UndoState<O>>): (r: seq<UndoState<O>>)
    ensures |r| >= 1
  {
    if |stack| == 0 then [EmptyUndo()] else stack
  }

  /** `while( size() > max_size() ) _stack.pop_front()`. */
  function Prune<T>(stack: seq<T>, max: nat): seq<T> {
    if |stack| > max then stack[|stack| - max..] else stack
  }

  function WithTop<O>(stack: seq<UndoState<O>>, u: UndoState<O>): seq<UndoState<O>>
    requires |stack| >= 1
  {
    stack[..|stack| - 1] + [u]
  }

  function Top<O>(stack: seq<UndoState<O>>): UndoState<O>
    requires |stack| >= 1
  {
    stack[|stack| - 1]
  }

  /** The calls that pass their assertions; the others throw and change nothing. */
  predicate Legal<O>(d: Db<O>, c: Command<O>) {
    match c
    case Create(k, _) => k in d.store.next
    case Modify(id, _) => id in d.store.objects
    case Remove(id) => id in d.store.objects
    case Undo => d.active > 0
    case Merge => d.active > 0 && |d.stack| >= 2
    case Commit => d.active > 0
    case PopCommit => d.active == 0 && |d.stack| >= 1
    case _ => true
  }

  function Step<O>(d: Db<O>, c: Command<O>): Db<O>
    requires d.active > 0 ==> |d.stack| >= 1
  {
    if !Legal(d, c) then d else
    var stack := Opened(d.stack);
    match c
    case Create(k, v) =>
      d.(store := CreateObject(d.store, k, v),
         stack := WithTop(stack, OnCreate(Top(stack), ObjectId(k, d.store.next[k]))))
    case Modify(id, v) =>
      d.(store := ModifyObject(d.store, id, v),
         stack := WithTop(stack, OnModify(Top(stack), id, d.store.objects[id])))
    case Remove(id) =>
      d.(store := RemoveObject(d.store, id),
         stack := WithTop(stack, OnRemove(Top(stack), id, d.store.objects[id])))
    case Start => d.(stack := Prune(d.stack, d.maxSize) + [EmptyUndo()], active := d.active + 1)
    case Undo =>
      d.(store := Revert(Top(d.stack), d.store),
         stack := Opened(d.stack[..|d.stack| - 1]),
         active := d.active - 1)
    case Merge =>
      var n := |d.stack|;
      d.(stack := d.stack[..n - 2] + [MergeStates(d.stack[n - 2], d.stack[n - 1])], active := d.active - 1)
    case Commit => d.(active := d.active - 1)
    case PopCommit =>
      d.(store := Revert(Top(d.stack), d.store), stack := d.stack[..|d.stack| - 1])
    case SetMaxSize(n) => d.(maxSize := n)
  }

  // ---------------------------------------------------------------- history

  /** The stores held when the entries of the stack were opened, oldest first. A merged entry
      counts as part of its parent, so it leaves with its own opening. */
  ghost function StepHistory<O>(d: Db<O>, h: seq<Store<O>>, c: Command<O>): seq<Store<O>>
    requires |h| == |d.stack|
  {
    if !Legal(d, c) then h else
    match c
    case Create(_, _) => OpenedHistory(d.store, h)
    case Modify(_, _) => OpenedHistory(d.store, h)
    case Remove(_) => OpenedHistory(d.store, h)
    case Start => Prune(h, d.maxSize) + [d.store]
    case Undo => if |h| == 0 then h else OpenedHistory(h[|h| - 1], h[..|h| - 1])
    case Merge => h[..|h| - 1]
    case Commit => h
    case PopCommit => h[..|h| - 1]
    case SetMaxSize(_) => h
  }

  ghost function OpenedHistory<O>(s: Store<O>, h: seq<Store<O>>): seq<Store<O>> {
    if |h| == 0 then [s] else h
  }

  /** The store that followed entry `i`: the opening of the next entry, or the current store. */
  ghost function After<O>(d: Db<O>, h: seq<Store<O>>, i: nat): Store<O>
    requires i < |h|
  {
    if i + 1 < |h| then h[i + 1] else d.store
  }

  /** Every entry is the exact record of the step from its opening to the next one. */
  ghost predicate Consistent<O(!new)>(d: Db<O>, h: seq<Store<O>>) {
    && |h| == |d.stack|
    && (d.active > 0 ==> |d.stack| >= 1)
    && WellFormed(d.store)
    && forall i :: 0 <= i < |h| ==> Recorded(d, h, i)
  }

  /** Entry `i` is the record of the step from its opening to what followed it. */
  ghost predicate Recorded<O(!new)>(d: Db<O>, h: seq<Store<O>>, i: nat)
    requires |h| == |d.stack| && i < |h|
  {
    Records(d.stack[i], h[i], After(d, h, i))
  }

  /** Replacing the top record and the current store by a consistent pair keeps consistency. */
  lemma ReplaceTop<O(!new)>(d: Db<O>, h: seq<Store<O>>, u: UndoState<O>, s: Store<O>)
    requires Consistent(d, h) && |h| >= 1
    requires Records(u, h[|h| - 1], s)
    ensures Consistent(d.(store := s, stack := WithTop(d.stack, u)), h)
  {
    var d' := d.(store := s, stack := WithTop(d.stack, u));
    forall i | 0 <= i < |h|
      ensures Recorded(d', h, i)
    {
      if i < |h| - 1 {
        assert Recorded(d, h, i);
      }
    }
  }

  lemma OpenedConsistent<O(!new)>(d: Db<O>, h: seq<Store<O>>)
    requires Consistent(d, h)
    ensures Consistent(d.(stack := Opened(d.stack)), OpenedHistory(d.store, h))
  {
    if |h| == 0 {
      EmptyRecordsNothing(d.store);
    }
  }

  lemma EditConsistent<O(!new)>(d: Db<O>, h: seq<Store<O>>, c: Command<O>)
    requires Consistent(d, h)
    requires c.Create? || c.Modify? || c.Remove?
    ensures Consistent(Step(d, c), StepHistory(d, h, c))
  {
    if Legal(d, c) {
      OpenedConsistent(d, h);
      var d1, h1 := d.(stack := Opened(d.stack)), OpenedHistory(d.store, h);
      var u, before := Top(d1.stack), h1[|h1| - 1];
      assert Recorded(d1, h1, |h1| - 1);
      match c {
        case Create(k, v) => CreateIsRecorded(u, before, d.store, k, v);
        case Modify(id, v) => ModifyIsRecorded(u, before, d.store, id, v);
        case Remove(id) => RemoveIsRecorded(u, before, d.store, id);
      }
      ReplaceTop(d1, h1, Top(Step(d, c).stack), Step(d, c).store);
    }
  }

  lemma StartConsistent<O(!new)>(d: Db<O>, h: seq<Store<O>>)
    requires Consistent(d, h)
    ensures Consistent(Step(d, Start), StepHistory(d, h, Start))
  {
    EmptyRecordsNothing(d.store);
    var d', h' := Step(d, Start), StepHistory(d, h, Start);
    var cut := |d.stack| + 1 - |d'.stack|;
    forall i | 0 <= i < |h'|
      ensures Recorded(d', h', i)
    {
      if i < |h'| - 1 {
        assert Recorded(d, h, i + cut);
      }
    }
  }

  /** Dropping the top entry while putting its opening back keeps the entries below. */
  lemma PoppedConsistent<O(!new)>(d: Db<O>, h: seq<Store<O>>, active: nat)
    requires Consistent(d, h) && |h| >= 1
    requires active > 0 ==> |h| >= 2
    ensures Revert(Top(d.stack), d.store) == h[|h| - 1]
    ensures Consistent(Db(h[|h| - 1], d.stack[..|h| - 1], active, d.maxSize), h[..|h| - 1])
  {
    var n := |h| - 1;
    assert Recorded(d, h, n);
    RevertRestores(d.stack[n], h[n], d.store);
    var d', h' := Db(h[n], d.stack[..n], active, d.maxSize), h[..n];
    forall i | 0 <= i < n
      ensures Recorded(d', h', i)
    {
      assert Recorded(d, h, i);
    }
  }

  lemma UndoConsistent<O(!new)>(d: Db<O>, h: seq<Store<O>>)
    requires Consistent(d, h) && d.active > 0
    ensures Consistent(Step(d, Undo), StepHistory(d, h, Undo))
    ensures Step(d, Undo).store == h[|h| - 1]
  {
    PoppedConsistent(d, h, 0);
    var popped := Db(h[|h| - 1], d.stack[..|h| - 1], 0, d.maxSize);
    OpenedConsistent(popped, h[..|h| - 1]);
    var d', h' := Step(d, Undo), StepHistory(d, h, Undo);
    forall i | 0 <= i < |h'|
      ensures Recorded(d', h', i)
    {
      assert Recorded(popped.(stack := Opened(popped.stack)), h', i);
    }
  }

  lemma MergeConsistent<O(!new)>(d: Db<O>, h: seq<Store<O>>)
    requires Consistent(d, h) && Legal(d, Merge)
    ensures Consistent(Step(d, Merge), StepHistory(d, h, Merge))
  {
    var n := |h|;
    assert Recorded(d, h, n - 2);
    assert Recorded(d, h, n - 1);
    MergeRecordsBoth(d.stack[n - 2], d.stack[n - 1], h[n - 2], h[n - 1], d.store);
    var d', h' := Step(d, Merge), StepHistory(d, h, Merge);
    forall i | 0 <= i < |h'|
      ensures Recorded(d', h', i)
    {
      if i < n - 2 {
        assert Recorded(d, h, i);
      }
    }
  }

  /** What every call keeps. */
  lemma StepConsistent<O(!new)>(d: Db<O>, h: seq<Store<O>>, c: Command<O>)
    requires Consistent(d, h)
    ensures Consistent(Step(d, c), StepHistory(d, h, c))
  {
    match c {
      case Start => StartConsistent(d, h);
      case Undo => if d.active > 0 { UndoConsistent(d, h); }
      case Merge => if Legal(d, c) { MergeConsistent(d, h); }
      case PopCommit => if Legal(d, c) { PoppedConsistent(d, h, 0); }
      case Commit => SameEntries(d, Step(d, c), h);
      case SetMaxSize(_) => SameEntries(d, Step(d, c), h);
      case _ => EditConsistent(d, h, c);
    }
  }

  lemma SameEntries<O(!new)>(d: Db<O>, d': Db<O>, h: seq<Store<O>>)
    requires Consistent(d, h)
    requires d'.store == d.store && d'.stack == d.stack && d'.active <= d.active
    ensures Consistent(d', h)
  {
    forall i | 0 <= i < |h|
      ensures Recorded(d', h, i)
    {
      assert Recorded(d, h, i);
    }
  }

  // ---------------------------------------------------------------- whole runs

  /** A database with its history, and the stores at which the sessions still open were started
      (outermost first). */
  datatype Trace<O> = Trace(db: Db<O>, history: seq<Store<O>>, openings: seq<Store<O>>)

  ghost predicate Traced<O(!new)>(t: Trace<O>) {
    Consistent(t.db, t.history)
  }

  ghost function StepTrace<O(!new)>(t: Trace<O>, c: Command<O>): (r: Trace<O>)
    requires Traced(t)
    ensures Traced(r)
  {
    StepConsistent(t.db, t.history, c);
    Trace(Step(t.db, c), StepHistory(t.db, t.history, c), StepOpenings(t.db, t.openings, c))
  }

  ghost function StepOpenings<O>(d: Db<O>, openings: seq<Store<O>>, c: Command<O>): seq<Store<O>> {
    if !Legal(d, c) then openings
    else if c.Start? then openings + [d.store]
    else if (c.Undo? || c.Merge? || c.Commit?) && |openings| > 0 then openings[..|openings| - 1]
    else openings
  }

  ghost function Run<O(!new)>(t: Trace<O>, cs: seq<Command<O>>): (r: Trace<O>)
    requires Traced(t)
    ensures Traced(r)
    decreases |cs|
  {
    if cs == [] then t else Run(StepTrace(t, cs[0]), cs[1..])
  }

  lemma PopRestoresTopOpening<O(!new)>(d: Db<O>, h: seq<Store<O>>)
    requires Consistent(d, h)
    ensures Legal(d, Undo) ==> |h| >= 1 && Step(d, Undo).store == h[|h| - 1]
    ensures Legal(d, PopCommit) ==> |h| >= 1 && Step(d, PopCommit).store == h[|h| - 1]
  {
    if |h| >= 1 {
      PoppedConsistent(d, h, 0);
    }
  }

  /** After any run, `undo` puts back exactly the objects and counters held when the top stack
      entry was opened, and so does `pop_commit` when no session is open. */
  lemma UndoRestoresTopOpening<O(!new)>(t: Trace<O>, cs: seq<Command<O>>)
    requires Traced(t)
    ensures var Trace(d, h, _) := Run(t, cs);
            && (Legal(d, Undo) ==> |h| >= 1 && Step(d, Undo).store == h[|h| - 1])
            && (Legal(d, PopCommit) ==> |h| >= 1 && Step(d, PopCommit).store == h[|h| - 1])
  {
    var r := Run(t, cs);
    PopRestoresTopOpening(r.db, r.history);
  }

  // ---------------------------------------------------------------- sessions

  /** The two rules a caller must keep for its sessions to own stack entries: only the outermost
      session is committed, and sessions nest no deeper than the pruning bound. */
  predicate Disciplined<O>(d: Db<O>, c: Command<O>) {
    && (c.Commit? ==> d.active <= 1)
    && (c.Start? ==> d.active <= d.maxSize)
  }

  ghost predicate SessionsOwnEntries<O>(t: Trace<O>) {
    Owned(t.db.active, t.history, t.openings)
  }

  /** The openings of the sessions still open are those of the topmost entries. */
  ghost predicate Owned<S>(active: nat, h: seq<S>, openings: seq<S>) {
    |openings| == active <= |h| && openings == h[|h| - active..]
  }

  lemma {:induction false} StartKeepsOwned<S>(active: nat, h: seq<S>, openings: seq<S>, max: nat, s: S)
    requires Owned(active, h, openings) && active <= max
    ensures Owned(active + 1, Prune(h, max) + [s], openings + [s])
  {
    var g, n := Prune(h, max) + [s], |Prune(h, max)|;
    assert g[n - active..n] == openings;
    assert g[n - active..] == g[n - active..n] + [s];
  }

  lemma {:induction false} EndKeepsOwned<S>(active: nat, h: seq<S>, openings: seq<S>)
    requires Owned(active, h, openings) && active >= 1
    ensures Owned(active - 1, h[..|h| - 1], openings[..active - 1])
  {
    assert h[..|h| - 1][|h| - active..] == h[|h| - active..][..active - 1];
  }

  lemma {:induction false} NoneOwned<S>(h: seq<S>)
    ensures Owned(0, h, [])
  {
    assert h[|h|..] == [];
  }

  lemma {:induction false} StepKeepsOwned<O>(d: Db<O>, h: seq<Store<O>>, o: seq<Store<O>>, c: Command<O>)
    requires |h| == |d.stack| && (d.active > 0 ==> |d.stack| >= 1)
    requires Owned(d.active, h, o) && Disciplined(d, c) && Legal(d, c)
    ensures Owned(Step(d, c).active, StepHistory(d, h, c), StepOpenings(d, o, c))
  {
    if c.Start? {
      StartKeepsOwned(d.active, h, o, d.maxSize, d.store);
    } else if c.Undo? || c.Merge? || c.Commit? {
      EndedKeepsOwned(d, h, o, c);
    } else {
      QuietKeepsOwned(d, h, o, c);
    }
  }

  lemma {:induction false} EndedKeepsOwned<O>(d: Db<O>, h: seq<Store<O>>, o: seq<Store<O>>, c: Command<O>)
    requires |h| == |d.stack| && |h| >= 1 && Owned(d.active, h, o) && Disciplined(d, c) && Legal(d, c)
    requires c.Undo? || c.Merge? || c.Commit?
    ensures Owned(d.active - 1, StepHistory(d, h, c), StepOpenings(d, o, c))
  {
    if d.active == 1 {
      assert o[..0] == [];
      NoneOwned(StepHistory(d, h, c));
    } else {
      EndKeepsOwned(d.active, h, o);
    }
  }

  /** Commands that open and end no session. */
  lemma {:induction false} QuietKeepsOwned<O>(d: Db<O>, h: seq<Store<O>>, o: seq<Store<O>>, c: Command<O>)
    requires |h| == |d.stack| && (d.active > 0 ==> |d.stack| >= 1) && Owned(d.active, h, o) && Legal(d, c)
    requires !(c.Start? || c.Undo? || c.Merge? || c.Commit?)
    ensures Owned(d.active, StepHistory(d, h, c), StepOpenings(d, o, c))
  {
    if d.active == 0 {
      NoneOwned(StepHistory(d, h, c));
    }
  }

  lemma {:induction false} StepKeepsSessions<O(!new)>(t: Trace<O>, c: Command<O>)
    requires Traced(t) && SessionsOwnEntries(t) && Disciplined(t.db, c)
    ensures SessionsOwnEntries(StepTrace(t, c))
  {
    if Legal(t.db, c) {
      StepKeepsOwned(t.db, t.history, t.openings, c);
    }
  }

  /** A session that owns the top entry gets its own opening back. */
  lemma OwnedUndo<O(!new)>(t: Trace<O>)
    requires Traced(t) && SessionsOwnEntries(t) && t.db.active > 0
    ensures Step(t.db, Undo).store == t.openings[|t.openings| - 1]
  {
    PopRestoresTopOpening(t.db, t.history);
  }

  ghost predicate DisciplinedRun<O(!new)>(t: Trace<O>, cs: seq<Command<O>>)
    requires Traced(t)
    decreases |cs|
  {
    cs == [] || (Disciplined(t.db, cs[0]) && DisciplinedRun(StepTrace(t, cs[0]), cs[1..]))
  }

  lemma {:induction false} RunKeepsSessions<O(!new)>(t: Trace<O>, cs: seq<Command<O>>)
    requires Traced(t) && SessionsOwnEntries(t) && DisciplinedRun(t, cs)
    ensures SessionsOwnEntries(Run(t, cs))
    decreases |cs|
  {
    if cs != [] {
      StepKeepsSessions(t, cs[0]);
      RunKeepsSessions(StepTrace(t, cs[0]), cs[1..]);
    }
  }

  /** In every disciplined run, undoing a session puts back the store at which that very session
      was started, whatever was nested in it and merged or undone meanwhile. */
  lemma SessionUndoRestoresItsOpening<O(!new)>(t: Trace<O>, cs: seq<Command<O>>)
    requires Traced(t) && SessionsOwnEntries(t) && DisciplinedRun(t, cs)
    ensures var r := Run(t, cs);
            r.db.active > 0 ==> |r.openings| == r.db.active && Step(r.db, Undo).store == r.openings[|r.openings| - 1]
  {
    RunKeepsSessions(t, cs);
    var r := Run(t, cs);
    if r.db.active > 0 {
      OwnedUndo(r);
    }
  }

  // ---------------------------------------------------------------- why the two rules are needed

  /** A step leaves every open session its own entry exactly when it keeps the rules, or is an inner
      commit among sessions that all started at the same store. */
  lemma {:induction false} SessionsStayOwnedIff<O(!new)>(t: Trace<O>, c: Command<O>)
    requires Traced(t) && SessionsOwnEntries(t) && Legal(t.db, c)
    ensures SessionsOwnEntries(StepTrace(t, c)) <==>
      Disciplined(t.db, c) || (c.Commit? && t.openings[1..] == t.openings[..t.db.active - 1])
  {
    if Disciplined(t.db, c) {
      StepKeepsSessions(t, c);
    } else if c.Commit? {
      assert t.history[|t.history| - (t.db.active - 1)..] == t.openings[1..];
    }
  }

  lemma {:induction false} CommitKeepsHistory<O(!new)>(d: Db<O>, h: seq<Store<O>>)
    requires Consistent(d, h) && d.active > 0
    ensures Step(d, Commit) == d.(active := d.active - 1) && Consistent(d.(active := d.active - 1), h)
  {
    StepConsistent(d, h, Commit);
  }

  lemma {:induction false} CommitThenUndo<O(!new)>(d: Db<O>, h: seq<Store<O>>)
    requires Consistent(d, h) && d.active >= 2
    ensures |h| >= 1 && Step(Step(d, Commit), Undo).store == h[|h| - 1]
  {
    CommitKeepsHistory(d, h);
    PopRestoresTopOpening(d.(active := d.active - 1), h);
  }

  /** After an inner commit the outer session's undo reverts the inner entry: it restores its own opening
      exactly when the two sessions started at the same store. */
  lemma {:induction false} InnerCommitUndoIff<O(!new)>(t: Trace<O>)
    requires Traced(t) && SessionsOwnEntries(t) && t.db.active >= 2
    ensures var n := t.db.active;
      Step(Step(t.db, Commit), Undo).store == t.openings[n - 2] <==> t.openings[n - 1] == t.openings[n - 2]
  {
    CommitThenUndo(t.db, t.history);
  }

  /** So what the outer session created before the inner one survives its undo. */
  lemma InnerCommitMisdirectsUndo<O>(d: Db<O>, k: Kind, value: O)
    requires d.active > 0 && |d.stack| >= 1 && d.maxSize >= 1 && k in d.store.next
    ensures var created := Step(d, Create(k, value));
            Step(Step(Step(created, Start), Commit), Undo).store == created.store
  {
    var created := Step(d, Create(k, value));
    var committed := Step(Step(created, Start), Commit);
    assert Top(committed.stack) == EmptyUndo<O>();
    assert Revert(EmptyUndo(), created.store).objects == created.store.objects;
    assert Revert(EmptyUndo(), created.store).next == created.store.next;
  }

  lemma {:induction false} UndoPopsHistory<O(!new)>(d: Db<O>, h: seq<Store<O>>)
    requires Consistent(d, h) && d.active > 0
    ensures |h| >= 1 && Consistent(Step(d, Undo), StepHistory(d, h, Undo))
    ensures Step(d, Undo).store == h[|h| - 1] && Step(d, Undo).active == d.active - 1
    ensures StepHistory(d, h, Undo) == if |h| == 1 then [h[0]] else h[..|h| - 1]
  {
    StepConsistent(d, h, Undo);
    PopRestoresTopOpening(d, h);
  }

  ghost function UndoTimes<O>(d: Db<O>, k: nat): Db<O>
    requires (d.active > 0 ==> |d.stack| >= 1) && k <= d.active
    decreases k
  {
    if k == 0 then d else UndoTimes(Step(d, Undo), k - 1)
  }

  /** As many undos as there are entries go back through the openings; more stay at the oldest one. */
  lemma {:induction false} UndosFollowHistory<O(!new)>(d: Db<O>, h: seq<Store<O>>, k: nat)
    requires Consistent(d, h) && 1 <= k <= d.active
    ensures |h| >= 1
    ensures UndoTimes(d, k).store == if k <= |h| then h[|h| - k] else h[0]
    decreases k
  {
    UndoPopsHistory(d, h);
    if k > 1 {
      UndosFollowHistory(Step(d, Undo), StepHistory(d, h, Undo), k - 1);
    } else {
      assert UndoTimes(Step(d, Undo), 0) == Step(d, Undo);
    }
  }

  /** Starting a session when `maxSize` or more are open leaves `maxSize + 1` entries. */
  lemma {:induction false} StartPrunes<O(!new)>(d: Db<O>, h: seq<Store<O>>)
    requires Consistent(d, h) && |h| >= d.maxSize
    ensures var e, g := Step(d, Start), StepHistory(d, h, Start);
      && Consistent(e, g) && e.active == d.active + 1 && |g| == d.maxSize + 1
      && g[0] == if d.maxSize == 0 then d.store else h[|h| - d.maxSize]
  {
    StepConsistent(d, h, Start);
  }

  /** Starting a session when more than `maxSize` are open prunes entries that sessions still own: once the
      `maxSize + 1` entries left are undone, the next session further out gets its own opening back exactly
      when it is the one of the oldest entry left. */
  lemma {:induction false} PrunedSessionUndoIff<O(!new)>(t: Trace<O>)
    requires Traced(t) && SessionsOwnEntries(t) && t.db.active > t.db.maxSize
    ensures var n, m := t.db.active, t.db.maxSize;
      UndoTimes(Step(t.db, Start), m + 2).store == t.openings[n - m - 1] <==>
        t.openings[n - m - 1] == if m == 0 then t.db.store else t.openings[n - m]
  {
    UndosAfterPruning(t.db, t.history);
  }

  lemma {:induction false} UndosAfterPruning<O(!new)>(d: Db<O>, h: seq<Store<O>>)
    requires Consistent(d, h) && |h| >= d.maxSize && d.active > d.maxSize
    ensures UndoTimes(Step(d, Start), d.maxSize + 2).store == if d.maxSize == 0 then d.store else h[|h| - d.maxSize]
  {
    StartPrunes(d, h);
    UndosFollowHistory(Step(d, Start), StepHistory(d, h, Start), d.maxSize + 2);
  }

  /** Three nested sessions with a bound of one: undoing all three leaves what the outermost created. */
  lemma {:induction false} PruningMisdirectsUndo<O(!new)>(s: Store<O>, k: Kind, value: O) returns (d: Db<O>)
    requires WellFormed(s) && k in s.next
    ensures d == Step(Step(Step(Step(Db(s, [], 0, 1), Start), Create(k, value)), Start), Start) && d.active == 3
    ensures var c := CreateObject(s, k, value);
      Consistent(d, [c, c]) && UndoTimes(d, 3).store == c != s
  {
    var c := CreateObject(s, k, value);
    d := NestedThrice(s, k, value);
    UndosFollowHistory(d, [c, c], 3);
    assert c.next[k] == s.next[k] + 1;
  }

  lemma {:induction false} NestedThrice<O(!new)>(s: Store<O>, k: Kind, value: O) returns (d: Db<O>)
    requires WellFormed(s) && k in s.next
    ensures d == Step(Step(Step(Step(Db(s, [], 0, 1), Start), Create(k, value)), Start), Start)
    ensures d.active == 3 && Consistent(d, [CreateObject(s, k, value), CreateObject(s, k, value)])
  {
    var c := CreateObject(s, k, value);
    var d1 := Started(Db(s, [], 0, 1), [], [s]);
    var d2 := Created(d1, [s], k, value);
    var d3 := Started(d2, [s], [s, c]);
    d := Started(d3, [s, c], [c, c]);
  }

  lemma {:induction false} Started<O(!new)>(d: Db<O>, h: seq<Store<O>>, g: seq<Store<O>>) returns (e: Db<O>)
    requires Consistent(d, h) && g == Prune(h, d.maxSize) + [d.store]
    ensures e == Step(d, Start) && Consistent(e, g)
    ensures e.store == d.store && e.active == d.active + 1 && e.maxSize == d.maxSize
  {
    StepConsistent(d, h, Start);
    e := Step(d, Start);
  }

  lemma {:induction false} Created<O(!new)>(d: Db<O>, h: seq<Store<O>>, k: Kind, value: O) returns (e: Db<O>)
    requires Consistent(d, h) && |h| >= 1 && k in d.store.next
    ensures e == Step(d, Create(k, value)) && Consistent(e, h)
    ensures e.store == CreateObject(d.store, k, value) && e.active == d.active && e.maxSize == d.maxSize
  {
    StepConsistent(d, h, Create(k, value));
    e := Step(d, Create(k, value));
  }
}
