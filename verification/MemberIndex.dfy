/** The secondary index that tells, for an account or a key, which accounts name it as an authority. */
module MemberIndex {
  /** The parts of an account that the index reads. Key 0 is the null key. */
  datatype Account = Account(
    ownerAccounts: set<nat>, activeAccounts: set<nat>, ownerKeys: set<nat>, activeKeys: set<nat>, memoKey: nat)

  const NULL_KEY: nat := 0

  function AccountMembers(a: Account): set<nat> {
    a.ownerAccounts + a.activeAccounts
  }

  function KeyMembers(a: Account): set<nat> {
    a.ownerKeys + a.activeKeys + if a.memoKey != NULL_KEY then {a.memoKey} else {}
  }

  type Memberships = map<nat, set<nat>>

  function Lookup(m: Memberships, x: nat): set<nat> {
    if x in m then m[x] else {}
  }

  function Added(m: Memberships, xs: set<nat>, id: nat): Memberships {
    map x | x in m.Keys + xs :: if x in xs then Lookup(m, x) + {id} else Lookup(m, x)
  }

  /** Erasing under a key that has no entry leaves an empty one behind. */
  function Dropped(m: Memberships, xs: set<nat>, id: nat): Memberships {
    map x | x in m.Keys + xs :: if x in xs then Lookup(m, x) - {id} else Lookup(m, x)
  }

  function Changed(m: Memberships, before: set<nat>, after: set<nat>, id: nat): Memberships {
    Added(Dropped(m, before - after, id), after - before, id)
  }

  // ---------------------------------------------------------------- runs

  datatype State = State(live: map<nat, Account>, byAccount: Memberships, byKey: Memberships)

  /** `Reinsert` is how undoing a removal puts the account back: the base index inserts it and the
      secondary index hears nothing. Undoing a creation or a modification uses `Remove` and `Modify`. */
  datatype Event =
    | Create(id: nat, a: Account)
    | Remove(id: nat)
    | Modify(id: nat, a: Account)
    | Reinsert(id: nat, a: Account)

  predicate Legal(s: State, e: Event) {
    if e.Create? || e.Reinsert? then e.id !in s.live else e.id in s.live
  }

  function Step(s: State, e: Event): State
    requires Legal(s, e)
  {
    match e
    case Create(id, a) =>
      State(s.live[id := a], Added(s.byAccount, AccountMembers(a), id), Added(s.byKey, KeyMembers(a), id))
    case Remove(id) =>
      var a := s.live[id];
      State(s.live - {id}, Dropped(s.byAccount, AccountMembers(a), id), Dropped(s.byKey, KeyMembers(a), id))
    case Modify(id, a) =>
      var b := s.live[id];
      State(s.live[id := a],
        Changed(s.byAccount, AccountMembers(b), AccountMembers(a), id),
        Changed(s.byKey, KeyMembers(b), KeyMembers(a), id))
    case Reinsert(id, a) =>
      s.(live := s.live[id := a])
  }

  function Next(s: State, e: Event): State {
    if Legal(s, e) then Step(s, e) else s
  }

  const EMPTY: State := State(map[], map[], map[])

  function Run(es: seq<Event>): State {
    if es == [] then EMPTY else Next(Run(es[..|es| - 1]), es[|es| - 1])
  }

  /** The members of each account that the index has not been told of: all of them from a re-insertion
      on, until they are taken out of the account or the account is removed. */
  function Untold(es: seq<Event>, members: Account -> set<nat>): map<nat, set<nat>> {
    if es == [] then map[]
    else
      var before, e := Untold(es[..|es| - 1], members), es[|es| - 1];
      if !Legal(Run(es[..|es| - 1]), e) then before
      else
        match e
        case Create(id, a) => before[id := {}]
        case Remove(id) => before[id := {}]
        case Modify(id, a) => before[id := Lookup(before, id) * members(a)]
        case Reinsert(id, a) => before[id := members(a)]
  }

  /** Entry `x` lists exactly the live accounts that name `x`, but for what the index was not told. */
  ghost predicate ReverseImage(
    live: map<nat, Account>, m: Memberships, members: Account -> set<nat>, untold: map<nat, set<nat>>)
  {
    forall x, id :: id in Lookup(m, x) <==> id in live && x in members(live[id]) && x !in Lookup(untold, id)
  }

  ghost predicate Exact(live: map<nat, Account>, m: Memberships, members: Account -> set<nat>) {
    forall x, id :: id in Lookup(m, x) <==> id in live && x in members(live[id])
  }

  /** One map through one event. */
  function Reacted(m: Memberships, live: map<nat, Account>, e: Event, members: Account -> set<nat>): Memberships
    requires !(e.Create? || e.Reinsert?) ==> e.id in live
  {
    match e
    case Create(id, a) => Added(m, members(a), id)
    case Remove(id) => Dropped(m, members(live[id]), id)
    case Modify(id, a) => Changed(m, members(live[id]), members(a), id)
    case Reinsert(id, a) => m
  }

  lemma CreateKeepsReverseImage(
    live: map<nat, Account>, m: Memberships, members: Account -> set<nat>, u: map<nat, set<nat>>, id: nat, a: Account)
    requires id !in live && ReverseImage(live, m, members, u)
    ensures ReverseImage(live[id := a], Added(m, members(a), id), members, u[id := {}])
  {
    var live', m', u' := live[id := a], Added(m, members(a), id), u[id := {}];
    forall x, k
      ensures k in Lookup(m', x) <==> k in live' && x in members(live'[k]) && x !in Lookup(u', k)
    {
      assert k in Lookup(m', x) <==> k in Lookup(m, x) || (k == id && x in members(a));
    }
  }

  lemma RemoveKeepsReverseImage(
    live: map<nat, Account>, m: Memberships, members: Account -> set<nat>, u: map<nat, set<nat>>, id: nat)
    requires id in live && ReverseImage(live, m, members, u)
    ensures ReverseImage(live - {id}, Dropped(m, members(live[id]), id), members, u[id := {}])
  {
    var live', m', u' := live - {id}, Dropped(m, members(live[id]), id), u[id := {}];
    forall x, k
      ensures k in Lookup(m', x) <==> k in live' && x in members(live'[k]) && x !in Lookup(u', k)
    {
      assert k in Lookup(m', x) <==> k in Lookup(m, x) && !(k == id && x in members(live[id]));
    }
  }

  lemma ModifyKeepsReverseImage(
    live: map<nat, Account>, m: Memberships, members: Account -> set<nat>, u: map<nat, set<nat>>, id: nat, a: Account)
    requires id in live && ReverseImage(live, m, members, u)
    requires Lookup(u, id) <= members(live[id])
    ensures ReverseImage(live[id := a], Changed(m, members(live[id]), members(a), id), members,
      u[id := Lookup(u, id) * members(a)])
  {
    var b := live[id];
    var m' := Changed(m, members(b), members(a), id);
    forall x, k
      ensures k in Lookup(m', x) <==>
        k in live[id := a] && x in members(live[id := a][k]) && x !in Lookup(u[id := Lookup(u, id) * members(a)], k)
    {
      var gone, come := members(b) - members(a), members(a) - members(b);
      assert Lookup(m', x) == (Lookup(m, x) - (if x in gone then {id} else {})) + (if x in come then {id} else {});
    }
  }

  lemma ReinsertKeepsReverseImage(
    live: map<nat, Account>, m: Memberships, members: Account -> set<nat>, u: map<nat, set<nat>>, id: nat, a: Account)
    requires id !in live && ReverseImage(live, m, members, u)
    ensures ReverseImage(live[id := a], m, members, u[id := members(a)])
  {
    forall x, k
      ensures k in Lookup(m, x) <==>
        k in live[id := a] && x in members(live[id := a][k]) && x !in Lookup(u[id := members(a)], k)
    {
      assert k in Lookup(m, x) <==> k in live && x in members(live[k]) && x !in Lookup(u, k);
    }
  }

  ghost predicate UntoldIsOwn(live: map<nat, Account>, members: Account -> set<nat>, u: map<nat, set<nat>>) {
    forall id, x :: x in Lookup(u, id) ==> id in live && x in members(live[id])
  }

  lemma UntoldStaysOwn(
    live: map<nat, Account>, live': map<nat, Account>, members: Account -> set<nat>,
    u: map<nat, set<nat>>, id: nat, own: set<nat>)
    requires UntoldIsOwn(live, members, u)
    requires forall k :: k != id ==> (k in live <==> k in live') && (k in live ==> live'[k] == live[k])
    requires own == {} || (id in live' && own <= members(live'[id]))
    ensures UntoldIsOwn(live', members, u[id := own])
  {
    var u' := u[id := own];
    forall k, x | x in Lookup(u', k)
      ensures k in live' && x in members(live'[k])
    {
      assert k != id ==> x in Lookup(u, k);
    }
    assert UntoldIsOwn(live', members, u');
  }

  /** The run's membership map for `members`. */
  function MapAfter(es: seq<Event>, members: Account -> set<nat>): Memberships {
    if es == [] then map[]
    else
      var m, s, e := MapAfter(es[..|es| - 1], members), Run(es[..|es| - 1]), es[|es| - 1];
      if Legal(s, e) then Reacted(m, s.live, e, members) else m
  }

  lemma {:induction false} MapIsReverseImage(es: seq<Event>, members: Account -> set<nat>)
    ensures ReverseImage(Run(es).live, MapAfter(es, members), members, Untold(es, members))
    ensures UntoldIsOwn(Run(es).live, members, Untold(es, members))
  {
    if es != [] {
      var before, e := es[..|es| - 1], es[|es| - 1];
      MapIsReverseImage(before, members);
      var s, u, m := Run(before), Untold(before, members), MapAfter(before, members);
      if Legal(s, e) {
        match e
        case Create(id, a) =>
          CreateKeepsReverseImage(s.live, m, members, u, id, a);
          UntoldStaysOwn(s.live, Run(es).live, members, u, id, {});
        case Remove(id) =>
          RemoveKeepsReverseImage(s.live, m, members, u, id);
          UntoldStaysOwn(s.live, Run(es).live, members, u, id, {});
        case Modify(id, a) =>
          ModifyKeepsReverseImage(s.live, m, members, u, id, a);
          UntoldStaysOwn(s.live, Run(es).live, members, u, id, Lookup(u, id) * members(a));
        case Reinsert(id, a) =>
          ReinsertKeepsReverseImage(s.live, m, members, u, id, a);
          UntoldStaysOwn(s.live, Run(es).live, members, u, id, members(a));
      }
    }
  }

  lemma {:induction false} MapsOfRun(es: seq<Event>)
    ensures Run(es).byAccount == MapAfter(es, AccountMembers)
    ensures Run(es).byKey == MapAfter(es, KeyMembers)
  {
    if es != [] {
      MapsOfRun(es[..|es| - 1]);
    }
  }

  /** Over every run, undone removals included, both maps are the reverse image of the live accounts
      but for the members that re-insertions left untold. */
  lemma MapsAreReverseImages(es: seq<Event>)
    ensures ReverseImage(Run(es).live, Run(es).byAccount, AccountMembers, Untold(es, AccountMembers))
    ensures ReverseImage(Run(es).live, Run(es).byKey, KeyMembers, Untold(es, KeyMembers))
  {
    MapsOfRun(es);
    MapIsReverseImage(es, AccountMembers);
    MapIsReverseImage(es, KeyMembers);
  }

  ghost predicate NothingUntold(u: map<nat, set<nat>>) {
    forall id :: Lookup(u, id) == {}
  }

  /** The maps are exact exactly when nothing is left untold. */
  lemma ExactIffNothingUntold(es: seq<Event>)
    ensures Exact(Run(es).live, Run(es).byAccount, AccountMembers) <==> NothingUntold(Untold(es, AccountMembers))
    ensures Exact(Run(es).live, Run(es).byKey, KeyMembers) <==> NothingUntold(Untold(es, KeyMembers))
  {
    MapsOfRun(es);
    MapIsReverseImage(es, AccountMembers);
    MapIsReverseImage(es, KeyMembers);
    ExactIff(Run(es).live, Run(es).byAccount, AccountMembers, Untold(es, AccountMembers));
    ExactIff(Run(es).live, Run(es).byKey, KeyMembers, Untold(es, KeyMembers));
  }

  lemma ExactIff(live: map<nat, Account>, m: Memberships, members: Account -> set<nat>, u: map<nat, set<nat>>)
    requires ReverseImage(live, m, members, u) && UntoldIsOwn(live, members, u)
    ensures Exact(live, m, members) <==> NothingUntold(u)
  {
    if !NothingUntold(u) {
      var id :| Lookup(u, id) != {};
      var x :| x in Lookup(u, id);
      assert id !in Lookup(m, x) && x in members(live[id]);
    }
  }

  lemma {:induction false} NothingUntoldWithoutReinsertions(es: seq<Event>, members: Account -> set<nat>)
    requires forall i :: 0 <= i < |es| ==> !es[i].Reinsert?
    ensures NothingUntold(Untold(es, members))
  {
    if es != [] {
      var before, e := es[..|es| - 1], es[|es| - 1];
      NothingUntoldWithoutReinsertions(before, members);
      forall id ensures Lookup(Untold(es, members), id) == {} {
        assert Lookup(Untold(before, members), id) == {};
      }
    }
  }

  /** In every run of creations, removals and modifications both maps are exact. */
  lemma ExactWithoutReinsertions(es: seq<Event>)
    requires forall i :: 0 <= i < |es| ==> !es[i].Reinsert?
    ensures Exact(Run(es).live, Run(es).byAccount, AccountMembers)
    ensures Exact(Run(es).live, Run(es).byKey, KeyMembers)
    ensures forall x, id :: id in Lookup(Run(es).byAccount, x) <==>
      id in Run(es).live && (x in Run(es).live[id].ownerAccounts || x in Run(es).live[id].activeAccounts)
    ensures forall x, id :: id in Lookup(Run(es).byKey, x) <==>
      && id in Run(es).live
      && var a := Run(es).live[id]; x in a.ownerKeys || x in a.activeKeys || (x == a.memoKey && x != NULL_KEY)
  {
    NothingUntoldWithoutReinsertions(es, AccountMembers);
    NothingUntoldWithoutReinsertions(es, KeyMembers);
    ExactIffNothingUntold(es);
  }

  lemma SilentInsertionIsExactIff(
    live: map<nat, Account>, m: Memberships, members: Account -> set<nat>, id: nat, a: Account)
    requires id !in live && Exact(live, m, members)
    ensures Exact(live[id := a], m, members) <==> members(a) == {}
  {
    if members(a) != {} {
      var x :| x in members(a);
      assert id !in Lookup(m, x);
      assert id in live[id := a] && x in members(live[id := a][id]);
    } else {
      forall x, k ensures k in Lookup(m, x) <==> k in live[id := a] && x in members(live[id := a][k]) {
        assert k in Lookup(m, x) <==> k in live && x in members(live[k]);
      }
    }
  }

  /** Undoing the removal of an account leaves exact maps exact only if the account names nobody. */
  lemma UndoneRemovalStaysExactIff(s: State, id: nat, a: Account)
    requires id !in s.live
    requires Exact(s.live, s.byAccount, AccountMembers) && Exact(s.live, s.byKey, KeyMembers)
    ensures var t := Next(s, Reinsert(id, a));
      && (Exact(t.live, t.byAccount, AccountMembers) <==> AccountMembers(a) == {})
      && (Exact(t.live, t.byKey, KeyMembers) <==> KeyMembers(a) == {})
  {
    SilentInsertionIsExactIff(s.live, s.byAccount, AccountMembers, id, a);
    SilentInsertionIsExactIff(s.live, s.byKey, KeyMembers, id, a);
  }

  // ---------------------------------------------------------------- the index object

  lemma AddedOneMore(m: Memberships, xs: set<nat>, id: nat, x: nat)
    requires x !in xs
    ensures Added(m, xs, id)[x := Lookup(Added(m, xs, id), x) + {id}] == Added(m, xs + {x}, id)
  {
    assert Lookup(Added(m, xs, id), x) == Lookup(m, x);
  }

  lemma AddedNone(m: Memberships, id: nat)
    ensures Added(m, {}, id) == m
  {
  }

  method AddAll(m: Memberships, xs: set<nat>, id: nat) returns (r: Memberships)
    ensures r == Added(m, xs, id)
  {
    var rest := xs;
    ghost var done: set<nat> := {};
    r := m;
    AddedNone(m, id);
    while rest != {}
      invariant done !! rest && done + rest == xs
      invariant r == Added(m, done, id)
      decreases rest
    {
      var x :| x in rest;
      AddedOneMore(m, done, id, x);
      r := r[x := Lookup(r, x) + {id}];
      rest, done := rest - {x}, done + {x};
    }
    assert done == xs;
  }

  lemma DroppedOneMore(m: Memberships, xs: set<nat>, id: nat, x: nat)
    requires x !in xs
    ensures Dropped(m, xs, id)[x := Lookup(Dropped(m, xs, id), x) - {id}] == Dropped(m, xs + {x}, id)
  {
    assert Lookup(Dropped(m, xs, id), x) == Lookup(m, x);
  }

  lemma DroppedNone(m: Memberships, id: nat)
    ensures Dropped(m, {}, id) == m
  {
  }

  method DropAll(m: Memberships, xs: set<nat>, id: nat) returns (r: Memberships)
    ensures r == Dropped(m, xs, id)
  {
    var rest := xs;
    ghost var done: set<nat> := {};
    r := m;
    DroppedNone(m, id);
    while rest != {}
      invariant done !! rest && done + rest == xs
      invariant r == Dropped(m, done, id)
      decreases rest
    {
      var x :| x in rest;
      DroppedOneMore(m, done, id, x);
      r := r[x := Lookup(r, x) - {id}];
      rest, done := rest - {x}, done + {x};
    }
    assert done == xs;
  }

  class AccountMemberIndex {
    var byAccount: Memberships
    var byKey: Memberships
    var beforeAccounts: set<nat>
    var beforeKeys: set<nat>

    constructor ()
      ensures byAccount == map[] && byKey == map[]
    {
      byAccount, byKey, beforeAccounts, beforeKeys := map[], map[], {}, {};
    }

    method ObjectInserted(id: nat, a: Account)
      modifies this
      ensures byAccount == Added(old(byAccount), AccountMembers(a), id)
      ensures byKey == Added(old(byKey), KeyMembers(a), id)
      ensures beforeAccounts == old(beforeAccounts) && beforeKeys == old(beforeKeys)
    {
      var accounts := AddAll(byAccount, AccountMembers(a), id);
      byAccount := accounts;
      var keys := AddAll(byKey, KeyMembers(a), id);
      byKey := keys;
    }

    method ObjectRemoved(id: nat, a: Account)
      modifies this
      ensures byAccount == Dropped(old(byAccount), AccountMembers(a), id)
      ensures byKey == Dropped(old(byKey), KeyMembers(a), id)
      ensures beforeAccounts == old(beforeAccounts) && beforeKeys == old(beforeKeys)
    {
      var keys := DropAll(byKey, KeyMembers(a), id);
      byKey := keys;
      var accounts := DropAll(byAccount, AccountMembers(a), id);
      byAccount := accounts;
    }

    method AboutToModify(before: Account)
      modifies this`beforeAccounts, this`beforeKeys
      ensures beforeAccounts == AccountMembers(before) && beforeKeys == KeyMembers(before)
    {
      beforeKeys := KeyMembers(before);
      beforeAccounts := AccountMembers(before);
    }

    method ObjectModified(id: nat, after: Account)
      modifies this
      ensures byAccount == Changed(old(byAccount), old(beforeAccounts), AccountMembers(after), id)
      ensures byKey == Changed(old(byKey), old(beforeKeys), KeyMembers(after), id)
    {
      var accounts := DropAll(byAccount, beforeAccounts - AccountMembers(after), id);
      accounts := AddAll(accounts, AccountMembers(after) - beforeAccounts, id);
      var keys := DropAll(byKey, beforeKeys - KeyMembers(after), id);
      keys := AddAll(keys, KeyMembers(after) - beforeKeys, id);
      byAccount, byKey := accounts, keys;
    }
  }

  /** The primary index of accounts with the member index attached. */
  class AccountIndex {
    var live: map<nat, Account>
    const members: AccountMemberIndex

    function View(): State
      reads this, members
    {
      State(live, members.byAccount, members.byKey)
    }

    constructor ()
      ensures View() == EMPTY && fresh(members)
    {
      live := map[];
      members := new AccountMemberIndex();
    }

    method Create(id: nat, a: Account)
      requires id !in live
      modifies this, members
      ensures View() == Next(old(View()), Event.Create(id, a))
    {
      live := live[id := a];
      members.ObjectInserted(id, a);
    }

    method Remove(id: nat)
      requires id in live
      modifies this, members
      ensures View() == Next(old(View()), Event.Remove(id))
    {
      members.ObjectRemoved(id, live[id]);
      live := live - {id};
    }

    method Modify(id: nat, after: Account)
      requires id in live
      modifies this, members
      ensures View() == Next(old(View()), Event.Modify(id, after))
    {
      members.AboutToModify(live[id]);
      live := live[id := after];
      members.ObjectModified(id, after);
    }

    /** Inherited from the base index, without notification. */
    method Insert(id: nat, a: Account)
      requires id !in live
      modifies this
      ensures View() == Next(old(View()), Reinsert(id, a))
    {
      live := live[id := a];
    }
  }
}
