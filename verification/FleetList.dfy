// The order freeze: while the operator is using the list its rows stay where
// they are, and the list says how many of them would move.
module FleetList {
  import opened Wrappers
  import opened NameLists
  import opened SessionTable
  import opened FleetRows

  function Ids(sessions: seq<Session>): seq<string> {
    if sessions == [] then [] else [sessions[0].id] + Ids(sessions[1..])
  }

  function IdSet(sessions: seq<Session>): set<string> {
    set s | s in sessions :: s.id
  }

  function NameSet(names: seq<string>): set<string> {
    set n | n in names
  }

  // The names that are in the set, in order.
  function Only(names: seq<string>, keep: set<string>): seq<string> {
    if names == [] then []
    else if names[0] in keep then [names[0]] + Only(names[1..], keep)
    else Only(names[1..], keep)
  }

  // The sessions whose id is not in the set, in order.
  function Newcomers(sessions: seq<Session>, known: set<string>): seq<Session> {
    if sessions == [] then []
    else if sessions[0].id in known then Newcomers(sessions[1..], known)
    else [sessions[0]] + Newcomers(sessions[1..], known)
  }

  // The sessions with these ids, in the order of the ids.
  function Picked(ids: seq<string>, sessions: seq<Session>): seq<Session> {
    if ids == [] then []
    else
      var at := IndexOf(sessions, ids[0]);
      (if at < |sessions| then [sessions[at]] else []) + Picked(ids[1..], sessions)
  }

  function FrozenOrder(ids: seq<string>, desired: seq<Session>): seq<Session> {
    Picked(ids, desired) + Newcomers(desired, IdSet(Picked(ids, desired)))
  }

  // ---------- The frozen list is the desired one, rearranged ----------

  lemma {:induction false} PickedMember(ids: seq<string>, desired: seq<Session>, s: Session)
    requires DistinctIds(desired)
    ensures s in Picked(ids, desired) <==> s in desired && s.id in ids
    decreases |ids|
  {
    if ids != [] {
      PickedMember(ids[1..], desired, s);
      var at := IndexOf(desired, ids[0]);
      assert ids == [ids[0]] + ids[1..];
      if s in desired && s.id == ids[0] {
        var k :| 0 <= k < |desired| && desired[k] == s;
        assert k == at;
      }
    }
  }

  lemma PickedIds(ids: seq<string>, desired: seq<Session>)
    requires DistinctIds(desired)
    ensures forall id :: id in IdSet(Picked(ids, desired)) <==> id in ids && id in IdSet(desired)
  {
    forall id ensures id in IdSet(Picked(ids, desired)) <==> id in ids && id in IdSet(desired) {
      if id in IdSet(Picked(ids, desired)) {
        var s :| s in Picked(ids, desired) && s.id == id;
        PickedMember(ids, desired, s);
      }
      if id in ids && id in IdSet(desired) {
        var s :| s in desired && s.id == id;
        PickedMember(ids, desired, s);
      }
    }
  }

  lemma IdFound(desired: seq<Session>, id: string)
    ensures id in IdSet(desired) <==> IndexOf(desired, id) < |desired|
  {
    if id in IdSet(desired) {
      var s :| s in desired && s.id == id;
      var k :| 0 <= k < |desired| && desired[k] == s;
      assert desired[k].id == id;
    }
    if IndexOf(desired, id) < |desired| {
      assert desired[IndexOf(desired, id)] in desired;
    }
  }

  // Frozen rows come first, in the frozen order.
  lemma {:induction false} PickedInFrozenOrder(ids: seq<string>, desired: seq<Session>)
    ensures Ids(Picked(ids, desired)) == Only(ids, IdSet(desired))
    decreases |ids|
  {
    if ids != [] {
      PickedInFrozenOrder(ids[1..], desired);
      var at, rest := IndexOf(desired, ids[0]), Picked(ids[1..], desired);
      IdFound(desired, ids[0]);
      if at < |desired| {
        assert ([desired[at]] + rest)[1..] == rest;
      } else {
        assert Picked(ids, desired) == rest;
      }
    }
  }

  lemma {:induction false} NewcomersCount(desired: seq<Session>, known: set<string>, s: Session)
    ensures multiset(Newcomers(desired, known))[s] == if s.id in known then 0 else multiset(desired)[s]
    decreases |desired|
  {
    if desired != [] {
      NewcomersCount(desired[1..], known, s);
      assert desired == [desired[0]] + desired[1..];
    }
  }

  lemma {:induction false} PickedCount(ids: seq<string>, desired: seq<Session>, s: Session)
    requires DistinctIds(desired) && DistinctNames(ids)
    ensures multiset(Picked(ids, desired))[s] == if s in desired && s.id in ids then 1 else 0
    decreases |ids|
  {
    if ids != [] {
      PickedCount(ids[1..], desired, s);
      assert ids == [ids[0]] + ids[1..];
      FoundById(desired, ids[0], s);
    }
  }

  lemma FoundById(desired: seq<Session>, id: string, s: Session)
    requires DistinctIds(desired)
    ensures var at := IndexOf(desired, id);
            s in desired && s.id == id <==> at < |desired| && desired[at] == s
  {
    if s in desired && s.id == id {
      var k :| 0 <= k < |desired| && desired[k] == s;
      assert IndexOf(desired, id) == k;
    }
  }

  lemma {:induction false} OccursOnce(desired: seq<Session>, s: Session)
    requires DistinctIds(desired)
    ensures multiset(desired)[s] == if s in desired then 1 else 0
    decreases |desired|
  {
    if desired != [] {
      OccursOnce(desired[1..], s);
      assert desired == [desired[0]] + desired[1..];
    }
  }

  // Freezing drops nobody and doubles nobody.
  lemma FrozenOrderPermutes(ids: seq<string>, desired: seq<Session>)
    requires DistinctIds(desired) && DistinctNames(ids)
    ensures multiset(FrozenOrder(ids, desired)) == multiset(desired)
  {
    forall s: Session ensures multiset(FrozenOrder(ids, desired))[s] == multiset(desired)[s] {
      PickedIds(ids, desired);
      PickedCount(ids, desired, s);
      NewcomersCount(desired, IdSet(Picked(ids, desired)), s);
      OccursOnce(desired, s);
      if s in desired {
        assert s.id in IdSet(desired);
      }
    }
  }

  // ---------- How many rows would move ----------

  // The names that are not in the set, in order.
  function Apart(names: seq<string>, known: set<string>): seq<string> {
    if names == [] then []
    else if names[0] in known then Apart(names[1..], known)
    else [names[0]] + Apart(names[1..], known)
  }

  lemma {:induction false} NewcomersNames(desired: seq<Session>, known: set<string>, frozen: set<string>)
    requires forall s :: s in desired ==> (s.id in known <==> s.id in frozen)
    ensures Ids(Newcomers(desired, known)) == Apart(Ids(desired), frozen)
    decreases |desired|
  {
    if desired != [] {
      assert desired[0] in desired;
      NewcomersNames(desired[1..], known, frozen);
      assert Ids(desired)[1..] == Ids(desired[1..]);
    }
  }

  lemma {:induction false} IdsAppend(a: seq<Session>, b: seq<Session>)
    ensures Ids(a + b) == Ids(a) + Ids(b)
    decreases |a|
  {
    if a == [] {
      assert a + b == b;
    } else {
      assert (a + b)[1..] == a[1..] + b;
      IdsAppend(a[1..], b);
    }
  }

  // All three filters keep the order.
  lemma {:induction false} FiltersAppend(
      a: seq<string>, b: seq<string>, s: seq<Session>, t: seq<Session>, names: set<string>)
    ensures Only(a + b, names) == Only(a, names) + Only(b, names)
    ensures Apart(a + b, names) == Apart(a, names) + Apart(b, names)
    ensures Newcomers(s + t, names) == Newcomers(s, names) + Newcomers(t, names)
    decreases |a| + |s|
  {
    if a != [] {
      assert (a + b)[1..] == a[1..] + b;
      FiltersAppend(a[1..], b, s, t, names);
    } else if s != [] {
      assert (s + t)[1..] == s[1..] + t;
      FiltersAppend(a, b, s[1..], t, names);
      assert a + b == b;
    } else {
      assert a + b == b && s + t == t;
    }
  }

  // The order that is shown: the frozen rows that are still there, in the frozen order,
  // and after them everyone else in the desired order.
  lemma FrozenThenNewcomers(ids: seq<string>, desired: seq<Session>)
    requires DistinctIds(desired)
    ensures Ids(FrozenOrder(ids, desired)) == Only(ids, IdSet(desired)) + Apart(Ids(desired), NameSet(ids))
  {
    var picked := Picked(ids, desired);
    PickedInFrozenOrder(ids, desired);
    PickedIds(ids, desired);
    NewcomersNames(desired, IdSet(picked), NameSet(ids));
    IdsAppend(picked, Newcomers(desired, IdSet(picked)));
  }

  // How many names do not stand at the same place in the other list.
  function Displaced(names: seq<string>, other: seq<string>, upTo: nat): nat
    requires upTo <= |names|
  {
    if upTo == 0 then 0
    else Displaced(names, other, upTo - 1) + if Place(other, names[upTo - 1]) == upTo - 1 then 0 else 1
  }

  function PendingChanges(ids: seq<string>, desired: seq<Session>): nat {
    var common := Only(Ids(desired), NameSet(ids));
    |Newcomers(desired, NameSet(ids))| + Displaced(common, Only(ids, IdSet(desired)), |common|)
  }

  lemma {:induction false} NoneDisplaced(names: seq<string>, other: seq<string>, upTo: nat)
    requires upTo <= |names|
    ensures Displaced(names, other, upTo) == 0 <==> forall k :: 0 <= k < upTo ==> Place(other, names[k]) == k
    decreases upTo
  {
    if upTo > 0 {
      NoneDisplaced(names, other, upTo - 1);
    }
  }

  lemma {:induction false} OnlyMember(names: seq<string>, keep: set<string>, name: string)
    ensures name in Only(names, keep) <==> name in names && name in keep
    decreases |names|
  {
    if names != [] {
      OnlyMember(names[1..], keep, name);
      assert names == [names[0]] + names[1..];
    }
  }

  lemma {:induction false} OnlyDistinct(names: seq<string>, keep: set<string>)
    requires DistinctNames(names)
    ensures DistinctNames(Only(names, keep))
    decreases |names|
  {
    if names != [] {
      OnlyDistinct(names[1..], keep);
      OnlyMember(names[1..], keep, names[0]);
    }
  }

  lemma {:induction false} OnlyAll(names: seq<string>, keep: set<string>)
    requires forall name :: name in names ==> name in keep
    ensures Only(names, keep) == names
    decreases |names|
  {
    if names != [] {
      OnlyAll(names[1..], keep);
    }
  }

  lemma {:induction false} PlaceOfDistinct(names: seq<string>, k: nat)
    requires DistinctNames(names) && k < |names|
    ensures Place(names, names[k]) == k
    decreases |names|
  {
    if k > 0 {
      assert names[1..][k - 1] == names[k];
      PlaceOfDistinct(names[1..], k - 1);
    }
  }

  lemma {:induction false} IdsAt(desired: seq<Session>)
    ensures |Ids(desired)| == |desired| && forall k :: 0 <= k < |desired| ==> Ids(desired)[k] == desired[k].id
    decreases |desired|
  {
    if desired != [] {
      IdsAt(desired[1..]);
    }
  }

  lemma IdsMember(desired: seq<Session>, id: string)
    ensures id in Ids(desired) <==> id in IdSet(desired)
  {
    IdsAt(desired);
    if id in IdSet(desired) {
      var s :| s in desired && s.id == id;
      var k :| 0 <= k < |desired| && desired[k] == s;
      assert Ids(desired)[k] == id;
    }
  }

  lemma {:induction false} IdsDistinct(desired: seq<Session>)
    requires DistinctIds(desired)
    ensures DistinctNames(Ids(desired))
    decreases |desired|
  {
    if desired != [] {
      IdsDistinct(desired[1..]);
      IdsMember(desired[1..], desired[0].id);
    }
  }

  lemma {:induction false} NoNewcomers(desired: seq<Session>, known: set<string>)
    ensures Newcomers(desired, known) == [] <==> forall id :: id in Ids(desired) ==> id in known
    decreases |desired|
  {
    if desired != [] {
      NoNewcomers(desired[1..], known);
      assert Ids(desired) == [desired[0].id] + Ids(desired[1..]);
      assert desired[0].id in Ids(desired);
    }
  }

  // Two lists of the same names, each at its own place in the other, are equal.
  lemma SamePlaces(names: seq<string>, other: seq<string>)
    requires DistinctNames(other)
    requires forall name :: name in names <==> name in other
    ensures names == other <==> forall k :: 0 <= k < |names| ==> Place(other, names[k]) == k
  {
    if names == other {
      forall k | 0 <= k < |names| { PlaceOfDistinct(other, k); }
    }
    if forall k :: 0 <= k < |names| ==> Place(other, names[k]) == k {
      forall k | 0 <= k < |names| ensures k < |other| && other[k] == names[k] {
        PlaceOf(other, names[k]);
      }
      if |names| > 0 {
        assert other[|names| - 1] == names[|names| - 1];
      }
      if |names| < |other| {
        var extra := other[|names|];
        assert extra in other;
        var j :| 0 <= j < |names| && names[j] == extra;
        PlaceOfDistinct(other, |names|);
        assert Place(other, names[j]) == |names|;
      }
      assert names == other;
    }
  }

  // The notice counts nothing exactly when there is nobody new and the sessions
  // on both lists stand in the same order.
  lemma NothingPending(ids: seq<string>, desired: seq<Session>)
    requires DistinctNames(ids) && DistinctIds(desired)
    ensures PendingChanges(ids, desired) == 0 <==> Ids(desired) == Only(ids, IdSet(desired))
  {
    var names, frozen := Ids(desired), Only(ids, IdSet(desired));
    var common := Only(names, NameSet(ids));
    NoneDisplaced(common, frozen, |common|);
    NoNewcomers(desired, NameSet(ids));
    OnlyDistinct(ids, IdSet(desired));
    forall name ensures name in common <==> name in frozen {
      OnlyMember(names, NameSet(ids), name);
      OnlyMember(ids, IdSet(desired), name);
      IdsMember(desired, name);
    }
    SamePlaces(common, frozen);
    if Newcomers(desired, NameSet(ids)) == [] {
      OnlyAll(names, NameSet(ids));
    } else {
      var id :| id in names && id !in NameSet(ids);
      OnlyMember(ids, IdSet(desired), id);
    }
  }

  lemma {:induction false} DisplacedCounts(names: seq<string>, other: seq<string>, upTo: nat)
    requires upTo <= |names| && DistinctNames(other)
    requires forall name :: name in names ==> name in other
    ensures Displaced(names, other, upTo) == |Differing(names, other, upTo)|
    decreases upTo
  {
    if upTo > 0 {
      var k := upTo - 1;
      DisplacedCounts(names, other, k);
      PlaceOf(other, names[k]);
      if k < |other| && other[k] == names[k] {
        PlaceOfDistinct(other, k);
        assert Differing(names, other, upTo) == Differing(names, other, k);
      } else {
        assert Differing(names, other, upTo) == Differing(names, other, k) + {k};
      }
    }
  }

  // The places where a name of one list is not what the other list has there.
  function Differing(names: seq<string>, other: seq<string>, upTo: nat): set<nat>
    requires upTo <= |names|
  {
    set k: nat | k < upTo && (k >= |other| || names[k] != other[k])
  }

  function NewIds(desired: seq<Session>, ids: seq<string>): set<string> {
    set s | s in desired && s.id !in ids :: s.id
  }

  lemma {:induction false} NewcomersAreNew(desired: seq<Session>, ids: seq<string>)
    requires DistinctIds(desired)
    ensures |Newcomers(desired, NameSet(ids))| == |NewIds(desired, ids)|
    decreases |desired|
  {
    if desired != [] {
      var first, rest := desired[0], desired[1..];
      NewcomersAreNew(rest, ids);
      assert forall s :: s in desired <==> s == first || s in rest;
      if first.id in ids {
        assert NewIds(desired, ids) == NewIds(rest, ids);
      } else {
        assert NewIds(desired, ids) == NewIds(rest, ids) + {first.id};
      }
    }
  }

  // What the notice counts: the sessions that are new, and the places at which the
  // frozen list and the desired one, cut down to the sessions on both, differ.
  lemma PendingCountsMoves(ids: seq<string>, desired: seq<Session>)
    requires DistinctNames(ids) && DistinctIds(desired)
    ensures
      var now, frozen := Only(Ids(desired), NameSet(ids)), Only(ids, IdSet(desired));
      PendingChanges(ids, desired) == |NewIds(desired, ids)| + |Differing(now, frozen, |now|)|
  {
    var now, frozen := Only(Ids(desired), NameSet(ids)), Only(ids, IdSet(desired));
    NewcomersAreNew(desired, ids);
    OnlyDistinct(ids, IdSet(desired));
    forall name | name in now ensures name in frozen {
      OnlyMember(Ids(desired), NameSet(ids), name);
      OnlyMember(ids, IdSet(desired), name);
      IdsMember(desired, name);
    }
    DisplacedCounts(now, frozen, |now|);
  }

  // And then the frozen list already is the desired one: nothing moves when the
  // freeze is let go.
  lemma NothingPendingNothingMoves(ids: seq<string>, desired: seq<Session>)
    requires DistinctNames(ids) && DistinctIds(desired)
    requires PendingChanges(ids, desired) == 0
    ensures FrozenOrder(ids, desired) == desired
  {
    var picked := Picked(ids, desired);
    NothingPending(ids, desired);
    PickedInFrozenOrder(ids, desired);
    PickedIds(ids, desired);
    IdsAt(picked);
    IdsAt(desired);
    forall k | 0 <= k < |desired| ensures picked[k] == desired[k] {
      PickedMember(ids, desired, picked[k]);
      var j :| 0 <= j < |desired| && desired[j] == picked[k];
      assert desired[j].id == desired[k].id;
    }
    NoNewcomers(desired, IdSet(picked));
    forall id | id in Ids(desired) ensures id in IdSet(picked) {
      IdsMember(picked, id);
    }
  }

  function PlaceMap(names: seq<string>): map<string, nat> {
    map name | name in names :: Place(names, name)
  }

  method PendingPriorityChanges(ids: seq<string>, desired: seq<Session>) returns (changed: nat)
    requires DistinctNames(ids) && DistinctIds(desired)
    ensures changed == PendingChanges(ids, desired)
  {
    var frozenSet, desiredSet := NameSet(ids), IdSet(desired);
    var desiredCommon, frozenCommon := Only(Ids(desired), frozenSet), Only(ids, desiredSet);
    var desiredIndex, frozenIndex := PlaceMap(desiredCommon), PlaceMap(frozenCommon);
    IdsDistinct(desired);
    OnlyDistinct(Ids(desired), frozenSet);
    changed := |Newcomers(desired, frozenSet)|;
    for k := 0 to |desiredCommon|
      invariant changed == |Newcomers(desired, frozenSet)| + Displaced(desiredCommon, frozenCommon, k)
    {
      var id := desiredCommon[k];
      PlaceOfDistinct(desiredCommon, k);
      assert id in frozenCommon by {
        OnlyMember(Ids(desired), frozenSet, id);
        OnlyMember(ids, desiredSet, id);
        IdsMember(desired, id);
      }
      if desiredIndex[id] != frozenIndex[id] {
        changed := changed + 1;
      }
    }
  }

  // ---------- The list surface ----------

  datatype Freeze = Freeze(ids: seq<string>, focusId: Option<string>, pending: nat)

  // What the list shows for the sessions it was last asked to show.
  function ShownOrder(freeze: Option<Freeze>, desired: seq<Session>): seq<Session> {
    match freeze
    case None => desired
    case Some(f) => FrozenOrder(f.ids, desired)
  }

  ghost predicate ValidFreeze(freeze: Option<Freeze>, desired: seq<Session>) {
    && DistinctIds(desired)
    && (freeze.Some? ==>
          DistinctNames(freeze.value.ids) && freeze.value.pending == PendingChanges(freeze.value.ids, desired))
  }

  lemma ShownDistinct(freeze: Option<Freeze>, desired: seq<Session>)
    requires ValidFreeze(freeze, desired)
    ensures DistinctIds(ShownOrder(freeze, desired))
  {
    var shown := ShownOrder(freeze, desired);
    if freeze.Some? {
      FrozenOrderPermutes(freeze.value.ids, desired);
      forall i, j | 0 <= i < j < |shown| ensures shown[i].id != shown[j].id {
        TwoOccur(shown, i, j);
        OccursOnce(desired, shown[i]);
        assert shown[i] in multiset(shown) && shown[j] in multiset(shown);
      }
    }
  }

  lemma TwoOccur(s: seq<Session>, i: nat, j: nat)
    requires i < j < |s|
    ensures s[i] == s[j] ==> multiset(s)[s[i]] >= 2
  {
    assert s == s[..i] + [s[i]] + s[i + 1..j] + [s[j]] + s[j + 1..];
  }

  class FleetListSurface {
    const list: Container
    var orderFreeze: Option<Freeze>
    // The grouped sessions of the last render.
    ghost var desired: seq<Session>

    ghost function Shown(): seq<Session>
      reads this
    {
      ShownOrder(orderFreeze, desired)
    }

    // The visible rows are the shown sessions' rows, in that order; any others
    // are hidden and come after them.
    ghost predicate Valid()
      reads this, list, list.children
    {
      && ValidFreeze(orderFreeze, desired)
      && DistinctKeys(list.children)
      && |Shown()| <= |list.children|
      && (forall k :: 0 <= k < |Shown()| ==> list.children[k].key == Shown()[k].id && !list.children[k].hidden)
      && (forall k :: |Shown()| <= k < |list.children| ==> list.children[k].hidden)
    }

    constructor ()
      ensures Valid() && orderFreeze == None && desired == [] && fresh(list)
    {
      list := new Container();
      orderFreeze := None;
      desired := [];
    }

    // Show these sessions, in the frozen order while there is a freeze.
    method RenderRows(grouped: seq<Session>, preserved: set<string>) returns (moves: nat)
      requires DistinctKeys(list.children) && DistinctIds(grouped)
      requires orderFreeze.Some? ==> DistinctNames(orderFreeze.value.ids)
      modifies this, list, list.children
      ensures Valid() && desired == grouped
      ensures orderFreeze == match old(orderFreeze)
                             case None => None
                             case Some(f) => Some(f.(pending := PendingChanges(f.ids, grouped)))
      ensures moves == 0 <==> Leads(old(list.children), Shown(), |Shown()|)
      ensures forall k :: 0 <= k < |Shown()| ==> list.children[k].shown == Shown()[k]
    {
      hide FrozenOrder, PendingChanges, DistinctKeys, DistinctIds, DistinctNames, Leftovers, WantedKeys, Leads;
      var sessions := grouped;
      match orderFreeze {
        case None =>
        case Some(f) =>
          var pending := PendingPriorityChanges(f.ids, grouped);
          orderFreeze := Some(f.(pending := pending));
          sessions := FrozenOrder(f.ids, grouped);
      }
      desired := grouped;
      ShownDistinct(orderFreeze, desired);
      moves := ReconcileKeyedRows(list, sessions, preserved);
    }

    // The ids of the visible rows, top to bottom.
    method CurrentFleetOrder() returns (ids: seq<string>)
      requires Valid()
      ensures ids == Ids(Shown())
    {
      IdsAt(Shown());
      ids := [];
      for k := 0 to |list.children|
        invariant ids == Ids(Shown())[..if k < |Shown()| then k else |Shown()|]
      {
        if !list.children[k].hidden {
          ids := ids + [list.children[k].key];
        }
      }
    }

    // The operator took hold of the list: its rows stay where they are.
    method BeginFleetOrderFreeze(focusId: Option<string>)
      requires Valid()
      modifies this`orderFreeze
      ensures Valid() && Shown() == old(Shown())
      ensures orderFreeze == if old(orderFreeze).Some? || old(Shown()) == [] then old(orderFreeze)
                             else Some(Freeze(Ids(old(Shown())), focusId, 0))
    {
      if orderFreeze.Some? {
        return;
      }
      var ids := CurrentFleetOrder();
      IdsAt(desired);
      if ids == [] {
        return;
      }
      FreezingInPlace(desired);
      orderFreeze := Some(Freeze(ids, focusId, 0));
    }

    // The operator let go. The freeze ends only when nothing was pending at the last
    // render; when the sessions are still the ones rendered then, ending it moves no row.
    method ReleaseFleetOrderFreeze(interacting: bool, grouped: seq<Session>, preserved: set<string>)
      returns (moves: nat)
      requires Valid() && DistinctIds(grouped)
      modifies this, list, list.children
      ensures Valid()
      ensures
        if !interacting && old(orderFreeze).Some? && old(orderFreeze).value.pending == 0
        then
          && orderFreeze == None && desired == grouped
          && (moves == 0 <==> Leads(old(list.children), grouped, |grouped|))
        else orderFreeze == old(orderFreeze) && desired == old(desired) && moves == 0
      ensures grouped == old(desired) ==> Shown() == old(Shown()) && moves == 0
    {
      moves := 0;
      if interacting || orderFreeze.None? || orderFreeze.value.pending != 0 {
        return;
      }
      NothingPendingNothingMoves(orderFreeze.value.ids, desired);
      orderFreeze := None;
      moves := RenderRows(grouped, preserved);
    }

    // The operator asked for the new order: the freeze ends whatever is pending.
    method ApplyFleetOrder(grouped: seq<Session>, preserved: set<string>)
      returns (moves: nat, focusId: Option<string>)
      requires Valid() && DistinctIds(grouped)
      modifies this, list, list.children
      ensures Valid() && orderFreeze == None && Shown() == grouped
      ensures focusId == if old(orderFreeze).Some? then old(orderFreeze).value.focusId else None
      ensures moves == 0 <==> Leads(old(list.children), grouped, |grouped|)
    {
      focusId := if orderFreeze.Some? then orderFreeze.value.focusId else None;
      orderFreeze := None;
      moves := RenderRows(grouped, preserved);
    }
  }

  // Freezing the order on screen changes nothing on screen and leaves nothing
  // pending.
  lemma FreezingInPlace(desired: seq<Session>)
    requires DistinctIds(desired)
    ensures DistinctNames(Ids(desired))
    ensures PendingChanges(Ids(desired), desired) == 0
    ensures FrozenOrder(Ids(desired), desired) == desired
  {
    IdsDistinct(desired);
    forall id | id in Ids(desired) ensures id in IdSet(desired) {
      IdsMember(desired, id);
    }
    OnlyAll(Ids(desired), IdSet(desired));
    NothingPending(Ids(desired), desired);
    NothingPendingNothingMoves(Ids(desired), desired);
  }
}
