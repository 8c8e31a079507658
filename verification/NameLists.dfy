// Lists of names without repetition: row ids and group names.
module NameLists {

  predicate DistinctNames(names: seq<string>) {
    names == [] || (names[0] !in names[1..] && DistinctNames(names[1..]))
  }

  // Where a group comes in a list of names.
  function Place(names: seq<string>, name: string): nat {
    if names == [] || names[0] == name then 0 else 1 + Place(names[1..], name)
  }

  lemma {:induction false} PlaceOf(names: seq<string>, name: string)
    requires name in names
    ensures Place(names, name) < |names| && names[Place(names, name)] == name
    decreases |names|
  {
    if names[0] != name {
      PlaceOf(names[1..], name);
    }
  }

  lemma {:induction false} DistinctGrows(names: seq<string>, name: string)
    requires DistinctNames(names)
    ensures name !in names ==> DistinctNames(names + [name])
    decreases |names|
  {
    if names != [] && name !in names {
      DistinctGrows(names[1..], name);
      assert (names + [name])[1..] == names[1..] + [name];
    }
  }

  lemma {:induction false} DistinctIsMultiset(names: seq<string>)
    ensures DistinctNames(names) <==> forall name :: multiset(names)[name] <= 1
    decreases |names|
  {
    if names != [] {
      var rest := names[1..];
      DistinctIsMultiset(rest);
      assert names == [names[0]] + rest;
      assert forall name :: multiset(names)[name] == multiset(rest)[name] + if name == names[0] then 1 else 0;
      if forall name :: multiset(names)[name] <= 1 {
        assert forall name :: multiset(rest)[name] <= multiset(names)[name];
        assert multiset(names)[names[0]] <= 1;
      }
    }
  }

  // ---------- Keeping the first of each name ----------

  function Extend(seen: seq<string>, names: seq<string>): seq<string>
    decreases |names|
  {
    if names == [] then seen
    else Extend(if names[0] in seen then seen else seen + [names[0]], names[1..])
  }

  function FirstSeen(names: seq<string>): seq<string> {
    Extend([], names)
  }

  lemma {:induction false} ExtendAppends(seen: seq<string>, a: seq<string>, b: seq<string>)
    ensures Extend(seen, a + b) == Extend(Extend(seen, a), b)
    decreases |a|
  {
    if a == [] {
      assert a + b == b;
    } else {
      assert (a + b)[1..] == a[1..] + b;
      ExtendAppends(if a[0] in seen then seen else seen + [a[0]], a[1..], b);
    }
  }

  lemma {:induction false} ExtendMember(seen: seq<string>, names: seq<string>, name: string)
    ensures name in Extend(seen, names) <==> name in seen || name in names
    decreases |names|
  {
    if names != [] {
      ExtendMember(if names[0] in seen then seen else seen + [names[0]], names[1..], name);
      assert names == [names[0]] + names[1..];
    }
  }

  lemma {:induction false} ExtendDistinct(seen: seq<string>, names: seq<string>)
    requires DistinctNames(seen)
    ensures DistinctNames(Extend(seen, names))
    decreases |names|
  {
    if names != [] {
      DistinctGrows(seen, names[0]);
      ExtendDistinct(if names[0] in seen then seen else seen + [names[0]], names[1..]);
    }
  }

  lemma FirstSeenStep(names: seq<string>, name: string)
    ensures FirstSeen(names + [name])
         == if name in FirstSeen(names) then FirstSeen(names) else FirstSeen(names) + [name]
  {
    ExtendAppends([], names, [name]);
    assert [name][1..] == [];
  }

  // Names already seen add nothing, and adding names twice adds them once.
  lemma {:induction false} ExtendSkipsSeen(seen: seq<string>, names: seq<string>)
    requires forall name :: name in names ==> name in seen
    ensures Extend(seen, names) == seen
    decreases |names|
  {
    if names != [] {
      ExtendSkipsSeen(seen, names[1..]);
    }
  }

  lemma {:induction false} ExtendByFirstSeen(seen: seq<string>, names: seq<string>)
    ensures Extend(seen, FirstSeen(names)) == Extend(seen, names)
    decreases |names|
  {
    if names != [] {
      var front, last := names[..|names| - 1], names[|names| - 1];
      assert names == front + [last];
      ExtendByFirstSeen(seen, front);
      ExtendAppends(seen, front, [last]);
      FirstSeenStep(front, last);
      if last in FirstSeen(front) {
        ExtendMember([], front, last);
        ExtendMember(seen, front, last);
        ExtendSkipsSeen(Extend(seen, front), [last]);
      } else {
        ExtendAppends(seen, FirstSeen(front), [last]);
      }
    }
  }
}
