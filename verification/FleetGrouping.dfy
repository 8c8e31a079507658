// The order the fleet is shown in: the most urgent sessions first, and, while
// grouping is on, the members of a group next to each other with the groups in
// the order of their most urgent member.
module FleetGrouping {
  import opened SessionTable
  import opened StableSort
  import opened NameLists

  datatype GroupMode = NoGroups | ByFolder | ByAgent | ByStatus

  // statusLabel is the translated status name; collate places a group name in the
  // locale's order (names the locale does not tell apart share a place).
  datatype View = View(groupBy: GroupMode, statusLabel: SessionStatus -> string, collate: string -> int)

  // The source's scale, doubled so that its one half-step is a whole number.
  function Urgency(status: SessionStatus): nat {
    match status
    case NeedsApproval => 16
    case AwaitingInput => 14
    case NeedsYou => 12
    case RateLimited => 11
    case Working => 10
    case Thinking => 8
    case Idle => 6
    case Starting => 4
    case Queued => 2
    case Unknown => 2
    case Exited => 0
  }

  // From the least urgent up; those in one tier tie.
  const TIERS: seq<set<SessionStatus>> := [
    {Exited}, {Queued, Unknown}, {Starting}, {Idle}, {Thinking}, {Working}, {RateLimited}, {NeedsYou},
    {AwaitingInput}, {NeedsApproval}]

  // Every status is in a tier, and urgency goes by the tiers and nothing else.
  lemma UrgencyGoesByTiers(a: SessionStatus, b: SessionStatus)
    ensures exists i :: 0 <= i < |TIERS| && a in TIERS[i]
    ensures forall i, j :: 0 <= i < |TIERS| && 0 <= j < |TIERS| && a in TIERS[i] && b in TIERS[j] ==>
              (Urgency(a) < Urgency(b) <==> i < j)
  {
    TierOf(a);
    TierOf(b);
  }

  lemma TierOf(status: SessionStatus)
    ensures exists i :: 0 <= i < |TIERS| && status in TIERS[i]
    ensures forall i :: 0 <= i < |TIERS| && status in TIERS[i] ==>
              Urgency(status) == if i >= 7 then 2 * i - 2 else if i == 6 then 11 else 2 * i
  {
    assert status in TIERS[0] || status in TIERS[1] || status in TIERS[2] || status in TIERS[3] || status in TIERS[4]
        || status in TIERS[5] || status in TIERS[6] || status in TIERS[7] || status in TIERS[8] || status in TIERS[9];
  }

  function SessionRank(s: Session): Rank {
    Rank(0 - Urgency(s.status), s.since)
  }

  function SortedSessions(sessions: seq<Session>): seq<Session> {
    SortBy(sessions, SessionRank)
  }

  // Sessions that tie keep the order they had.
  ghost predicate TiesKeepOrder(before: seq<Session>, after: seq<Session>) {
    forall r :: AtRank(after, SessionRank, r) == AtRank(before, SessionRank, r)
  }

  ghost predicate MostUrgentFirst(out: seq<Session>) {
    forall i, j :: 0 <= i < j < |out| ==>
      || Urgency(out[i].status) > Urgency(out[j].status)
      || (Urgency(out[i].status) == Urgency(out[j].status) && out[i].since <= out[j].since)
  }

  // The same sessions, most urgent first, longest-waiting first among equals,
  // and otherwise in the table's order.
  lemma SortedSessionsOrder(sessions: seq<Session>)
    ensures multiset(SortedSessions(sessions)) == multiset(sessions)
    ensures MostUrgentFirst(SortedSessions(sessions)) && TiesKeepOrder(sessions, SortedSessions(sessions))
  {
    var out := SortedSessions(sessions);
    SortPermutes(sessions, SessionRank);
    SortSorts(sessions, SessionRank);
    forall r ensures AtRank(out, SessionRank, r) == AtRank(sessions, SessionRank, r) {
      SortIsStable(sessions, SessionRank, r);
    }
    forall i, j | 0 <= i < j < |out|
      ensures || Urgency(out[i].status) > Urgency(out[j].status)
              || (Urgency(out[i].status) == Urgency(out[j].status) && out[i].since <= out[j].since)
    {
      assert Le(SessionRank(out[i]), SessionRank(out[j]));
    }
  }

  // No other list is all of that, so the answer does not depend on how the
  // platform sorts.
  lemma SortedSessionsUnique(sessions: seq<Session>, out: seq<Session>)
    requires MostUrgentFirst(out) && TiesKeepOrder(sessions, out)
    ensures out == SortedSessions(sessions)
  {
    var sorted := SortedSessions(sessions);
    SortedSessionsOrder(sessions);
    SortSorts(sessions, SessionRank);
    forall r ensures AtRank(out, SessionRank, r) == AtRank(sorted, SessionRank, r) {
    }
    StableSortIsUnique(out, sorted, SessionRank);
  }

  // ---------- Groups ----------

  function GroupOf(v: View, s: Session): string {
    match v.groupBy
    case ByFolder => s.folder
    case ByAgent => if s.agent == Codex then "Codex" else "Claude Code"
    case ByStatus => v.statusLabel(s.status)
    case NoGroups => ""
  }

  // Which sessions are grouped together, and under which name.
  lemma GroupIs(v: View, a: Session, b: Session)
    ensures v.groupBy == ByFolder ==> GroupOf(v, a) == a.folder
    ensures v.groupBy == ByStatus ==> GroupOf(v, a) == v.statusLabel(a.status)
    ensures v.groupBy == ByAgent ==>
              && (GroupOf(v, a) == GroupOf(v, b) <==> a.agent == b.agent)
              && (a.agent == Claude <==> GroupOf(v, a) == "Claude Code")
              && (a.agent == Codex <==> GroupOf(v, a) == "Codex")
    ensures v.groupBy == NoGroups ==> GroupOf(v, a) == GroupOf(v, b)
  {
  }

  // The members of one group, in the order given.
  function Members(v: View, sessions: seq<Session>, name: string): seq<Session> {
    if sessions == [] then []
    else if GroupOf(v, sessions[0]) == name then [sessions[0]] + Members(v, sessions[1..], name)
    else Members(v, sessions[1..], name)
  }

  // The names of the groups, in the order they are first seen.
  function GroupNames(v: View, sessions: seq<Session>): seq<string> {
    if sessions == [] then []
    else
      var names, name := GroupNames(v, sessions[..|sessions| - 1]), GroupOf(v, sessions[|sessions| - 1]);
      if name in names then names else names + [name]
  }

  function MaxUrgency(members: seq<Session>): nat {
    if members == [] then 0
    else
      var rest := MaxUrgency(members[1..]);
      if rest > Urgency(members[0].status) then rest else Urgency(members[0].status)
  }

  function GroupRank(v: View, sessions: seq<Session>): string -> Rank {
    name => Rank(0 - MaxUrgency(Members(v, sessions, name)), v.collate(name))
  }

  function Flatten(v: View, sessions: seq<Session>, names: seq<string>): seq<Session> {
    if names == [] then [] else Members(v, sessions, names[0]) + Flatten(v, sessions, names[1..])
  }

  function RankedNames(v: View, sessions: seq<Session>): seq<string> {
    SortBy(GroupNames(v, sessions), GroupRank(v, sessions))
  }

  function Grouped(v: View, sessions: seq<Session>): seq<Session> {
    if v.groupBy == NoGroups then sessions else Flatten(v, sessions, RankedNames(v, sessions))
  }

  function FiledUnder(groups: map<string, seq<Session>>, name: string): seq<Session> {
    if name in groups then groups[name] else []
  }

  // Filing one more session keeps every group what its members are.
  lemma FileOne(v: View, front: seq<Session>, groups: map<string, seq<Session>>, s: Session)
    requires forall name :: FiledUnder(groups, name) == Members(v, front, name)
    ensures
      var key := GroupOf(v, s);
      var empty := if key in groups then groups else groups[key := []];
      forall name :: FiledUnder(empty[key := empty[key] + [s]], name) == Members(v, front + [s], name)
  {
    var key := GroupOf(v, s);
    var filed := groups[key := FiledUnder(groups, key) + [s]];
    forall name ensures FiledUnder(filed, name) == Members(v, front + [s], name) {
      MembersAppends(v, front, [s], name);
      assert FiledUnder(groups, name) == Members(v, front, name);
    }
    var empty := if key in groups then groups else groups[key := []];
    assert empty[key := empty[key] + [s]] == filed;
  }

  // The pass itself: one walk that files each session under its group, then the
  // groups ranked and laid end to end.
  method ApplyGrouping(v: View, sessions: seq<Session>) returns (out: seq<Session>)
    ensures out == Grouped(v, sessions)
  {
    if v.groupBy == NoGroups {
      return sessions;
    }
    var names: seq<string>, groups: map<string, seq<Session>> := [], map[];
    for i := 0 to |sessions|
      invariant names == GroupNames(v, sessions[..i])
      invariant forall name :: name in names <==> name in groups
      invariant forall name :: FiledUnder(groups, name) == Members(v, sessions[..i], name)
    {
      var key := GroupOf(v, sessions[i]);
      FileOne(v, sessions[..i], groups, sessions[i]);
      if key !in groups {
        names, groups := names + [key], groups[key := []];
      }
      groups := groups[key := groups[key] + [sessions[i]]];
      assert sessions[..i + 1] == sessions[..i] + [sessions[i]];
    }
    assert sessions[..|sessions|] == sessions;
    var ranked := SortBy(names, GroupRank(v, sessions));
    NamesRanked(v, sessions);
    out := LayOut(v, sessions, ranked, groups);
  }

  method LayOut(v: View, sessions: seq<Session>, ranked: seq<string>, groups: map<string, seq<Session>>)
    returns (out: seq<Session>)
    requires forall name :: name in ranked ==> name in groups && groups[name] == Members(v, sessions, name)
    ensures out == Flatten(v, sessions, ranked)
  {
    out := [];
    for i := 0 to |ranked|
      invariant out + Flatten(v, sessions, ranked[i..]) == Flatten(v, sessions, ranked)
    {
      assert ranked[i..][1..] == ranked[i + 1..];
      out := out + groups[ranked[i]];
    }
  }

  lemma {:induction false} MembersAppends(v: View, a: seq<Session>, b: seq<Session>, name: string)
    ensures Members(v, a + b, name) == Members(v, a, name) + Members(v, b, name)
    decreases |a|
  {
    if a == [] {
      assert a + b == b;
    } else {
      assert (a + b)[1..] == a[1..] + b;
      MembersAppends(v, a[1..], b, name);
    }
  }

  lemma NamesRanked(v: View, sessions: seq<Session>)
    ensures forall name :: name in RankedNames(v, sessions) <==> name in GroupNames(v, sessions)
  {
    SortPermutes(GroupNames(v, sessions), GroupRank(v, sessions));
    forall name ensures name in RankedNames(v, sessions) <==> name in GroupNames(v, sessions) {
      assert name in multiset(RankedNames(v, sessions)) <==> name in RankedNames(v, sessions);
      assert name in multiset(GroupNames(v, sessions)) <==> name in GroupNames(v, sessions);
    }
  }

  // ---------- What grouping keeps ----------

  lemma {:induction false} MembersBelong(v: View, sessions: seq<Session>, name: string, s: Session)
    ensures s in Members(v, sessions, name) <==> s in sessions && GroupOf(v, s) == name
    decreases |sessions|
  {
    if sessions != [] {
      MembersBelong(v, sessions[1..], name, s);
      assert sessions == [sessions[0]] + sessions[1..];
    }
  }

  lemma {:induction false} MembersOfMembers(v: View, sessions: seq<Session>, name: string, other: string)
    ensures Members(v, Members(v, sessions, name), other) == if name == other then Members(v, sessions, name) else []
    decreases |sessions|
  {
    if sessions != [] {
      MembersOfMembers(v, sessions[1..], name, other);
      var rest := Members(v, sessions[1..], name);
      assert ([sessions[0]] + rest)[1..] == rest;
    }
  }

  lemma {:induction false} MembersCount(v: View, sessions: seq<Session>, s: Session)
    ensures multiset(Members(v, sessions, GroupOf(v, s)))[s] == multiset(sessions)[s]
    decreases |sessions|
  {
    if sessions != [] {
      MembersCount(v, sessions[1..], s);
      assert sessions == [sessions[0]] + sessions[1..];
    }
  }

  lemma {:induction false} GroupNamesCover(v: View, sessions: seq<Session>)
    ensures DistinctNames(GroupNames(v, sessions))
    ensures forall s :: s in sessions ==> GroupOf(v, s) in GroupNames(v, sessions)
    decreases |sessions|
  {
    if sessions != [] {
      var front, last := sessions[..|sessions| - 1], sessions[|sessions| - 1];
      GroupNamesCover(v, front);
      DistinctGrows(GroupNames(v, front), GroupOf(v, last));
      assert sessions == front + [last];
    }
  }

  // The ranked names: every group once, more urgent groups first and equally
  // urgent ones in the locale's order.
  lemma RankedNamesOrder(v: View, sessions: seq<Session>)
    ensures var names := RankedNames(v, sessions);
            && DistinctNames(names)
            && (forall s :: s in sessions ==> GroupOf(v, s) in names)
            && Sorted(names, GroupRank(v, sessions))
  {
    GroupNamesCover(v, sessions);
    SortPermutes(GroupNames(v, sessions), GroupRank(v, sessions));
    SortSorts(GroupNames(v, sessions), GroupRank(v, sessions));
    DistinctIsMultiset(GroupNames(v, sessions));
    DistinctIsMultiset(RankedNames(v, sessions));
    NamesRanked(v, sessions);
  }

  lemma {:induction false} FlattenMembers(v: View, sessions: seq<Session>, names: seq<string>, name: string)
    requires DistinctNames(names)
    ensures Members(v, Flatten(v, sessions, names), name) == if name in names then Members(v, sessions, name) else []
    decreases |names|
  {
    if names != [] {
      FlattenMembers(v, sessions, names[1..], name);
      MembersAppends(v, Members(v, sessions, names[0]), Flatten(v, sessions, names[1..]), name);
      MembersOfMembers(v, sessions, names[0], name);
    }
  }

  // Down the flattened list, the place of each session's group never goes back.
  ghost predicate InPlaceOrder(v: View, names: seq<string>, out: seq<Session>) {
    && (forall i :: 0 <= i < |out| ==> GroupOf(v, out[i]) in names)
    && (forall i, j :: 0 <= i < j < |out| ==>
          Place(names, GroupOf(v, out[i])) <= Place(names, GroupOf(v, out[j])))
  }

  lemma {:induction false} FlattenInPlaceOrder(v: View, sessions: seq<Session>, names: seq<string>)
    requires DistinctNames(names)
    ensures InPlaceOrder(v, names, Flatten(v, sessions, names))
    decreases |names|
  {
    if names != [] {
      var first, rest := Members(v, sessions, names[0]), Flatten(v, sessions, names[1..]);
      FlattenInPlaceOrder(v, sessions, names[1..]);
      forall i | 0 <= i < |first| ensures GroupOf(v, first[i]) == names[0] {
        MembersBelong(v, sessions, names[0], first[i]);
      }
      forall i | 0 <= i < |rest|
        ensures GroupOf(v, rest[i]) in names
        ensures Place(names, GroupOf(v, rest[i])) == 1 + Place(names[1..], GroupOf(v, rest[i]))
      {
      }
    }
  }

  lemma {:induction false} MaxUrgencyBounds(members: seq<Session>)
    ensures forall s :: s in members ==> Urgency(s.status) <= MaxUrgency(members)
    ensures members != [] ==> exists s :: s in members && Urgency(s.status) == MaxUrgency(members)
    decreases |members|
  {
    if members != [] {
      MaxUrgencyBounds(members[1..]);
      assert members == [members[0]] + members[1..];
      if MaxUrgency(members) != Urgency(members[0].status) {
        assert members[1..] == [] ==> MaxUrgency(members[1..]) == 0;
        var s :| s in members[1..] && Urgency(s.status) == MaxUrgency(members[1..]);
        assert s in members;
      } else {
        assert members[0] in members;
      }
    }
  }

  // Grouping rearranges the sessions and nothing else, and inside a group it
  // does not rearrange them at all.
  lemma GroupingPermutes(v: View, sessions: seq<Session>)
    ensures multiset(Grouped(v, sessions)) == multiset(sessions)
    ensures forall name :: Members(v, Grouped(v, sessions), name) == Members(v, sessions, name)
  {
    if v.groupBy != NoGroups {
      var names, out := RankedNames(v, sessions), Grouped(v, sessions);
      RankedNamesOrder(v, sessions);
      forall name ensures Members(v, out, name) == Members(v, sessions, name) {
        FlattenMembers(v, sessions, names, name);
        if name !in names && Members(v, sessions, name) != [] {
          MembersBelong(v, sessions, name, Members(v, sessions, name)[0]);
        }
      }
      forall s: Session ensures multiset(out)[s] == multiset(sessions)[s] {
        MembersCount(v, out, s);
        MembersCount(v, sessions, s);
      }
    }
  }

  // The members of a group stand together, and the groups come in order of their
  // most urgent member, equally urgent groups in the locale's order of names.
  lemma GroupsInOrder(v: View, sessions: seq<Session>, i: nat, j: nat)
    requires v.groupBy != NoGroups
    requires i < j < |Grouped(v, sessions)|
    ensures var out := Grouped(v, sessions);
            var left, right := GroupOf(v, out[i]), GroupOf(v, out[j]);
            && (left == right ==> forall k :: i < k < j ==> GroupOf(v, out[k]) == left)
            && (left != right ==>
                  var high, low := MaxUrgency(Members(v, sessions, left)), MaxUrgency(Members(v, sessions, right));
                  high > low || (high == low && v.collate(left) <= v.collate(right)))
  {
    var names, out := RankedNames(v, sessions), Grouped(v, sessions);
    RankedNamesOrder(v, sessions);
    FlattenInPlaceOrder(v, sessions, names);
    PlacesTell(v, sessions, names, out, i, j);
  }

  lemma PlacesTell(v: View, sessions: seq<Session>, names: seq<string>, out: seq<Session>, i: nat, j: nat)
    requires i < j < |out| && InPlaceOrder(v, names, out) && Sorted(names, GroupRank(v, sessions))
    ensures var left, right := GroupOf(v, out[i]), GroupOf(v, out[j]);
            && (left == right ==> forall k :: i < k < j ==> GroupOf(v, out[k]) == left)
            && (left != right ==> Le(GroupRank(v, sessions)(left), GroupRank(v, sessions)(right)))
  {
    var left, right := GroupOf(v, out[i]), GroupOf(v, out[j]);
    PlaceOf(names, left);
    PlaceOf(names, right);
    if left == right {
      forall k | i < k < j ensures GroupOf(v, out[k]) == left {
        PlaceOf(names, GroupOf(v, out[k]));
      }
    }
  }

  // The row at the top wants the operator most: over sessions sorted by urgency
  // grouping leaves a session of the greatest urgency first.
  lemma MostUrgentOnTop(v: View, sessions: seq<Session>)
    requires MostUrgentFirst(sessions) && sessions != []
    ensures var out := Grouped(v, sessions);
            out != [] && forall s :: s in sessions ==> Urgency(s.status) <= Urgency(out[0].status)
  {
    hide MostUrgentFirst, Grouped, Members;
    FirstIsMostUrgent(sessions);
    GroupingPermutes(v, sessions);
    assert sessions[0] in multiset(sessions);
    assert Grouped(v, sessions) != [] by {
      assert multiset(Grouped(v, sessions)) != multiset{};
    }
    if v.groupBy != NoGroups {
      TopGroup(v, sessions);
    } else {
      NotGrouped(v, sessions);
    }
  }

  lemma FirstIsMostUrgent(sessions: seq<Session>)
    requires MostUrgentFirst(sessions) && sessions != []
    ensures forall s :: s in sessions ==> Urgency(s.status) <= Urgency(sessions[0].status)
  {
  }

  lemma NotGrouped(v: View, sessions: seq<Session>)
    requires v.groupBy == NoGroups
    ensures Grouped(v, sessions) == sessions
  {
  }

  lemma FirstMember(v: View, sessions: seq<Session>)
    requires sessions != []
    ensures var members := Members(v, sessions, GroupOf(v, sessions[0]));
            members != [] && members[0] == sessions[0]
  {
  }

  lemma TopGroup(v: View, sessions: seq<Session>)
    requires v.groupBy != NoGroups && MostUrgentFirst(sessions) && sessions != []
    ensures Grouped(v, sessions) != [] && Urgency(Grouped(v, sessions)[0].status) >= Urgency(sessions[0].status)
  {
    hide Grouped, Members, MaxUrgency, GroupOf;
    var out := Grouped(v, sessions);
    GroupingPermutes(v, sessions);
    assert sessions[0] in multiset(out);
    var top, best := GroupOf(v, out[0]), GroupOf(v, sessions[0]);
    var ours, theirs := Members(v, sessions, top), Members(v, sessions, best);
    FirstMember(v, out);
    FirstMember(v, sessions);
    assert ours[0] == out[0] && theirs[0] == sessions[0];
    MaxUrgencyBounds(ours);
    MaxUrgencyBounds(theirs);
    MembersSorted(v, sessions, top);
    if top != best {
      assert sessions[0] in multiset(out);
      var j :| 0 <= j < |out| && out[j] == sessions[0];
      GroupsInOrder(v, sessions, 0, j);
    }
  }

  lemma {:induction false} MembersSorted(v: View, sessions: seq<Session>, name: string)
    requires MostUrgentFirst(sessions)
    ensures MostUrgentFirst(Members(v, sessions, name))
    decreases |sessions|
  {
    if sessions != [] {
      MembersSorted(v, sessions[1..], name);
      var rest := Members(v, sessions[1..], name);
      forall k | 0 <= k < |rest| ensures rest[k] in sessions[1..] {
        MembersBelong(v, sessions[1..], name, rest[k]);
      }
    }
  }
}
