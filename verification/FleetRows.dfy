// Keyed reconciliation of the fleet list: the rows on screen are moved, reused,
// hidden or dropped until they agree with the sessions to show, in place and
// without replacing a row object the operator may be typing into.
module FleetRows {
  import opened SessionTable

  class Row {
    const key: string
    var hidden: bool
    var shown: Session

    constructor (key: string, session: Session)
      ensures this.key == key && !hidden && shown == session
    {
      this.key, hidden, shown := key, false, session;
    }
  }

  // ---------- Lists of rows ----------

  predicate DistinctKeys(rows: seq<Row>) {
    rows == [] || (!HasKey(rows[1..], rows[0].key) && DistinctKeys(rows[1..]))
  }

  predicate HasKey(rows: seq<Row>, key: string) {
    exists i :: 0 <= i < |rows| && rows[i].key == key
  }

  // The rows whose key is not in the set, in order.
  function Excluding(rows: seq<Row>, keys: set<string>): seq<Row> {
    if rows == [] then []
    else if rows[0].key in keys then Excluding(rows[1..], keys)
    else [rows[0]] + Excluding(rows[1..], keys)
  }

  // The rows no item asks for that must survive anyway, in order.
  function Leftovers(rows: seq<Row>, wanted: set<string>, preserved: set<string>): seq<Row> {
    if rows == [] then []
    else if rows[0].key !in wanted && rows[0].key in preserved
    then [rows[0]] + Leftovers(rows[1..], wanted, preserved)
    else Leftovers(rows[1..], wanted, preserved)
  }

  // Both filters keep rows of the list, and keep all the rows they should.
  lemma {:induction false} ExcludingMember(rows: seq<Row>, keys: set<string>, row: Row)
    ensures row in Excluding(rows, keys) <==> row in rows && row.key !in keys
    decreases |rows|
  {
    if rows != [] {
      ExcludingMember(rows[1..], keys, row);
      assert rows == [rows[0]] + rows[1..];
    }
  }

  lemma {:induction false} LeftoversMember(
    rows: seq<Row>, wanted: set<string>, preserved: set<string>, row: Row)
    ensures row in Leftovers(rows, wanted, preserved) <==> row in rows && row.key !in wanted && row.key in preserved
    decreases |rows|
  {
    if rows != [] {
      LeftoversMember(rows[1..], wanted, preserved, row);
      assert rows == [rows[0]] + rows[1..];
    }
  }

  lemma {:induction false} ExcludingDistinct(rows: seq<Row>, keys: set<string>)
    requires DistinctKeys(rows)
    ensures DistinctKeys(Excluding(rows, keys))
    decreases |rows|
  {
    if rows != [] {
      ExcludingDistinct(rows[1..], keys);
      var rest := Excluding(rows[1..], keys);
      forall i | 0 <= i < |rest| ensures rest[i].key != rows[0].key {
        ExcludingMember(rows[1..], keys, rest[i]);
      }
    }
  }

  lemma {:induction false} LeftoversDistinct(rows: seq<Row>, wanted: set<string>, preserved: set<string>)
    requires DistinctKeys(rows)
    ensures DistinctKeys(Leftovers(rows, wanted, preserved))
    decreases |rows|
  {
    if rows != [] {
      LeftoversDistinct(rows[1..], wanted, preserved);
      var rest := Leftovers(rows[1..], wanted, preserved);
      forall i | 0 <= i < |rest| ensures rest[i].key != rows[0].key {
        LeftoversMember(rows[1..], wanted, preserved, rest[i]);
      }
    }
  }

  lemma {:induction false} DistinctKeysPair(rows: seq<Row>, i: nat, j: nat)
    requires DistinctKeys(rows) && i < j < |rows|
    ensures rows[i].key != rows[j].key
    decreases |rows|
  {
    if i == 0 {
      assert rows[1..][j - 1] == rows[j];
    } else {
      DistinctKeysPair(rows[1..], i - 1, j - 1);
    }
  }

  lemma {:induction false} ExcludingAbsent(rows: seq<Row>, keys: set<string>)
    requires forall i :: 0 <= i < |rows| ==> rows[i].key !in keys
    ensures Excluding(rows, keys) == rows
    decreases |rows|
  {
    if rows != [] {
      ExcludingAbsent(rows[1..], keys);
    }
  }

  lemma {:induction false} ExcludingTwice(rows: seq<Row>, keys: set<string>, key: string)
    ensures Excluding(rows, keys + {key}) == Excluding(Excluding(rows, keys), {key})
    decreases |rows|
  {
    if rows != [] {
      ExcludingTwice(rows[1..], keys, key);
      if rows[0].key !in keys {
        assert ([rows[0]] + Excluding(rows[1..], keys))[1..] == Excluding(rows[1..], keys);
      }
    }
  }

  lemma {:induction false} LeftoversAppends(
    a: seq<Row>, b: seq<Row>, wanted: set<string>, preserved: set<string>)
    ensures Leftovers(a + b, wanted, preserved) == Leftovers(a, wanted, preserved) + Leftovers(b, wanted, preserved)
    decreases |a|
  {
    if a == [] {
      assert a + b == b;
    } else {
      assert (a + b)[1..] == a[1..] + b;
      LeftoversAppends(a[1..], b, wanted, preserved);
    }
  }

  // ---------- The live list ----------

  function Head(rows: seq<Row>): Row? {
    if rows == [] then null else rows[0]
  }

  function Minus(rows: seq<Row>, row: Row): seq<Row> {
    if rows == [] then []
    else if rows[0] == row then rows[1..]
    else [rows[0]] + Minus(rows[1..], row)
  }

  // Before the reference, or at the end when there is none.
  function Inserted(rows: seq<Row>, row: Row, reference: Row?): seq<Row> {
    if rows == [] || rows[0] == reference then [row] + rows
    else [rows[0]] + Inserted(rows[1..], row, reference)
  }

  function After(rows: seq<Row>, row: Row): Row? {
    if rows == [] then null
    else if rows[0] == row then Head(rows[1..])
    else After(rows[1..], row)
  }

  class Container {
    var children: seq<Row>

    constructor ()
      ensures children == []
    {
      children := [];
    }

    function FirstElementChild(): Row?
      reads this
    {
      Head(children)
    }

    function NextElementSibling(row: Row): Row?
      reads this
    {
      After(children, row)
    }

    // The row leaves its old place first, if it has one.
    method InsertBefore(row: Row, reference: Row?)
      requires reference == null || reference in children
      modifies this
      ensures children == Inserted(Minus(old(children), row), row, reference)
    {
      children := Inserted(Minus(children, row), row, reference);
    }

    method Remove(row: Row)
      modifies this
      ensures children == Minus(old(children), row)
    {
      children := Minus(children, row);
    }
  }

  lemma {:induction false} MinusSkips(placed: seq<Row>, rest: seq<Row>, row: Row)
    requires row !in placed
    ensures Minus(placed + rest, row) == placed + Minus(rest, row)
    decreases |placed|
  {
    if placed == [] {
      assert placed + rest == rest;
    } else {
      assert (placed + rest)[1..] == placed[1..] + rest;
      MinusSkips(placed[1..], rest, row);
    }
  }

  lemma {:induction false} InsertedSkips(
    placed: seq<Row>, rest: seq<Row>, row: Row, reference: Row?)
    requires reference !in placed
    ensures Inserted(placed + rest, row, reference) == placed + Inserted(rest, row, reference)
    decreases |placed|
  {
    if placed == [] {
      assert placed + rest == rest;
    } else {
      assert (placed + rest)[1..] == placed[1..] + rest;
      InsertedSkips(placed[1..], rest, row, reference);
    }
  }

  lemma {:induction false} AfterSkips(placed: seq<Row>, rest: seq<Row>, row: Row)
    requires row !in placed
    ensures After(placed + rest, row) == After(rest, row)
    decreases |placed|
  {
    if placed == [] {
      assert placed + rest == rest;
    } else {
      assert (placed + rest)[1..] == placed[1..] + rest;
      AfterSkips(placed[1..], rest, row);
    }
  }

  // Among distinct keys, taking the row out and taking its key out are the same.
  lemma {:induction false} MinusIsExcluding(rows: seq<Row>, row: Row)
    requires DistinctKeys(rows)
    requires row in rows || !HasKey(rows, row.key)
    ensures Minus(rows, row) == Excluding(rows, {row.key})
    decreases |rows|
  {
    if rows != [] {
      assert rows == [rows[0]] + rows[1..];
      if rows[0] == row {
        ExcludingAbsent(rows[1..], {row.key});
      } else {
        assert row in rows ==> row in rows[1..];
        assert !HasKey(rows, row.key) ==> !HasKey(rows[1..], row.key);
        MinusIsExcluding(rows[1..], row);
      }
    }
  }

  // ---------- Reconciliation ----------

  // The keys of the first n sessions.
  function WantedKeys(sessions: seq<Session>, n: nat): set<string>
    requires n <= |sessions|
  {
    if n == 0 then {} else WantedKeys(sessions, n - 1) + {sessions[n - 1].id}
  }

  lemma {:induction false} WantedKeysMember(sessions: seq<Session>, n: nat)
    requires n <= |sessions|
    ensures forall k :: 0 <= k < n ==> sessions[k].id in WantedKeys(sessions, n)
    ensures forall key :: key in WantedKeys(sessions, n) ==> exists k :: 0 <= k < n && sessions[k].id == key
    decreases n
  {
    if n > 0 {
      WantedKeysMember(sessions, n - 1);
      forall key | key in WantedKeys(sessions, n)
        ensures exists k :: 0 <= k < n && sessions[k].id == key
      {
        if key in WantedKeys(sessions, n - 1) {
          var k :| 0 <= k < n - 1 && sessions[k].id == key;
        } else {
          assert sessions[n - 1].id == key;
        }
      }
    }
  }

  // The map from key to row that the list starts with.
  ghost predicate Indexes(index: map<string, Row>, rows: seq<Row>) {
    && (forall k :: 0 <= k < |rows| ==> rows[k].key in index && index[rows[k].key] == rows[k])
    && (forall key :: key in index ==> index[key].key == key && HasKey(rows, key))
  }

  // Each session asks for a key no session before it asked for.
  predicate EachNew(sessions: seq<Session>) {
    forall k :: 0 <= k < |sessions| ==> sessions[k].id !in WantedKeys(sessions, k)
  }

  lemma DistinctIdsAreNew(sessions: seq<Session>)
    requires DistinctIds(sessions)
    ensures EachNew(sessions)
  {
    forall k | 0 <= k < |sessions| ensures sessions[k].id !in WantedKeys(sessions, k) {
      WantedKeysMember(sessions, k);
    }
  }

  // A row that may stand for this key: the one that was there, if one was.
  ghost predicate KeepsIdentity(index: map<string, Row>, row: Row, key: string) {
    row.key == key && (key in index ==> row == index[key])
  }

  // The first n sessions' rows already lead the list, in item order.
  predicate Leads(before: seq<Row>, sessions: seq<Session>, n: nat)
    requires n <= |sessions|
  {
    n <= |before| && forall k :: 0 <= k < n ==> before[k].key == sessions[k].id
  }

  // The map from key to row the pass starts from, with its insertion order.
  method IndexRows(rows: seq<Row>) returns (index: map<string, Row>, order: seq<string>)
    requires DistinctKeys(rows)
    ensures |order| == |rows| && forall k :: 0 <= k < |rows| ==> order[k] == rows[k].key
    ensures Indexes(index, rows)
  {
    index, order := map[], [];
    for i := 0 to |rows|
      invariant |order| == i && forall k :: 0 <= k < i ==> order[k] == rows[k].key
      invariant forall k :: 0 <= k < i ==> rows[k].key in index && index[rows[k].key] == rows[k]
      invariant forall key :: key in index ==> index[key].key == key && HasKey(rows, key)
    {
      forall k | 0 <= k < i ensures rows[k].key != rows[i].key {
        DistinctKeysPair(rows, k, i);
      }
      index := index[rows[i].key := rows[i]];
      order := order + [rows[i].key];
    }
  }

  // One turn of the walk: put the row at the cursor, by moving it there or by
  // stepping past it when it already stands there.
  method PlaceRow(
    container: Container, row: Row, cursor: Row?, ghost placed: seq<Row>, ghost rest: seq<Row>)
    returns (next: Row?, moved: bool)
    requires container.children == placed + rest && cursor == Head(rest)
    requires DistinctKeys(rest) && row !in placed && cursor !in placed
    requires row in rest || !HasKey(rest, row.key)
    modifies container
    ensures container.children == placed + [row] + Excluding(rest, {row.key})
    ensures next == Head(Excluding(rest, {row.key}))
    ensures moved <==> row != cursor
  {
    next, moved := cursor, row != cursor;
    MinusIsExcluding(rest, row);
    if moved {
      MinusSkips(placed, rest, row);
      InsertedSkips(placed, Minus(rest, row), row, cursor);
      container.InsertBefore(row, cursor);
    } else {
      AfterSkips(placed, rest, row);
      next := container.NextElementSibling(row);
    }
  }

  // What the first n sessions have put at the front of the list.
  ghost predicate Placed(index: map<string, Row>, sessions: seq<Session>, n: nat, placed: seq<Row>)
    requires n <= |sessions|
  {
    |placed| == n && forall k :: 0 <= k < n ==> KeepsIdentity(index, placed[k], sessions[k].id)
  }

  // What is on record: every old row, and otherwise only rows made on the way.
  ghost predicate OnRecord(index: map<string, Row>, wanted: set<string>, existing: map<string, Row>) {
    && (forall key :: key in index ==> key in existing && existing[key] == index[key])
    && (forall key :: key in existing ==> key in index || key in wanted)
  }

  // The row for one session: the one on record, or a new one put on record.
  method TakeRow(existing: map<string, Row>, key: string, session: Session)
    returns (row: Row, next: map<string, Row>)
    requires key in existing ==> existing[key].key == key
    modifies if key in existing then {existing[key]} else {}
    ensures row.key == key && row.shown == session && !row.hidden
    ensures if key in existing then row == existing[key] && next == existing
            else fresh(row) && next == existing[key := row]
  {
    if key in existing {
      row, next := existing[key], existing;
      row.shown := session;
      row.hidden := false;
    } else {
      row := new Row(key, session);
      next := existing[key := row];
    }
  }

  lemma NextSession(sessions: seq<Session>, i: nat, index: map<string, Row>, placed: seq<Row>)
    requires i < |sessions| && EachNew(sessions) && Placed(index, sessions, i, placed)
    ensures sessions[i].id !in WantedKeys(sessions, i)
    ensures forall k :: 0 <= k < i ==> placed[k].key != sessions[i].id && placed[k].key in WantedKeys(sessions, i)
  {
    WantedKeysMember(sessions, i);
  }

  lemma ReadyToPlace(
    before: seq<Row>, index: map<string, Row>, wanted: set<string>, placed: seq<Row>, row: Row)
    requires DistinctKeys(before) && Indexes(index, before)
    requires KeepsIdentity(index, row, row.key) && row.key !in wanted
    requires forall k :: 0 <= k < |placed| ==> placed[k].key in wanted
    ensures var rest := Excluding(before, wanted);
            && DistinctKeys(rest)
            && row !in placed && Head(rest) !in placed
            && (row in rest || !HasKey(rest, row.key))
  {
    var rest := Excluding(before, wanted);
    ExcludingDistinct(before, wanted);
    ExcludingMember(before, wanted, row);
    if rest != [] {
      ExcludingMember(before, wanted, rest[0]);
    }
    if HasKey(rest, row.key) {
      var j :| 0 <= j < |rest| && rest[j].key == row.key;
      ExcludingMember(before, wanted, rest[j]);
    }
  }

  // Nothing has moved while the sessions so far led the list; the next one keeps
  // it so exactly when its row stands at the cursor.
  lemma NothingMoved(before: seq<Row>, index: map<string, Row>, sessions: seq<Session>, i: nat, row: Row)
    requires i < |sessions| && DistinctKeys(before) && Indexes(index, before)
    requires KeepsIdentity(index, row, sessions[i].id) && Leads(before, sessions, i)
    ensures Leads(before, sessions, i + 1) <==> row == Head(before[i..])
    ensures row == Head(before[i..]) ==> Excluding(before[i..], {row.key}) == before[i + 1..]
  {
    if row == Head(before[i..]) {
      var after := before[i + 1..];
      forall k | 0 <= k < |after| ensures after[k].key != row.key {
        DistinctKeysPair(before, i, i + 1 + k);
      }
      ExcludingAbsent(after, {row.key});
      assert before[i..][1..] == before[i + 1..];
    }
  }

  // Where the walk stands after n sessions. Rows before the cursor are the ones
  // placed so far; rows from it on are the old rows no placed session asked for.
  ghost predicate Walked(
    before: seq<Row>, index: map<string, Row>, sessions: seq<Session>, n: nat, placed: seq<Row>,
    children: seq<Row>, existing: map<string, Row>, cursor: Row?, moves: nat)
    requires n <= |sessions|
  {
    var rest := Excluding(before, WantedKeys(sessions, n));
    && children == placed + rest
    && cursor == Head(rest)
    && Placed(index, sessions, n, placed)
    && OnRecord(index, WantedKeys(sessions, n), existing)
    && (moves == 0 ==> Leads(before, sessions, n) && rest == before[n..])
    && (Leads(before, sessions, n) ==> moves == 0)
  }

  lemma WalkedOn(
    before: seq<Row>, index: map<string, Row>, sessions: seq<Session>, n: nat, placed: seq<Row>,
    children: seq<Row>, existing: map<string, Row>, cursor: Row?, moves: nat,
    row: Row, children': seq<Row>, existing': map<string, Row>, cursor': Row?, moves': nat)
    requires n < |sessions| && DistinctKeys(before) && Indexes(index, before)
    requires Walked(before, index, sessions, n, placed, children, existing, cursor, moves)
    requires var left := Excluding(Excluding(before, WantedKeys(sessions, n)), {row.key});
             children' == placed + [row] + left && cursor' == Head(left)
    requires KeepsIdentity(index, row, sessions[n].id)
    requires OnRecord(index, WantedKeys(sessions, n + 1), existing')
    requires moves' == if row != cursor then moves + 1 else moves
    ensures Walked(before, index, sessions, n + 1, placed + [row], children', existing', cursor', moves')
  {
    ExcludingTwice(before, WantedKeys(sessions, n), row.key);
    if moves == 0 {
      NothingMoved(before, index, sessions, n, row);
    }
    assert Placed(index, sessions, n + 1, placed + [row]);
  }

  // One turn of the walk, row and place together.
  method PlaceSession(
    container: Container, sessions: seq<Session>, n: nat, existing: map<string, Row>, cursor: Row?, moves: nat,
    ghost before: seq<Row>, ghost index: map<string, Row>, ghost placed: seq<Row>)
    returns (row: Row, existing': map<string, Row>, cursor': Row?, moves': nat)
    requires n < |sessions| && EachNew(sessions) && DistinctKeys(before) && Indexes(index, before)
    requires Walked(before, index, sessions, n, placed, container.children, existing, cursor, moves)
    modifies container, if sessions[n].id in index then {index[sessions[n].id]} else {}
    ensures Walked(before, index, sessions, n + 1, placed + [row], container.children, existing', cursor', moves')
    ensures row.shown == sessions[n] && !row.hidden
    ensures sessions[n].id !in index ==> fresh(row)
    ensures forall k :: 0 <= k < |placed| ==> unchanged(placed[k])
    ensures forall key :: key in index && key != sessions[n].id ==> unchanged(index[key])
  {
    hide DistinctKeys, Leads, Excluding;
    var session := sessions[n];
    ghost var wanted := WantedKeys(sessions, n);
    NextSession(sessions, n, index, placed);
    row, existing' := TakeRow(existing, session.id, session);
    ReadyToPlace(before, index, wanted, placed, row);
    var moved;
    cursor', moved := PlaceRow(container, row, cursor, placed, Excluding(before, wanted));
    moves' := if moved then moves + 1 else moves;
    WalkedOn(before, index, sessions, n, placed, old(container.children), existing, cursor, moves,
      row, container.children, existing', cursor', moves');
  }

  lemma WalkStarts(before: seq<Row>, index: map<string, Row>, sessions: seq<Session>)
    ensures Walked(before, index, sessions, 0, [], before, index, Head(before), 0)
  {
    ExcludingAbsent(before, {});
  }

  lemma WalkEnds(
    before: seq<Row>, index: map<string, Row>, sessions: seq<Session>, placed: seq<Row>,
    children: seq<Row>, existing: map<string, Row>, cursor: Row?, moves: nat)
    requires Walked(before, index, sessions, |sessions|, placed, children, existing, cursor, moves)
    ensures children == placed + Excluding(before, WantedKeys(sessions, |sessions|))
    ensures Placed(index, sessions, |sessions|, placed)
    ensures moves == 0 <==> Leads(before, sessions, |sessions|)
  {
  }

  // The whole walk over the sessions with a cursor into the live list.
  method PlaceSessions(container: Container, sessions: seq<Session>, index: map<string, Row>)
    returns (moves: nat, ghost placed: seq<Row>)
    requires DistinctKeys(container.children) && EachNew(sessions)
    requires Indexes(index, container.children)
    modifies container, index.Values
    ensures container.children == placed + Excluding(old(container.children), WantedKeys(sessions, |sessions|))
    ensures Placed(index, sessions, |sessions|, placed)
    ensures forall k :: 0 <= k < |sessions| && sessions[k].id !in index ==> fresh(placed[k])
    ensures forall k :: 0 <= k < |sessions| ==> !placed[k].hidden && placed[k].shown == sessions[k]
    ensures forall key :: key in index && key !in WantedKeys(sessions, |sessions|) ==> unchanged(index[key])
    ensures moves == 0 <==> Leads(old(container.children), sessions, |sessions|)
  {
    hide Walked, DistinctKeys, EachNew, Indexes, OnRecord, Placed, KeepsIdentity, Leads, Excluding;
    ghost var before := container.children;
    var existing := index;
    var cursor := container.FirstElementChild();
    moves, placed := 0, [];
    WalkStarts(before, index, sessions);
    for i := 0 to |sessions|
      invariant |placed| == i
      invariant Walked(before, index, sessions, i, placed, container.children, existing, cursor, moves)
      invariant forall k :: 0 <= k < i && sessions[k].id !in index ==> fresh(placed[k])
      invariant forall k :: 0 <= k < i ==> !placed[k].hidden && placed[k].shown == sessions[k]
      invariant forall key :: key in index && key !in WantedKeys(sessions, i) ==> unchanged(index[key])
    {
      var row;
      row, existing, cursor, moves :=
        PlaceSession(container, sessions, i, existing, cursor, moves, before, index, placed);
      ghost var was := placed;
      placed := placed + [row];
      assert Walked(before, index, sessions, i + 1, placed, container.children, existing, cursor, moves);
      forall k | 0 <= k < i + 1
        ensures !placed[k].hidden && placed[k].shown == sessions[k]
        ensures sessions[k].id !in index ==> fresh(placed[k])
      {
        assert placed[k] == if k < i then was[k] else row;
      }
    }
    WalkEnds(before, index, sessions, placed, container.children, existing, cursor, moves);
  }

  // The list after the first j old rows have been dealt with.
  function Sifted(before: seq<Row>, placed: seq<Row>, wanted: set<string>, preserved: set<string>, j: nat): seq<Row>
    requires j <= |before|
  {
    placed + Leftovers(before[..j], wanted, preserved) + Excluding(before[j..], wanted)
  }

  lemma SiftParts(before: seq<Row>, wanted: set<string>, preserved: set<string>, j: nat)
    requires j < |before|
    ensures Leftovers(before[..j + 1], wanted, preserved) == Leftovers(before[..j], wanted, preserved)
              + if before[j].key !in wanted && before[j].key in preserved then [before[j]] else []
    ensures Excluding(before[j..], wanted)
         == (if before[j].key in wanted then [] else [before[j]]) + Excluding(before[j + 1..], wanted)
  {
    assert before[..j + 1] == before[..j] + [before[j]];
    LeftoversAppends(before[..j], [before[j]], wanted, preserved);
    assert before[j..][1..] == before[j + 1..];
  }

  lemma SiftOne(before: seq<Row>, placed: seq<Row>, wanted: set<string>, preserved: set<string>, j: nat)
    requires j < |before|
    requires forall k :: 0 <= k < |placed| ==> placed[k].key in wanted
    ensures var now := Sifted(before, placed, wanted, preserved, j);
            var next := Sifted(before, placed, wanted, preserved, j + 1);
            next == if before[j].key in wanted || before[j].key in preserved then now else Minus(now, before[j])
  {
    hide Leftovers, Excluding;
    var row, kept, left := before[j], Leftovers(before[..j], wanted, preserved), Excluding(before[j + 1..], wanted);
    SiftParts(before, wanted, preserved, j);
    if row.key !in wanted && row.key !in preserved {
      LeftoversMember(before[..j], wanted, preserved, row);
      MinusSkips(placed + kept, [row] + left, row);
    } else if row.key !in wanted {
      assert placed + kept + ([row] + left) == placed + (kept + [row]) + left;
    } else {
      assert placed + kept + ([] + left) == placed + (kept + []) + left;
    }
  }

  lemma SiftEnds(before: seq<Row>, placed: seq<Row>, wanted: set<string>, preserved: set<string>)
    ensures Sifted(before, placed, wanted, preserved, 0) == placed + Excluding(before, wanted)
    ensures Sifted(before, placed, wanted, preserved, |before|) == placed + Leftovers(before, wanted, preserved)
  {
    assert before[..|before|] == before;
  }

  // Old rows no session asked for: hide the ones to preserve, drop the others.
  method DropLeftovers(
    container: Container, order: seq<string>, existing: map<string, Row>, wanted: set<string>, preserved: set<string>,
    ghost before: seq<Row>, ghost placed: seq<Row>)
    requires DistinctKeys(before) && Indexes(existing, before)
    requires |order| == |before| && forall k :: 0 <= k < |before| ==> order[k] == before[k].key
    requires forall k :: 0 <= k < |placed| ==> placed[k].key in wanted
    requires container.children == placed + Excluding(before, wanted)
    modifies container, existing.Values
    ensures container.children == placed + Leftovers(before, wanted, preserved)
    ensures forall k :: 0 <= k < |before| && before[k].key !in wanted ==>
              before[k].shown == old(before[k].shown) && (before[k].key in preserved ==> before[k].hidden)
    ensures forall k :: 0 <= k < |before| && before[k].key in wanted ==> unchanged(before[k])
  {
    hide Sifted, Leftovers, Excluding, DistinctKeys, Minus;
    SiftEnds(before, placed, wanted, preserved);
    var j := 0;
    while j < |order|
      invariant 0 <= j <= |order|
      invariant container.children == Sifted(before, placed, wanted, preserved, j)
      invariant forall k :: 0 <= k < |before| && before[k].key !in wanted ==>
                  before[k].shown == old(before[k].shown) && (k < j && before[k].key in preserved ==> before[k].hidden)
      invariant forall k :: 0 <= k < |before| && before[k].key in wanted ==> unchanged(before[k])
    {
      var key := order[j];
      var row := existing[key];
      SiftOne(before, placed, wanted, preserved, j);
      if key !in wanted {
        if key in preserved {
          row.hidden := true;
        } else {
          container.Remove(row);
        }
      }
      j := j + 1;
    }
  }

  // The rows a rebuild of the list would show for these sessions: each one's own
  // row, the one it had if it had one.
  ghost predicate Rebuilt(before: seq<Row>, sessions: seq<Session>, rows: seq<Row>) {
    && |rows| == |sessions|
    && forall k :: 0 <= k < |rows| ==>
         && rows[k].key == sessions[k].id
         && (HasKey(before, sessions[k].id) ==> rows[k] in before)
  }

  lemma IndexedRows(index: map<string, Row>, before: seq<Row>)
    requires Indexes(index, before)
    ensures forall row :: row in index.Values ==> row in before
    ensures forall key :: key in index <==> HasKey(before, key)
  {
    forall row | row in index.Values ensures row in before {
      var key :| key in index && index[key] == row;
      var k :| 0 <= k < |before| && before[k].key == key;
    }
  }

  lemma PlacedRows(index: map<string, Row>, before: seq<Row>, sessions: seq<Session>, placed: seq<Row>)
    requires Indexes(index, before) && Placed(index, sessions, |sessions|, placed)
    ensures Rebuilt(before, sessions, placed)
    ensures forall k :: 0 <= k < |placed| ==> placed[k].key in WantedKeys(sessions, |sessions|)
  {
    WantedKeysMember(sessions, |sessions|);
    IndexedRows(index, before);
    forall k | 0 <= k < |placed| && HasKey(before, sessions[k].id) ensures placed[k] in before {
      assert index[sessions[k].id] in index.Values;
    }
  }

  lemma {:induction false} JoinDistinct(a: seq<Row>, b: seq<Row>)
    requires DistinctKeys(a) && DistinctKeys(b)
    requires forall k :: 0 <= k < |a| ==> !HasKey(b, a[k].key)
    ensures DistinctKeys(a + b)
    decreases |a|
  {
    if a == [] {
      assert a + b == b;
    } else {
      assert (a + b)[1..] == a[1..] + b;
      JoinDistinct(a[1..], b);
      assert !HasKey(a[1..] + b, a[0].key);
    }
  }

  lemma {:induction false} PlacedDistinct(sessions: seq<Session>, rows: seq<Row>)
    requires DistinctIds(sessions) && |rows| == |sessions|
    requires forall k :: 0 <= k < |rows| ==> rows[k].key == sessions[k].id
    ensures DistinctKeys(rows)
    decreases |rows|
  {
    if rows != [] {
      PlacedDistinct(sessions[1..], rows[1..]);
      forall k | 1 <= k < |rows| ensures rows[k].key != rows[0].key {
        assert sessions[k].id != sessions[0].id;
      }
    }
  }

  lemma ListDistinct(before: seq<Row>, sessions: seq<Session>, preserved: set<string>, placed: seq<Row>)
    requires DistinctKeys(before) && DistinctIds(sessions) && Rebuilt(before, sessions, placed)
    ensures DistinctKeys(placed + Leftovers(before, WantedKeys(sessions, |sessions|), preserved))
  {
    var wanted := WantedKeys(sessions, |sessions|);
    var kept := Leftovers(before, wanted, preserved);
    PlacedDistinct(sessions, placed);
    LeftoversDistinct(before, wanted, preserved);
    WantedKeysMember(sessions, |sessions|);
    forall k | 0 <= k < |placed| ensures !HasKey(kept, placed[k].key) {
      if HasKey(kept, placed[k].key) {
        var j :| 0 <= j < |kept| && kept[j].key == placed[k].key;
        LeftoversMember(before, wanted, preserved, kept[j]);
      }
    }
    JoinDistinct(placed, kept);
  }

  // Reconciliation refines rebuilding. Afterwards the list is the sessions' rows
  // in session order, each showing its session, followed by the old rows that
  // had to survive, hidden and in their old order. Rows that were there are the
  // same objects; rows that were not are new; and no row was moved exactly when
  // the sessions' rows already led the list in order.
  method ReconcileKeyedRows(container: Container, sessions: seq<Session>, preserved: set<string>) returns (moves: nat)
    requires DistinctKeys(container.children) && DistinctIds(sessions)
    modifies container, container.children
    ensures var n, before, wanted := |sessions|, old(container.children), WantedKeys(sessions, |sessions|);
            && |container.children| >= n
            && Rebuilt(before, sessions, container.children[..n])
            && container.children[n..] == Leftovers(before, wanted, preserved)
            && DistinctKeys(container.children)
            && (moves == 0 <==> Leads(before, sessions, n))
    ensures forall k :: 0 <= k < |sessions| ==>
              !container.children[k].hidden && container.children[k].shown == sessions[k]
    ensures forall k :: |sessions| <= k < |container.children| ==> container.children[k].hidden
    ensures forall k :: 0 <= k < |sessions| && !HasKey(old(container.children), sessions[k].id) ==>
              fresh(container.children[k])
    ensures var before := old(container.children);
            forall k :: 0 <= k < |before| && before[k].key !in WantedKeys(sessions, |sessions|) ==>
              before[k].shown == old(before[k].shown)
  {
    hide Leftovers, Excluding, WantedKeys, DistinctKeys, DistinctIds, Leads, HasKey, Rebuilt;
    var before := container.children;
    var index, order := IndexRows(before);
    DistinctIdsAreNew(sessions);
    IndexedRows(index, before);
    ghost var placed;
    moves, placed := PlaceSessions(container, sessions, index);
    var wanted := WantedKeys(sessions, |sessions|);
    PlacedRows(index, before, sessions, placed);
    DropLeftovers(container, order, index, wanted, preserved, before, placed);
    assert container.children[..|sessions|] == placed;
    assert container.children[|sessions|..] == Leftovers(before, wanted, preserved);
    ListDistinct(before, sessions, preserved, placed);
    ghost var kept := Leftovers(before, wanted, preserved);
    forall k | 0 <= k < |kept| ensures kept[k].hidden {
      LeftoversMember(before, wanted, preserved, kept[k]);
      var j :| 0 <= j < |before| && before[j] == kept[k];
    }
  }
}
