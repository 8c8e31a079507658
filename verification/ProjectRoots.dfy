// The registered project roots: a short sorted list in which no root lies under
// another, so that it says which paths are offered and nothing twice.
module ProjectRoots {
  import opened Wrappers

  // A path by its components; one path is under another when it extends it.
  type Path = seq<string>

  const MAX_ROOTS: nat := 16

  // ---------- The order of paths ----------

  predicate NameLe(a: string, b: string) {
    a == "" || (b != "" && (a[0] < b[0] || (a[0] == b[0] && NameLe(a[1..], b[1..]))))
  }

  predicate PathLe(p: Path, q: Path) {
    p == [] || (q != [] && (if p[0] == q[0] then PathLe(p[1..], q[1..]) else NameLe(p[0], q[0])))
  }

  lemma {:induction false} NameLeTotal(a: string, b: string)
    ensures NameLe(a, b) || NameLe(b, a)
    ensures NameLe(a, b) && NameLe(b, a) ==> a == b
    decreases |a|
  {
    if a != "" && b != "" && a[0] == b[0] {
      NameLeTotal(a[1..], b[1..]);
      assert a == [a[0]] + a[1..] && b == [b[0]] + b[1..];
    }
  }

  lemma {:induction false} NameLeTransitive(a: string, b: string, c: string)
    requires NameLe(a, b) && NameLe(b, c)
    ensures NameLe(a, c)
    decreases |a|
  {
    if a != "" && a[0] == b[0] == c[0] {
      NameLeTransitive(a[1..], b[1..], c[1..]);
    }
  }

  lemma {:induction false} PathLeTotal(p: Path, q: Path)
    ensures PathLe(p, q) || PathLe(q, p)
    decreases |p|
  {
    if p != [] && q != [] {
      if p[0] == q[0] {
        PathLeTotal(p[1..], q[1..]);
      } else {
        NameLeTotal(p[0], q[0]);
      }
    }
  }

  lemma {:induction false} PathLeTransitive(p: Path, q: Path, r: Path)
    requires PathLe(p, q) && PathLe(q, r)
    ensures PathLe(p, r)
    decreases |p|
  {
    if p != [] {
      if p[0] == q[0] == r[0] {
        PathLeTransitive(p[1..], q[1..], r[1..]);
      } else {
        NameLeTotal(p[0], q[0]);
        NameLeTotal(q[0], r[0]);
        NameLeTransitive(p[0], q[0], r[0]);
        NameLeTotal(p[0], r[0]);
      }
    }
  }

  // Names are in the order of a dictionary, and so are paths, component by component.
  predicate NamePart(a: string, b: string, k: nat) {
    k < |a| && k < |b| && a[..k] == b[..k] && a[k] < b[k]
  }

  predicate PathParts(p: Path, q: Path, k: nat) {
    k < |p| && k < |q| && p[..k] == q[..k] && p[k] != q[k] && NameLe(p[k], q[k])
  }

  lemma PrefixStep<T>(a: seq<T>, b: seq<T>, k: nat)
    requires a != [] && b != [] && k < |a| && k < |b|
    ensures a[..k + 1] == b[..k + 1] <==> a[0] == b[0] && a[1..][..k] == b[1..][..k]
    ensures a <= b <==> a[0] == b[0] && a[1..] <= b[1..]
  {
    assert a == [a[0]] + a[1..] && b == [b[0]] + b[1..];
    assert a[..k + 1] == [a[0]] + a[1..][..k] && b[..k + 1] == [b[0]] + b[1..][..k];
  }

  lemma NamePartStep(a: string, b: string, k: nat)
    requires a != "" && b != ""
    ensures NamePart(a, b, k + 1) <==> a[0] == b[0] && NamePart(a[1..], b[1..], k)
    ensures NamePart(a, b, 0) <==> a[0] < b[0]
  {
    if k < |a| && k < |b| {
      PrefixStep(a, b, k);
    }
  }

  lemma PathPartsStep(p: Path, q: Path, k: nat)
    requires p != [] && q != []
    ensures PathParts(p, q, k + 1) <==> p[0] == q[0] && PathParts(p[1..], q[1..], k)
    ensures PathParts(p, q, 0) <==> p[0] != q[0] && NameLe(p[0], q[0])
  {
    hide NameLe;
    if k < |p| && k < |q| {
      PrefixStep(p, q, k);
    }
  }

  lemma {:induction false} NameLeIs(a: string, b: string)
    ensures NameLe(a, b) <==> a <= b || exists k: nat :: NamePart(a, b, k)
    decreases |a|
  {
    if a != "" && b != "" {
      NameLeIs(a[1..], b[1..]);
      PrefixStep(a, b, 0);
      forall k: nat { NamePartStep(a, b, k); }
      hide NamePart;
      if k: nat :| NamePart(a, b, k) {
        assert k > 0 ==> NamePart(a[1..], b[1..], k - 1);
      }
      if k: nat :| NamePart(a[1..], b[1..], k) {
        assert a[0] == b[0] ==> NamePart(a, b, k + 1);
      }
      assert a[0] < b[0] ==> NamePart(a, b, 0);
    }
  }

  lemma {:induction false} PathLeIs(p: Path, q: Path)
    ensures PathLe(p, q) <==> p <= q || exists k: nat :: PathParts(p, q, k)
    decreases |p|
  {
    hide NameLe;
    if p != [] && q != [] {
      PathLeIs(p[1..], q[1..]);
      PrefixStep(p, q, 0);
      forall k: nat { PathPartsStep(p, q, k); }
      hide PathParts;
      if k: nat :| PathParts(p, q, k) {
        assert k > 0 ==> PathParts(p[1..], q[1..], k - 1);
      }
      if k: nat :| PathParts(p[1..], q[1..], k) {
        assert p[0] == q[0] ==> PathParts(p, q, k + 1);
      }
      assert p[0] != q[0] && NameLe(p[0], q[0]) ==> PathParts(p, q, 0);
    }
  }

  predicate Sorted(roots: seq<Path>) {
    forall i, j :: 0 <= i < j < |roots| ==> PathLe(roots[i], roots[j])
  }

  function InsertPath(root: Path, sorted: seq<Path>): seq<Path> {
    if sorted == [] || PathLe(root, sorted[0]) then [root] + sorted
    else [sorted[0]] + InsertPath(root, sorted[1..])
  }

  function SortPaths(roots: seq<Path>): seq<Path> {
    if roots == [] then [] else InsertPath(roots[0], SortPaths(roots[1..]))
  }

  lemma {:induction false} InsertPathPermutes(root: Path, sorted: seq<Path>)
    ensures multiset(InsertPath(root, sorted)) == multiset{root} + multiset(sorted)
    decreases |sorted|
  {
    if !(sorted == [] || PathLe(root, sorted[0])) {
      InsertPathPermutes(root, sorted[1..]);
      assert sorted == [sorted[0]] + sorted[1..];
    }
  }

  lemma {:induction false} InsertPathSorted(root: Path, sorted: seq<Path>)
    requires Sorted(sorted)
    ensures Sorted(InsertPath(root, sorted))
    decreases |sorted|
  {
    if sorted == [] {
    } else if PathLe(root, sorted[0]) {
      forall j | 0 <= j < |sorted| ensures PathLe(root, sorted[j]) {
        if j > 0 {
          PathLeTransitive(root, sorted[0], sorted[j]);
        }
      }
    } else {
      PathLeTotal(root, sorted[0]);
      InsertPathSorted(root, sorted[1..]);
      var rest := InsertPath(root, sorted[1..]);
      InsertPathPermutes(root, sorted[1..]);
      forall j | 0 <= j < |rest| ensures PathLe(sorted[0], rest[j]) {
        assert rest[j] in multiset(rest);
        assert rest[j] == root || rest[j] in sorted[1..];
      }
    }
  }

  lemma {:induction false} SortPathsSorts(roots: seq<Path>)
    ensures multiset(SortPaths(roots)) == multiset(roots) && Sorted(SortPaths(roots))
    decreases |roots|
  {
    if roots != [] {
      SortPathsSorts(roots[1..]);
      InsertPathPermutes(roots[0], SortPaths(roots[1..]));
      InsertPathSorted(roots[0], SortPaths(roots[1..]));
      assert roots == [roots[0]] + roots[1..];
    }
  }

  // ---------- What a list of roots covers ----------

  predicate Covers(parent: Path, child: Path) {
    parent <= child
  }

  predicate CoveredBy(roots: seq<Path>, p: Path) {
    exists r :: r in roots && Covers(r, p)
  }

  predicate Antichain(roots: seq<Path>) {
    forall i, j :: 0 <= i < |roots| && 0 <= j < |roots| && i != j ==> !Covers(roots[i], roots[j])
  }

  predicate Good(roots: seq<Path>) {
    Sorted(roots) && Antichain(roots) && |roots| <= MAX_ROOTS
  }

  // The roots a new root does not lie above.
  function Outside(roots: seq<Path>, root: Path): seq<Path> {
    if roots == [] then []
    else (if Covers(root, roots[0]) then [] else [roots[0]]) + Outside(roots[1..], root)
  }

  function Without(roots: seq<Path>, root: Path): seq<Path> {
    if roots == [] then []
    else (if roots[0] == root then [] else [roots[0]]) + Without(roots[1..], root)
  }

  // ---------- The store ----------

  datatype AddError = NotADirectory | TooMany | AlreadyRegistered | AlreadyCovered | NotWritten

  // How writing the file went: a write that fails may still have replaced it.
  datatype Write = Written | Failed(replaced: bool)

  // The list in memory and the list in the file.
  datatype Store = Store(roots: seq<Path>, stored: seq<Path>)

  function Persisted(s: Store, roots: seq<Path>, write: Write): Store {
    Store(roots, if write.Written? || write.replaced then roots else s.stored)
  }

  function AddRefusal(roots: seq<Path>, root: Path, isDirectory: bool): Option<AddError> {
    if !isDirectory then Some(NotADirectory)
    else if |roots| >= MAX_ROOTS then Some(TooMany)
    else if root in roots then Some(AlreadyRegistered)
    else if CoveredBy(roots, root) then Some(AlreadyCovered)
    else None
  }

  function AfterAdd(s: Store, root: Path, isDirectory: bool, write: Write): (Store, Result<(), AddError>) {
    match AddRefusal(s.roots, root, isDirectory)
    case Some(error) => (s, Err(error))
    case None =>
      (Persisted(s, SortPaths(Outside(s.roots, root) + [root]), write),
       if write.Written? then Ok(()) else Err(NotWritten))
  }

  function AfterRemove(s: Store, root: Path, write: Write): (Store, Result<bool, AddError>) {
    if root !in s.roots then (s, Ok(false))
    else (Persisted(s, Without(s.roots, root), write), if write.Written? then Ok(true) else Err(NotWritten))
  }

  class ProjectRoots {
    var roots: seq<Path>
    var stored: seq<Path>

    ghost function Value(): Store
      reads this
    {
      Store(roots, stored)
    }

    constructor (stored: seq<Path>)
      ensures Value() == Store(stored, stored)
    {
      this.roots, this.stored := stored, stored;
    }

    method Persist(write: Write) returns (ok: bool)
      modifies this`stored
      ensures Value() == Persisted(old(Value()), roots, write) && ok == write.Written?
    {
      if write.Written? || write.replaced {
        stored := roots;
      }
      ok := write.Written?;
    }

    method Add(root: Path, isDirectory: bool, write: Write) returns (result: Result<(), AddError>)
      modifies this
      ensures (Value(), result) == AfterAdd(old(Value()), root, isDirectory, write)
    {
      if !isDirectory {
        return Err(NotADirectory);
      }
      if |roots| >= MAX_ROOTS {
        return Err(TooMany);
      }
      if root in roots {
        return Err(AlreadyRegistered);
      }
      if CoveredBy(roots, root) {
        return Err(AlreadyCovered);
      }
      roots := Outside(roots, root);
      roots := roots + [root];
      roots := SortPaths(roots);
      var ok := Persist(write);
      return if ok then Ok(()) else Err(NotWritten);
    }

    method Remove(root: Path, write: Write) returns (result: Result<bool, AddError>)
      modifies this
      ensures (Value(), result) == AfterRemove(old(Value()), root, write)
    {
      var before := |roots|;
      WithoutShorter(roots, root);
      roots := Without(roots, root);
      if |roots| == before {
        return Ok(false);
      }
      var ok := Persist(write);
      return if ok then Ok(true) else Err(NotWritten);
    }
  }

  lemma {:induction false} WithoutShorter(roots: seq<Path>, root: Path)
    ensures |Without(roots, root)| <= |roots|
    ensures |Without(roots, root)| == |roots| <==> root !in roots
    ensures root !in roots ==> Without(roots, root) == roots
    decreases |roots|
  {
    if roots != [] {
      WithoutShorter(roots[1..], root);
      assert roots == [roots[0]] + roots[1..];
    }
  }

  // ---------- Adding and removing keep the list good ----------

  lemma {:induction false} OccursAtMostOnce(roots: seq<Path>, r: Path)
    requires forall i, j :: 0 <= i < j < |roots| ==> roots[i] != roots[j]
    ensures multiset(roots)[r] <= 1
    decreases |roots|
  {
    if roots != [] {
      OccursAtMostOnce(roots[1..], r);
      assert roots == [roots[0]] + roots[1..];
      assert roots[0] !in roots[1..];
    }
  }

  lemma TwinsCount(roots: seq<Path>, i: nat, j: nat)
    requires i < j < |roots| && roots[i] == roots[j]
    ensures multiset(roots)[roots[i]] >= 2
  {
    assert roots == roots[..i] + [roots[i]] + roots[i + 1..j] + [roots[j]] + roots[j + 1..];
  }

  // Being an antichain is a matter of which roots there are, not of their order.
  lemma AntichainReordered(a: seq<Path>, b: seq<Path>)
    requires Antichain(a) && multiset(a) == multiset(b)
    ensures Antichain(b)
  {
    forall i, j | 0 <= i < |b| && 0 <= j < |b| && i != j ensures !Covers(b[i], b[j]) {
      forall r { OccursAtMostOnce(a, r); }
      if b[i] == b[j] {
        TwinsCount(b, if i < j then i else j, if i < j then j else i);
      } else {
        assert b[i] in multiset(b) && b[j] in multiset(b);
        assert b[i] in a && b[j] in a;
      }
    }
  }

  lemma {:induction false} OutsideMember(roots: seq<Path>, root: Path, r: Path)
    ensures r in Outside(roots, root) <==> r in roots && !Covers(root, r)
    ensures |Outside(roots, root)| <= |roots|
    decreases |roots|
  {
    if roots != [] {
      OutsideMember(roots[1..], root, r);
      assert roots == [roots[0]] + roots[1..];
    }
  }

  lemma {:induction false} WithoutMember(roots: seq<Path>, root: Path, r: Path)
    ensures r in Without(roots, root) <==> r in roots && r != root
    decreases |roots|
  {
    if roots != [] {
      WithoutMember(roots[1..], root, r);
      assert roots == [roots[0]] + roots[1..];
    }
  }

  // Dropping roots keeps the rest sorted and an antichain.
  lemma {:induction false} OutsideKeepsGood(roots: seq<Path>, root: Path)
    requires Sorted(roots) && Antichain(roots)
    ensures Antichain(Outside(roots, root))
    decreases |roots|
  {
    if roots != [] {
      OutsideKeepsGood(roots[1..], root);
      forall r | r in Outside(roots[1..], root) ensures !Covers(roots[0], r) && !Covers(r, roots[0]) {
        OutsideMember(roots[1..], root, r);
        var k :| 0 <= k < |roots[1..]| && roots[1..][k] == r;
        assert roots[k + 1] == r;
      }
    }
  }

  lemma {:induction false} WithoutKeepsGood(roots: seq<Path>, root: Path)
    requires Sorted(roots) && Antichain(roots)
    ensures Sorted(Without(roots, root)) && Antichain(Without(roots, root))
    decreases |roots|
  {
    if roots != [] {
      WithoutKeepsGood(roots[1..], root);
      forall r | r in Without(roots[1..], root)
        ensures !Covers(roots[0], r) && !Covers(r, roots[0]) && PathLe(roots[0], r)
      {
        WithoutMember(roots[1..], root, r);
        var k :| 0 <= k < |roots[1..]| && roots[1..][k] == r;
        assert roots[k + 1] == r;
      }
    }
  }

  lemma AddKeepsGood(roots: seq<Path>, root: Path)
    requires Good(roots) && AddRefusal(roots, root, true).None?
    ensures Good(SortPaths(Outside(roots, root) + [root]))
  {
    var kept := Outside(roots, root);
    OutsideKeepsGood(roots, root);
    OutsideMember(roots, root, root);
    var all := kept + [root];
    forall i, j | 0 <= i < |all| && 0 <= j < |all| && i != j ensures !Covers(all[i], all[j]) {
      if i < |kept| && j < |kept| {
        assert !Covers(kept[i], kept[j]);
      } else if i < |kept| {
        OutsideMember(roots, root, kept[i]);
        assert !CoveredBy(roots, root);
      } else {
        OutsideMember(roots, root, kept[j]);
      }
    }
    SortPathsSorts(all);
    AntichainReordered(all, SortPaths(all));
    assert |SortPaths(all)| == |multiset(SortPaths(all))| == |multiset(all)| == |all|;
  }

  // A list read from the file and changed only here is always sorted, without
  // repetition, at most sixteen long, and no root in it covers another; and so is
  // the file, whatever writes have failed.
  predicate GoodStore(s: Store) {
    Good(s.roots) && Good(s.stored)
  }

  lemma AfterAddGood(s: Store, root: Path, isDirectory: bool, write: Write)
    requires GoodStore(s)
    ensures GoodStore(AfterAdd(s, root, isDirectory, write).0)
  {
    if AddRefusal(s.roots, root, isDirectory).None? {
      AddKeepsGood(s.roots, root);
    }
  }

  lemma AfterRemoveGood(s: Store, root: Path, write: Write)
    requires GoodStore(s)
    ensures GoodStore(AfterRemove(s, root, write).0)
  {
    WithoutShorter(s.roots, root);
    WithoutKeepsGood(s.roots, root);
  }

  // ---------- What the operator sees ----------

  // Registering a root adds exactly the paths under it.
  lemma AddCoversSubtree(s: Store, root: Path, write: Write, p: Path)
    requires AddRefusal(s.roots, root, true).None?
    ensures CoveredBy(AfterAdd(s, root, true, write).0.roots, p) <==> CoveredBy(s.roots, p) || Covers(root, p)
  {
    var all := Outside(s.roots, root) + [root];
    SameCover(SortPaths(all), all, p);
    OutsideCovers(s.roots, root, p);
  }

  lemma SameCover(sorted: seq<Path>, roots: seq<Path>, p: Path)
    requires sorted == SortPaths(roots)
    ensures CoveredBy(sorted, p) <==> CoveredBy(roots, p)
  {
    SortPathsSorts(roots);
    if CoveredBy(roots, p) {
      var r :| r in roots && Covers(r, p);
      assert r in multiset(sorted);
    }
    if CoveredBy(sorted, p) {
      var r :| r in sorted && Covers(r, p);
      assert r in multiset(roots);
    }
  }

  lemma OutsideCovers(roots: seq<Path>, root: Path, p: Path)
    ensures CoveredBy(Outside(roots, root) + [root], p) <==> CoveredBy(roots, p) || Covers(root, p)
  {
    var all := Outside(roots, root) + [root];
    assert root in all;
    if CoveredBy(roots, p) {
      var r :| r in roots && Covers(r, p);
      OutsideMember(roots, root, r);
      assert !Covers(root, r) ==> r in all;
    }
    if CoveredBy(all, p) {
      var r :| r in all && Covers(r, p);
      OutsideMember(roots, root, r);
    }
  }

  lemma PrefixesCompare(a: Path, b: Path, p: Path)
    requires Covers(a, p) && Covers(b, p)
    ensures Covers(a, b) || Covers(b, a)
  {
    if |a| <= |b| {
      assert a == p[..|a|] == b[..|a|];
    } else {
      assert b == p[..|b|] == a[..|b|];
    }
  }

  // Removing a root takes away exactly the paths under it: because no root lies
  // under another, nothing else was covering them, and nothing else is lost.
  lemma RemoveUncoversSubtree(s: Store, root: Path, write: Write, p: Path)
    requires Good(s.roots) && root in s.roots
    ensures CoveredBy(AfterRemove(s, root, write).0.roots, p) <==> CoveredBy(s.roots, p) && !Covers(root, p)
  {
    var left := Without(s.roots, root);
    if CoveredBy(left, p) {
      var r :| r in left && Covers(r, p);
      WithoutMember(s.roots, root, r);
      if Covers(root, p) {
        PrefixesCompare(r, root, p);
        assert false;
      }
    }
    if CoveredBy(s.roots, p) && !Covers(root, p) {
      var r :| r in s.roots && Covers(r, p);
      WithoutMember(s.roots, root, r);
    }
  }

  // ---------- Whole runs ----------

  datatype Op = AddOp(root: Path, isDirectory: bool, write: Write) | RemoveOp(root: Path, write: Write) | Restart

  function Do(s: Store, op: Op): Store {
    match op
    case AddOp(root, isDirectory, write) => AfterAdd(s, root, isDirectory, write).0
    case RemoveOp(root, write) => AfterRemove(s, root, write).0
    case Restart => Store(s.stored, s.stored)
  }

  function DoAll(s: Store, ops: seq<Op>): Store {
    if ops == [] then s else Do(DoAll(s, ops[..|ops| - 1]), ops[|ops| - 1])
  }

  // From an empty store every run, restarts and failed writes included, keeps
  // both lists good.
  lemma {:induction false} EveryRunIsGood(ops: seq<Op>)
    ensures GoodStore(DoAll(Store([], []), ops))
    decreases |ops|
  {
    if ops != [] {
      EveryRunIsGood(ops[..|ops| - 1]);
      var s := DoAll(Store([], []), ops[..|ops| - 1]);
      match ops[|ops| - 1]
      case AddOp(root, isDirectory, write) => AfterAddGood(s, root, isDirectory, write);
      case RemoveOp(root, write) => AfterRemoveGood(s, root, write);
      case Restart =>
    }
  }

  // The same run on plain sets of paths, one path at a time: is p offered now, and
  // will it be after a restart?
  datatype Offer = Offer(now: bool, stored: bool)

  function Saved(before: Offer, now: bool, write: Write): Offer {
    Offer(now, if write.Written? || write.replaced then now else before.stored)
  }

  // The sets decide each operation: a root is registered when it is offered and its
  // parent is not. Only how many there are is read off the list.
  function Offered(ops: seq<Op>, p: Path): Offer
    decreases |ops|
  {
    if ops == [] then Offer(false, false)
    else
      var front := ops[..|ops| - 1];
      var before := Offered(front, p);
      match ops[|ops| - 1]
      case AddOp(root, isDirectory, write) =>
        if !isDirectory || |DoAll(Store([], []), front).roots| >= MAX_ROOTS || Offered(front, root).now then before
        else Saved(before, before.now || Covers(root, p), write)
      case RemoveOp(root, write) =>
        if !Offered(front, root).now || (root != [] && Offered(front, root[..|root| - 1]).now) then before
        else Saved(before, before.now && !Covers(root, p), write)
      case Restart => Offer(before.stored, before.stored)
  }

  // In an antichain the roots are the covered paths whose parent is not covered.
  lemma RootsAreTheTops(roots: seq<Path>, root: Path)
    requires Antichain(roots)
    ensures root in roots <==> CoveredBy(roots, root) && (root == [] || !CoveredBy(roots, root[..|root| - 1]))
  {
    assert Covers(root, root);
    if root != [] {
      var parent := root[..|root| - 1];
      forall r | r in roots ensures root in roots ==> !Covers(r, parent) {
        if root in roots && Covers(r, root) {
          OnlyItself(roots, r, root);
        }
      }
      if root !in roots && CoveredBy(roots, root) {
        var r :| r in roots && Covers(r, root);
        assert r != root && parent[..|r|] == root[..|r|];
        assert Covers(r, parent);
      }
    } else if CoveredBy(roots, root) {
      var r :| r in roots && Covers(r, root);
      assert r == root;
    }
  }

  lemma OnlyItself(roots: seq<Path>, r: Path, root: Path)
    requires Antichain(roots) && r in roots && root in roots && Covers(r, root)
    ensures r == root
  {
    var i :| 0 <= i < |roots| && roots[i] == r;
    var j :| 0 <= j < |roots| && roots[j] == root;
  }

  // The lists say the same as the sets: after any run, a path is covered exactly when
  // some accepted root above it has not been removed.
  lemma {:induction false} ListIsTheSet(ops: seq<Op>, p: Path)
    ensures
      var s := DoAll(Store([], []), ops);
      Offered(ops, p) == Offer(CoveredBy(s.roots, p), CoveredBy(s.stored, p))
    decreases |ops|
  {
    if ops != [] {
      var front, s := ops[..|ops| - 1], DoAll(Store([], []), ops[..|ops| - 1]);
      ListIsTheSet(front, p);
      EveryRunIsGood(front);
      match ops[|ops| - 1]
      case AddOp(root, isDirectory, write) =>
        ListIsTheSet(front, root);
        assert Covers(root, root);
        hide CoveredBy, Covers, Good;
        RefusedBySets(s.roots, root, isDirectory);
        if AddRefusal(s.roots, root, isDirectory).None? {
          AddCoversSubtree(s, root, write, p);
        }
      case RemoveOp(root, write) =>
        ListIsTheSet(front, root);
        RootsAreTheTops(s.roots, root);
        if root != [] {
          ListIsTheSet(front, root[..|root| - 1]);
        }
        hide CoveredBy, Covers, Antichain, Sorted;
        if root in s.roots {
          RemoveUncoversSubtree(s, root, write, p);
        }
      case Restart =>
    } else {
      assert !CoveredBy([], p);
    }
  }

  lemma RefusedBySets(roots: seq<Path>, root: Path, isDirectory: bool)
    ensures AddRefusal(roots, root, isDirectory).Some? <==>
              !isDirectory || |roots| >= MAX_ROOTS || CoveredBy(roots, root)
  {
    assert Covers(root, root);
  }

  // Each refusal, by what is registered: what is no directory is refused first, then
  // anything when sixteen roots are registered, then a registered root, then one below
  // a registered root. Removing asks only whether the root is registered.
  lemma AnswersAre(s: Store, root: Path, isDirectory: bool, write: Write)
    ensures
      var (after, added) := AfterAdd(s, root, isDirectory, write);
      var full, below := |s.roots| >= 16, exists r :: r in s.roots && r < root;
      && (added == Err(NotADirectory) <==> !isDirectory)
      && (added == Err(TooMany) <==> isDirectory && full)
      && (added == Err(AlreadyRegistered) <==> isDirectory && !full && root in s.roots)
      && (added == Err(AlreadyCovered) <==> isDirectory && !full && root !in s.roots && below)
      && (added in {Ok(()), Err(NotWritten)} <==> isDirectory && !full && root !in s.roots && !below)
      && (added == Ok(()) ==> write == Written && after.stored == after.roots)
      && (added.Err? && added != Err(NotWritten) ==> after == s)
      && (added == Err(NotWritten) ==> write.Failed?)
    ensures
      var (after, removed) := AfterRemove(s, root, write);
      && (removed == Ok(false) <==> root !in s.roots)
      && (removed == Ok(true) <==> root in s.roots && write == Written)
      && (removed == Err(NotWritten) <==> root in s.roots && write != Written)
      && (removed == Ok(false) ==> after == s)
      && (removed == Ok(true) ==> after.stored == after.roots)
  {
    assert CoveredBy(s.roots, root) <==> root in s.roots || exists r :: r in s.roots && r < root by {
      assert Covers(root, root);
      if CoveredBy(s.roots, root) {
        var r :| r in s.roots && Covers(r, root);
        assert r == root || r < root;
      }
    }
  }

  // A refused root leaves everything as it was. A root that was accepted but
  // could not be written is in force all the same, until the next start.
  lemma FailedWriteStillCounts(s: Store, root: Path)
    requires AddRefusal(s.roots, root, true).None?
    ensures var (after, result) := AfterAdd(s, root, true, Failed(false));
            && result == Err(NotWritten)
            && CoveredBy(after.roots, root) && !CoveredBy(s.roots, root)
            && after.stored == s.stored
  {
    AddCoversSubtree(s, root, Failed(false), root);
  }
}
