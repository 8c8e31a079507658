// Crash-safe replacement of one small file: a lock, a backup, a temporary file
// that is written and synced, and one rename. Folder is the code as one writer
// runs it, with every effect free to fail.
module AtomicFile {
  import opened Decimals
  import opened Wrappers

  type Name = string

  // synced says the contents have reached the disk.
  datatype File = File(data: Bytes, synced: bool)
  type Files = map<Name, File>

  // ---------- Names ----------

  function TempName(name: Name, pid: nat, sequence: nat): Name {
    "." + name + ".tmp" + "-" + Decimal(pid) + "-" + Decimal(sequence)
  }

  function BackupName(name: Name): Name {
    name + ".bak"
  }

  // What follows the last dash, and what comes before it.
  lemma {:induction false} LastDash(x: string, d: string, y: string, e: string)
    requires '-' !in d && '-' !in e
    requires x + "-" + d == y + "-" + e
    ensures x == y && d == e
    decreases |d|
  {
    var s, t := x + "-" + d, y + "-" + e;
    if d == [] || e == [] {
      assert s[|s| - 1] == t[|t| - 1];
      assert d == [] ==> s[|s| - 1] == '-';
      assert e == [] ==> t[|t| - 1] == '-';
      assert d == [] && e == [];
      assert s[..|s| - 1] == x && t[..|t| - 1] == y;
    } else {
      assert s[|s| - 1] == d[|d| - 1] && t[|t| - 1] == e[|e| - 1];
      assert s[..|s| - 1] == x + "-" + d[..|d| - 1] && t[..|t| - 1] == y + "-" + e[..|e| - 1];
      LastDash(x, d[..|d| - 1], y, e[..|e| - 1]);
    }
  }

  // No two draws of a process's sequence give the same temporary name, whatever
  // file they are for; nor do two processes.
  lemma TempNamesNeverCollide(name: Name, pid: nat, sequence: nat, name': Name, pid': nat, sequence': nat)
    requires TempName(name, pid, sequence) == TempName(name', pid', sequence')
    ensures name == name' && pid == pid' && sequence == sequence'
  {
    DecimalHasNoDash(sequence);
    DecimalHasNoDash(sequence');
    var x, y := "." + name + ".tmp" + "-" + Decimal(pid), "." + name' + ".tmp" + "-" + Decimal(pid');
    LastDash(x, Decimal(sequence), y, Decimal(sequence'));
    DecimalInjective(sequence, sequence');
    DecimalHasNoDash(pid);
    DecimalHasNoDash(pid');
    LastDash("." + name + ".tmp", Decimal(pid), "." + name' + ".tmp", Decimal(pid'));
    DecimalInjective(pid, pid');
    assert ("." + name + ".tmp")[1..|name| + 1] == name;
    assert ("." + name' + ".tmp")[1..|name'| + 1] == name';
  }

  // A temporary name is never the file's own or its backup's.
  lemma TempNameApart(name: Name, pid: nat, sequence: nat)
    ensures TempName(name, pid, sequence) != name
    ensures TempName(name, pid, sequence) != BackupName(name)
    ensures TempName(BackupName(name), pid, sequence) != name
    ensures TempName(BackupName(name), pid, sequence) != BackupName(name)
    ensures BackupName(name) != name
  {
    DecimalHasNoDash(pid);
    DecimalHasNoDash(sequence);
    assert |TempName(name, pid, sequence)| >= |name| + 9;
    assert |TempName(BackupName(name), pid, sequence)| >= |name| + 13;
  }

  // ---------- Effects ----------

  function Created(files: Files, temp: Name): Files {
    files[temp := File([], false)]
  }

  function Wrote(files: Files, temp: Name, data: Bytes): Files {
    files[temp := File(data, false)]
  }

  function SyncedFile(files: Files, temp: Name, data: Bytes): Files {
    files[temp := File(data, true)]
  }

  function Renamed(files: Files, temp: Name, target: Name): Files
    requires temp in files
  {
    (files - {temp})[target := files[temp]]
  }

  // ---------- One writer ----------

  // Which effects succeed, and how many bytes a failing write leaves behind.
  datatype Faults = Faults(
    opens: bool, writes: bool, torn: nat, syncs: bool, renames: bool, syncsParent: bool, cleans: bool)

  // A reader of the name finds what was there before or all of the new bytes.
  ghost predicate OldOrNew(before: Files, files: Files, name: Name, contents: Bytes) {
    if name in files then files[name] == File(contents, true) || (name in before && files[name] == before[name])
    else name !in before
  }

  ghost predicate OthersUnchanged(before: Files, files: Files, name: Name, temp: Name) {
    forall n :: n != name && n != temp ==> (n in files <==> n in before) && (n in files ==> files[n] == before[n])
  }

  // Nothing a reader could mind has happened while replacing the name.
  ghost predicate Harmless(before: Files, files: Files, name: Name, contents: Bytes, temp: Name) {
    OldOrNew(before, files, name, contents) && OthersUnchanged(before, files, name, temp)
  }

  lemma OnlyTempIsHarmless(before: Files, files: Files, name: Name, contents: Bytes, temp: Name)
    requires temp != name && files - {temp} == before - {temp}
    ensures Harmless(before, files, name, contents, temp)
  {
    forall n | n != temp
      ensures n in files <==> n in before
      ensures n in files ==> files[n] == before[n]
    {
      assert n in files <==> n in files - {temp};
      assert n in before <==> n in before - {temp};
    }
  }

  lemma RenamedIsHarmless(before: Files, files: Files, name: Name, contents: Bytes, temp: Name)
    requires temp != name && files == (before - {temp})[name := File(contents, true)]
    ensures Harmless(before, files, name, contents, temp)
  {
  }

  lemma SameElsewhere(a: Files, b: Files, temp: Name, name: Name)
    requires temp != name && a - {temp} == b - {temp}
    ensures name in a <==> name in b
    ensures name in a ==> a[name] == b[name]
  {
    assert name in a <==> name in a - {temp};
    assert name in b <==> name in b - {temp};
  }

  // The replacement gets as far as its rename.
  predicate Lands(before: Files, temp: Name, f: Faults) {
    temp !in before && f.opens && f.writes && f.syncs && f.renames
  }

  // What a replacement leaves, by which effects succeeded.
  ghost predicate Replaced(
    before: Files, files: Files, name: Name, contents: Bytes, temp: Name, f: Faults, ok: bool)
  {
    && (ok <==> Lands(before, temp, f) && f.syncsParent)
    // From the rename on: the new bytes under the name, no temporary file, and
    // at worst a parent directory that was not synced.
    && (Lands(before, temp, f) ==> files == (before - {temp})[name := File(contents, true)])
    // Before it: the name is untouched, and the temporary file is gone unless
    // removing it failed too.
    && (!Lands(before, temp, f) ==> files - {temp} == before - {temp} && (f.cleans ==> temp !in files))
  }

  lemma ReplacedIsHarmless(
    before: Files, files: Files, name: Name, contents: Bytes, temp: Name, f: Faults, ok: bool)
    requires temp != name && Replaced(before, files, name, contents, temp, f, ok)
    ensures Harmless(before, files, name, contents, temp)
  {
    if files - {temp} == before - {temp} {
      OnlyTempIsHarmless(before, files, name, contents, temp);
    } else {
      RenamedIsHarmless(before, files, name, contents, temp);
    }
  }

  // A name stands for the same file in both states, or for none in either.
  predicate Same(before: Files, files: Files, name: Name) {
    (name in files <==> name in before) && (name in files ==> files[name] == before[name])
  }

  lemma ReplacedElsewhere(
    before: Files, files: Files, name: Name, contents: Bytes, temp: Name, f: Faults, ok: bool, other: Name)
    requires temp != name && other != temp && Replaced(before, files, name, contents, temp, f, ok)
    ensures other != name || !Lands(before, temp, f) ==> Same(before, files, other)
  {
    if !Lands(before, temp, f) {
      SameElsewhere(files, before, temp, other);
    }
  }

  lemma ReplacedAddsNoName(
    before: Files, files: Files, name: Name, contents: Bytes, temp: Name, f: Faults, ok: bool)
    requires temp != name && Replaced(before, files, name, contents, temp, f, ok) && f.cleans
    ensures files.Keys <= before.Keys + {name}
  {
    if !Lands(before, temp, f) {
      forall n | n in files ensures n in before {
        SameElsewhere(files, before, temp, n);
      }
    }
  }

  // One call as its caller may know it. ready: the directory exists and the lock is
  // held; canRead: the old contents could be read; fb and f: what happens to the backup
  // and to the file.
  datatype Attempt = Attempt(
    pid: nat, sequence: nat, keepBackup: bool, ready: bool, canRead: bool, fb: Faults, f: Faults)

  // The temporary names a call draws.
  function BackupTemp(name: Name, w: Attempt): Name {
    TempName(BackupName(name), w.pid, w.sequence)
  }

  function FileTemp(before: Files, name: Name, w: Attempt): Name {
    TempName(name, w.pid, if w.keepBackup && name in before then w.sequence + 1 else w.sequence)
  }

  predicate BackedUp(before: Files, name: Name, w: Attempt) {
    w.ready && w.canRead && Lands(before, BackupTemp(name, w), w.fb) && w.fb.syncsParent
  }

  // The call gets as far as the rename of the file itself. A backup, if there is to be
  // one, has succeeded by then.
  predicate Reaches(before: Files, name: Name, w: Attempt) {
    && w.ready
    && (w.keepBackup && name in before ==> BackedUp(before, name, w))
    && Lands(before, FileTemp(before, name, w), w.f)
  }

  // What a call leaves.
  ghost predicate Written(before: Files, files: Files, name: Name, contents: Bytes, w: Attempt, ok: bool) {
    && (ok <==> Reaches(before, name, w) && w.f.syncsParent)
    && (!w.ready ==> files == before)
    // From the rename on the new bytes are there; before it the file is untouched,
    // whatever failed.
    && (if Reaches(before, name, w) then name in files && files[name] == File(contents, true)
        else Same(before, files, name))
    && (w.keepBackup && name in before && BackedUp(before, name, w) ==>
          BackupName(name) in files && files[BackupName(name)] == File(before[name].data, true))
    // No temporary file remains unless removing one failed, and nothing else changes.
    && (w.fb.cleans && w.f.cleans ==> files.Keys <= before.Keys + {name, BackupName(name)})
    && (forall n :: n !in {name, BackupName(name), BackupTemp(name, w), FileTemp(before, name, w)} ==>
          Same(before, files, n))
  }

  lemma NothingDone(before: Files, name: Name, contents: Bytes, w: Attempt)
    requires !w.ready || (w.keepBackup && name in before && !w.canRead)
    ensures Written(before, before, name, contents, w, false)
  {
  }

  lemma BackupFailed(before: Files, files: Files, name: Name, contents: Bytes, w: Attempt)
    requires w.ready && w.canRead && w.keepBackup && name in before
    requires Replaced(before, files, BackupName(name), before[name].data, BackupTemp(name, w), w.fb, false)
    ensures Written(before, files, name, contents, w, false)
  {
    TempNameApart(name, w.pid, w.sequence);
    hide Lands, Replaced, TempName, BackupName, Same;
    var bak, temp, old' := BackupName(name), BackupTemp(name, w), before[name].data;
    forall n | n != bak && n != temp ensures Same(before, files, n) {
      ReplacedElsewhere(before, files, bak, old', temp, w.fb, false, n);
    }
    if w.fb.cleans {
      ReplacedAddsNoName(before, files, bak, old', temp, w.fb, false);
    }
    ReplacedWhen(before, files, bak, old', temp, w.fb, false);
  }

  lemma FileReplaced(before: Files, files: Files, name: Name, contents: Bytes, w: Attempt, ok: bool)
    requires w.ready && !(w.keepBackup && name in before)
    requires Replaced(before, files, name, contents, FileTemp(before, name, w), w.f, ok)
    ensures Written(before, files, name, contents, w, ok)
  {
    TempNameApart(name, w.pid, w.sequence);
    hide Lands, Replaced, TempName, BackupName, Same;
    var temp := FileTemp(before, name, w);
    forall n | n != temp ensures n != name || !Lands(before, temp, w.f) ==> Same(before, files, n) {
      ReplacedElsewhere(before, files, name, contents, temp, w.f, ok, n);
    }
    if w.f.cleans {
      ReplacedAddsNoName(before, files, name, contents, temp, w.f, ok);
    }
    ReplacedWhen(before, files, name, contents, temp, w.f, ok);
  }

  lemma ReplacedWhen(before: Files, files: Files, name: Name, contents: Bytes, temp: Name, f: Faults, ok: bool)
    requires Replaced(before, files, name, contents, temp, f, ok)
    ensures ok <==> Lands(before, temp, f) && f.syncsParent
    ensures Lands(before, temp, f) ==> name in files && files[name] == File(contents, true)
  {
  }

  lemma TempsApart(name: Name, w: Attempt)
    ensures BackupTemp(name, w) != TempName(name, w.pid, w.sequence + 1)
  {
    if BackupTemp(name, w) == TempName(name, w.pid, w.sequence + 1) {
      TempNamesNeverCollide(BackupName(name), w.pid, w.sequence, name, w.pid, w.sequence + 1);
    }
  }

  lemma LandsAlike(a: Files, b: Files, temp: Name, f: Faults)
    requires Same(a, b, temp)
    ensures Lands(a, temp, f) <==> Lands(b, temp, f)
  {
  }

  lemma BackupThenFile(before: Files, mid: Files, files: Files, name: Name, contents: Bytes, w: Attempt, ok: bool)
    requires w.ready && w.canRead && w.keepBackup && name in before
    requires Replaced(before, mid, BackupName(name), before[name].data, BackupTemp(name, w), w.fb, true)
    requires Replaced(mid, files, name, contents, FileTemp(before, name, w), w.f, ok)
    ensures Written(before, files, name, contents, w, ok)
  {
    TempNameApart(name, w.pid, w.sequence);
    TempNameApart(name, w.pid, w.sequence + 1);
    TempsApart(name, w);
    hide Lands, Replaced, TempName, BackupName;
    var bak, old' := BackupName(name), before[name].data;
    var btemp, temp := BackupTemp(name, w), FileTemp(before, name, w);
    ReplacedWhen(before, mid, bak, old', btemp, w.fb, true);
    ReplacedWhen(mid, files, name, contents, temp, w.f, ok);
    forall n | n != bak && n != btemp ensures Same(before, mid, n) {
      ReplacedElsewhere(before, mid, bak, old', btemp, w.fb, true, n);
    }
    LandsAlike(before, mid, temp, w.f);
    forall n | n != temp ensures n != name || !Lands(mid, temp, w.f) ==> Same(mid, files, n) {
      ReplacedElsewhere(mid, files, name, contents, temp, w.f, ok, n);
    }
    assert Same(mid, files, bak);
    assert Same(before, mid, name) && (Lands(mid, temp, w.f) || Same(mid, files, name));
    forall n | n !in {name, bak, btemp, temp} ensures Same(before, files, n) {
      assert Same(before, mid, n) && Same(mid, files, n);
    }
    if w.fb.cleans && w.f.cleans {
      ReplacedAddsNoName(before, mid, bak, old', btemp, w.fb, true);
      ReplacedAddsNoName(mid, files, name, contents, temp, w.f, ok);
    }
  }

  // What a reader may find at any moment of a whole write: the file's old bytes
  // or all of its new ones; and at the backup's name the old backup or all of
  // the file's old bytes.
  ghost predicate WholeContents(before: Files, files: Files, name: Name, contents: Bytes) {
    && OldOrNew(before, files, name, contents)
    && OldOrNew(before, files, BackupName(name), if name in before then before[name].data else [])
  }

  lemma BackupIsHarmless(before: Files, files: Files, name: Name, contents: Bytes, temp: Name)
    requires name in before && temp != name
    requires Harmless(before, files, BackupName(name), before[name].data, temp)
    ensures WholeContents(before, files, name, contents)
    ensures name in files && files[name] == before[name]
  {
    assert |BackupName(name)| != |name|;
  }

  lemma WriteIsHarmless(before: Files, mid: Files, files: Files, name: Name, contents: Bytes, temp: Name)
    requires temp != BackupName(name) && WholeContents(before, mid, name, contents)
    requires name in mid ==> name in before && mid[name] == before[name]
    requires Harmless(mid, files, name, contents, temp)
    ensures WholeContents(before, files, name, contents)
  {
    assert |BackupName(name)| != |name|;
  }

  // What a reader could have found since the folder had been seen as was.
  ghost predicate Watched(
    was: seq<Files>, seen: seq<Files>, before: Files, name: Name, contents: Bytes, temp: Name)
  {
    was <= seen && forall k :: |was| <= k < |seen| ==> Harmless(before, seen[k], name, contents, temp)
  }

  class Folder {
    var files: Files
    // TEMP_SEQUENCE: one counter for the whole process.
    var sequence: nat
    // Every state of the folder a reader could have found.
    ghost var seen: seq<Files>

    constructor (files: Files)
      ensures this.files == files && sequence == 1 && seen == [files]
    {
      this.files, sequence, seen := files, 1, [files];
    }

    method ReplaceBytes(pid: nat, name: Name, contents: Bytes, f: Faults) returns (ok: bool)
      modifies this
      ensures sequence == old(sequence) + 1
      ensures Replaced(old(files), files, name, contents, TempName(name, pid, old(sequence)), f, ok)
      ensures Watched(old(seen), seen, old(files), name, contents, TempName(name, pid, old(sequence)))
    {
      assert Watched(seen, seen, files, name, contents, TempName(name, pid, sequence));
      hide OldOrNew, OthersUnchanged, Harmless, Watched;
      var temp := TempName(name, pid, sequence);
      TempNameApart(name, pid, sequence);
      hide TempName;
      ghost var before, was := files, seen;
      sequence := sequence + 1;
      ok := false;
      if temp !in files && f.opens {
        Observe(Created(files, temp), before, was, name, contents, temp);
        var landed := if f.writes then contents else contents[..if f.torn < |contents| then f.torn else |contents|];
        Observe(Wrote(files, temp, landed), before, was, name, contents, temp);
        if f.writes && f.syncs {
          Observe(SyncedFile(files, temp, contents), before, was, name, contents, temp);
          if f.renames {
            Observe(Renamed(files, temp, name), before, was, name, contents, temp);
            ok := f.syncsParent;
          }
        }
      }
      if !ok && f.cleans {
        Observe(files - {temp}, before, was, name, contents, temp);
      }
    }

    // The attempt's outcome, and what a reader may have found on the way.
    method WriteAtomic(
      pid: nat, name: Name, contents: Bytes, keepBackup: bool, ready: bool, canRead: bool, fb: Faults, f: Faults)
      returns (ok: bool)
      modifies this
      ensures Written(old(files), files, name, contents,
                      Attempt(pid, old(sequence), keepBackup, ready, canRead, fb, f), ok)
      ensures WholeContents(old(files), files, name, contents)
      ensures |old(seen)| <= |seen| && seen[..|old(seen)|] == old(seen)
      ensures forall k :: |old(seen)| <= k < |seen| ==> WholeContents(old(files), seen[k], name, contents)
    {
      hide Harmless, Written;
      ghost var before, w := files, Attempt(pid, sequence, keepBackup, ready, canRead, fb, f);
      ok := false;
      if !ready {
        NothingDone(before, name, contents, w);
        return;
      }
      if keepBackup && name in files {
        if !canRead {
          NothingDone(before, name, contents, w);
          return;
        }
        ghost var temp := TempName(BackupName(name), pid, sequence);
        TempNameApart(name, pid, sequence);
        var previous := files[name].data;
        ok := ReplaceBytes(pid, BackupName(name), previous, fb);
        ReplacedIsHarmless(before, files, BackupName(name), previous, temp, fb, ok);
        forall files' | Harmless(before, files', BackupName(name), previous, temp)
          ensures WholeContents(before, files', name, contents) && name in files' && files'[name] == before[name]
        {
          BackupIsHarmless(before, files', name, contents, temp);
        }
        if !ok {
          BackupFailed(before, files, name, contents, w);
          return;
        }
      }
      ghost var mid, temp := files, TempName(name, pid, sequence);
      TempNameApart(name, pid, sequence);
      ok := ReplaceBytes(pid, name, contents, f);
      ReplacedIsHarmless(mid, files, name, contents, temp, f, ok);
      forall files' | Harmless(mid, files', name, contents, temp)
        ensures WholeContents(before, files', name, contents)
      {
        WriteIsHarmless(before, mid, files', name, contents, temp);
      }
      if keepBackup && name in before {
        BackupThenFile(before, mid, files, name, contents, w, ok);
      } else {
        FileReplaced(before, files, name, contents, w, ok);
      }
    }

    // The folder changes, and a reader may look.
    method Observe(
      next: Files,
      ghost before: Files, ghost was: seq<Files>, ghost name: Name, ghost contents: Bytes, ghost temp: Name)
      requires temp != name && Watched(was, seen, before, name, contents, temp)
      requires next - {temp} == before - {temp} || next == (before - {temp})[name := File(contents, true)]
      modifies this`files, this`seen
      ensures files == next && seen == old(seen) + [next] && Watched(was, seen, before, name, contents, temp)
    {
      files, seen := next, seen + [next];
      if next - {temp} == before - {temp} {
        OnlyTempIsHarmless(before, next, name, contents, temp);
      } else {
        RenamedIsHarmless(before, next, name, contents, temp);
      }
    }
  }
}
