// Any number of writers replacing one file, in any number of processes. A writer
// may fail at any step, a process may die at any step, and the machine may lose
// power at any step.
module AtomicWriters {
  import opened Wrappers
  import opened AtomicFile

  // The folder, how many contents the file has had by now (the last of them is
  // its own), and which of them the backup holds.
  datatype Snapshot = Snapshot(files: Files, version: nat, saved: Option<nat>)

  datatype Job = Job(contents: Bytes, keep: bool)

  // Where a writer is in replacing one name: no temporary file yet; writing it;
  // all of it written and synced; renamed over the name.
  datatype Stage = Fresh | Opened | Landed | Visible

  datatype Pc =
    | Idle
    | Waiting(job: Job)
    | Holding(job: Job)
    | Replacing(job: Job, backup: bool, bytes: Bytes, temp: Name, stage: Stage)
    | Cleaning(temp: Name)

  datatype Writer = Writer(pid: nat, pc: Pc)

  // past holds the folder states since the directory was last synced, oldest
  // first: the ones a loss of power may bring back. contents is every content
  // the file has had, asked every one a writer was given or it began with.
  datatype World = World(
    name: Name,
    live: Snapshot,
    past: seq<Snapshot>,
    contents: seq<Bytes>,
    asked: set<Bytes>,
    lock: Option<nat>,
    writers: seq<Writer>,
    sequences: map<nat, nat>,
    allKeep: bool)

  datatype Step =
    | Asks(i: nat, job: Job)
    | IsRefused(i: nat)
    | Acquires(i: nat)
    | CannotRead(i: nat)
    | StartsBackup(i: nat)
    | StartsWrite(i: nat)
    | OpensTemp(i: nat)
    | WritesSome(i: nat, n: nat)
    | SyncsTemp(i: nat)
    | RenamesTemp(i: nat)
    | SyncsParent(i: nat)
    | Fails(i: nat)
    | Cleans(i: nat, removed: bool)
    | Dies(pid: nat)
    | PowerLoss(choice: nat, torn: map<Name, Bytes>)

  function SequenceOf(w: World, pid: nat): nat {
    if pid in w.sequences then w.sequences[pid] else 1
  }

  function At(w: World, i: nat): Pc {
    if i < |w.writers| then w.writers[i].pc else Idle
  }

  function Moved(w: World, i: nat, pc: Pc): World
    requires i < |w.writers|
  {
    w.(writers := w.writers[i := w.writers[i].(pc := pc)])
  }

  // A change to the directory that a loss of power may still undo.
  function Changed(w: World, next: Snapshot): World {
    w.(live := next, past := w.past + [w.live])
  }

  // Draw the next temporary name and begin replacing.
  function Begins(w: World, i: nat, job: Job, backup: bool, bytes: Bytes): World
    requires i < |w.writers|
  {
    var pid := w.writers[i].pid;
    var temp := TempName(if backup then BackupName(w.name) else w.name, pid, SequenceOf(w, pid));
    Moved(w.(sequences := w.sequences[pid := SequenceOf(w, pid) + 1]), i, Replacing(job, backup, bytes, temp, Fresh))
  }

  function Released(w: World, i: nat): World
    requires i < |w.writers|
  {
    Moved(w, i, Idle).(lock := None)
  }

  // What the disk gives back: the chosen state, with anything in the files that
  // were never synced.
  function Restored(s: Snapshot, torn: map<Name, Bytes>): Snapshot {
    s.(files := map n | n in s.files ::
      if s.files[n].synced then s.files[n] else File(if n in torn then torn[n] else [], true))
  }

  predicate Enabled(w: World, s: Step) {
    match s
    case Asks(i, job) => i < |w.writers| && At(w, i).Idle? && (w.allKeep ==> job.keep)
    case IsRefused(i) => At(w, i).Waiting?
    case Acquires(i) => At(w, i).Waiting? && w.lock.None?
    case CannotRead(i) => At(w, i).Holding?
    case StartsBackup(i) => At(w, i).Holding? && At(w, i).job.keep && w.name in w.live.files
    case StartsWrite(i) => At(w, i).Holding? && !(At(w, i).job.keep && w.name in w.live.files)
    case OpensTemp(i) => At(w, i).Replacing? && At(w, i).stage.Fresh? && At(w, i).temp !in w.live.files
    case WritesSome(i, n) => At(w, i).Replacing? && At(w, i).stage.Opened? && n <= |At(w, i).bytes|
    case SyncsTemp(i) =>
      && At(w, i).Replacing? && At(w, i).stage.Opened?
      && At(w, i).temp in w.live.files && w.live.files[At(w, i).temp].data == At(w, i).bytes
    case RenamesTemp(i) => At(w, i).Replacing? && At(w, i).stage.Landed? && At(w, i).temp in w.live.files
    case SyncsParent(i) => At(w, i).Replacing? && At(w, i).stage.Visible?
    case Fails(i) => At(w, i).Replacing?
    case Cleans(i, _) => At(w, i).Cleaning?
    case Dies(_) => true
    case PowerLoss(choice, _) => choice <= |w.past|
  }

  function Next(w: World, s: Step): World
    requires Enabled(w, s)
  {
    match s
    case Asks(i, job) => Moved(w, i, Waiting(job)).(asked := w.asked + {job.contents})
    case IsRefused(i) => Moved(w, i, Idle)
    case Acquires(i) => Moved(w, i, Holding(At(w, i).job)).(lock := Some(i))
    case CannotRead(i) => Released(w, i)
    case StartsBackup(i) => Begins(w, i, At(w, i).job, true, w.live.files[w.name].data)
    case StartsWrite(i) => Begins(w, i, At(w, i).job, false, At(w, i).job.contents)
    case OpensTemp(i) =>
      Moved(Changed(w, w.live.(files := Created(w.live.files, At(w, i).temp))), i, At(w, i).(stage := Opened))
    case WritesSome(i, n) =>
      w.(live := w.live.(files := Wrote(w.live.files, At(w, i).temp, At(w, i).bytes[..n])))
    case SyncsTemp(i) =>
      Moved(w.(live := w.live.(files := SyncedFile(w.live.files, At(w, i).temp, At(w, i).bytes))),
            i, At(w, i).(stage := Landed))
    case RenamesTemp(i) =>
      var pc := At(w, i);
      if pc.backup then
        Moved(Changed(w, w.live.(files := Renamed(w.live.files, pc.temp, BackupName(w.name)),
                                 saved := if w.live.version == 0 then None else Some(w.live.version - 1))),
              i, pc.(stage := Visible))
      else
        Moved(Changed(w, w.live.(files := Renamed(w.live.files, pc.temp, w.name), version := w.live.version + 1)),
              i, pc.(stage := Visible)).(contents := w.contents + [pc.bytes])
    case SyncsParent(i) =>
      var pc, synced := At(w, i), w.(past := []);
      if pc.backup then Begins(synced, i, pc.job, false, pc.job.contents) else Released(synced, i)
    case Fails(i) => Moved(w, i, Cleaning(At(w, i).temp))
    case Cleans(i, removed) =>
      var temp := At(w, i).temp;
      Released(if removed && temp in w.live.files then Changed(w, w.live.(files := w.live.files - {temp})) else w, i)
    case Dies(pid) =>
      w.(writers := seq(|w.writers|, k requires 0 <= k < |w.writers| =>
                      if w.writers[k].pid == pid then w.writers[k].(pc := Idle) else w.writers[k]),
         lock := if w.lock.Some? && w.lock.value < |w.writers| && w.writers[w.lock.value].pid == pid
                 then None else w.lock,
         sequences := w.sequences[pid := 1])
    case PowerLoss(choice, torn) =>
      var s := (w.past + [w.live])[choice];
      w.(live := Restored(s, torn), past := [],
         contents := if s.version <= |w.contents| then w.contents[..s.version] else w.contents,
         lock := None, sequences := map[],
         writers := seq(|w.writers|, k requires 0 <= k < |w.writers| => w.writers[k].(pc := Idle)))
  }

  // The file is absent or whole on disk, there is no backup yet, and nobody is
  // writing.
  predicate Init(w: World) {
    && w.past == [] && w.lock == None && w.sequences == map[]
    && (forall k :: 0 <= k < |w.writers| ==> w.writers[k].pc == Idle)
    && BackupName(w.name) !in w.live.files
    && w.live.saved == None
    && if w.name in w.live.files
       then w.live.version == 1 && w.live.files[w.name].synced
         && w.contents == [w.live.files[w.name].data] && w.asked == {w.live.files[w.name].data}
       else w.live.version == 0 && w.contents == [] && w.asked == {}
  }

  ghost predicate Run(ws: seq<World>, steps: seq<Step>) {
    && |ws| == |steps| + 1
    && Init(ws[0])
    && forall k :: 0 <= k < |steps| ==> Enabled(ws[k], steps[k]) && ws[k + 1] == Next(ws[k], steps[k])
  }

  // ---------- The invariant ----------

  // In this state of the folder the file is whole, and so is its backup; and
  // when every writer keeps backups, the backup is the current content or the
  // one before it.
  predicate Whole(name: Name, contents: seq<Bytes>, allKeep: bool, s: Snapshot) {
    && s.version <= |contents|
    && (if s.version == 0 then name !in s.files
        else name in s.files && s.files[name] == File(contents[s.version - 1], true))
    && (match s.saved
        case None => BackupName(name) !in s.files && (allKeep ==> s.version <= 1)
        case Some(v) =>
          && v < s.version
          && BackupName(name) in s.files && s.files[BackupName(name)] == File(contents[v], true)
          && (allKeep ==> s.version <= v + 2))
  }

  predicate Critical(pc: Pc) {
    pc.Holding? || pc.Replacing? || pc.Cleaning?
  }

  // What the writer that holds the lock may rely on.
  predicate HolderOk(name: Name, contents: seq<Bytes>, live: Snapshot, allKeep: bool, pc: Pc) {
    match pc
    case Idle => true
    case Waiting(job) => allKeep ==> job.keep
    case Holding(job) => allKeep ==> job.keep
    case Cleaning(temp) => temp != name && temp != BackupName(name)
    case Replacing(job, backup, bytes, temp, stage) =>
      && (allKeep ==> job.keep)
      && temp != name && temp != BackupName(name)
      && (stage.Landed? ==> temp in live.files && live.files[temp] == File(bytes, true))
      && (backup ==> live.version > 0 && live.version <= |contents| && bytes == contents[live.version - 1])
      && (!backup ==> bytes == job.contents)
      && (stage.Visible? && !backup ==> 0 < live.version <= |contents| && contents[live.version - 1] == bytes)
      && ((if backup then stage.Visible? else !stage.Visible? && job.keep && live.version > 0) ==>
            live.saved == Some(live.version - 1))
  }

  ghost predicate Inv(w: World) {
    && |w.contents| == w.live.version
    && (forall k :: 0 <= k < |w.past| ==> Whole(w.name, w.contents, w.allKeep, w.past[k]))
    && Whole(w.name, w.contents, w.allKeep, w.live)
    && (forall k :: 0 <= k < |w.contents| ==> w.contents[k] in w.asked)
    && (forall i :: 0 <= i < |w.writers| ==>
          && (Critical(w.writers[i].pc) ==> w.lock == Some(i))
          && HolderOk(w.name, w.contents, w.live, w.allKeep, w.writers[i].pc)
          && (w.writers[i].pc.Waiting? || w.writers[i].pc.Holding? || w.writers[i].pc.Replacing? ==>
                w.writers[i].pc.job.contents in w.asked))
  }

  lemma InitInv(w: World)
    requires Init(w)
    ensures Inv(w)
  {
  }

  // A step by one writer keeps the invariant when it leaves the folder whole and
  // its own state right, and touches what others rely on only under the lock.
  lemma WriterStep(w: World, v: World, i: nat)
    requires Inv(w) && i < |w.writers| == |v.writers|
    requires v.name == w.name && v.allKeep == w.allKeep && w.asked <= v.asked
    requires forall j :: 0 <= j < |w.writers| && j != i ==> v.writers[j] == w.writers[j]
    requires w.lock == Some(i) || (v.live == w.live && v.contents == w.contents && (v.lock == w.lock || w.lock == None))
    requires |v.contents| == v.live.version
    requires forall k :: 0 <= k < |v.past| ==> Whole(v.name, v.contents, v.allKeep, v.past[k])
    requires Whole(v.name, v.contents, v.allKeep, v.live)
    requires forall k :: 0 <= k < |v.contents| ==> v.contents[k] in v.asked
    requires Critical(v.writers[i].pc) ==> v.lock == Some(i)
    requires HolderOk(v.name, v.contents, v.live, v.allKeep, v.writers[i].pc)
    requires var pc := v.writers[i].pc; pc.Waiting? || pc.Holding? || pc.Replacing? ==> pc.job.contents in v.asked
    ensures Inv(v)
  {
    forall j | 0 <= j < |v.writers|
      ensures Critical(v.writers[j].pc) ==> v.lock == Some(j)
      ensures HolderOk(v.name, v.contents, v.live, v.allKeep, v.writers[j].pc)
      ensures var pc := v.writers[j].pc; pc.Waiting? || pc.Holding? || pc.Replacing? ==> pc.job.contents in v.asked
    {
      if j != i {
        assert v.writers[j] == w.writers[j];
        assert Critical(w.writers[j].pc) ==> w.lock == Some(j);
      }
    }
  }

  // The states a loss of power may bring back stay whole, and the state being
  // left joins them.
  lemma PastGrows(w: World)
    requires Inv(w)
    ensures var past := w.past + [w.live];
            forall k :: 0 <= k < |past| ==> Whole(w.name, w.contents, w.allKeep, past[k])
  {
  }

  lemma WholeLonger(name: Name, contents: seq<Bytes>, more: Bytes, allKeep: bool, s: Snapshot)
    requires Whole(name, contents, allKeep, s)
    ensures Whole(name, contents + [more], allKeep, s)
  {
  }

  // Writing, syncing or removing a temporary file leaves the file and its backup
  // alone.
  lemma TempStep(name: Name, contents: seq<Bytes>, allKeep: bool, s: Snapshot, files: Files)
    requires Whole(name, contents, allKeep, s)
    requires forall n :: n in {name, BackupName(name)} ==>
               (n in files <==> n in s.files) && (n in files ==> files[n] == s.files[n])
    ensures Whole(name, contents, allKeep, s.(files := files))
  {
    assert BackupName(name) in {name, BackupName(name)};
  }

  lemma BeginsKeepsInv(w: World, i: nat, backup: bool)
    requires Inv(w) && i < |w.writers| && w.lock == Some(i)
    requires var pc := w.writers[i].pc;
             if backup then pc.Holding? && pc.job.keep && w.name in w.live.files
             else
               || (pc.Holding? && !(pc.job.keep && w.name in w.live.files))
               || (pc.Replacing? && pc.backup && pc.stage.Visible?)
    ensures var job := w.writers[i].pc.job;
            Inv(Begins(w, i, job, backup, if backup then w.live.files[w.name].data else job.contents))
  {
    var pid := w.writers[i].pid;
    TempNameApart(w.name, pid, SequenceOf(w, pid));
    var job := w.writers[i].pc.job;
    WriterStep(w, Begins(w, i, job, backup, if backup then w.live.files[w.name].data else job.contents), i);
  }

  lemma OpensKeepsInv(w: World, i: nat)
    requires Inv(w) && Enabled(w, OpensTemp(i))
    ensures Inv(Next(w, OpensTemp(i)))
  {
    var v := Next(w, OpensTemp(i));
    PastGrows(w);
    TempStep(w.name, w.contents, w.allKeep, w.live, v.live.files);
    WriterStep(w, v, i);
  }

  lemma WritesKeepsInv(w: World, i: nat, n: nat)
    requires Inv(w) && Enabled(w, WritesSome(i, n))
    ensures Inv(Next(w, WritesSome(i, n)))
  {
    var v := Next(w, WritesSome(i, n));
    TempStep(w.name, w.contents, w.allKeep, w.live, v.live.files);
    WriterStep(w, v, i);
  }

  lemma SyncsKeepsInv(w: World, i: nat)
    requires Inv(w) && Enabled(w, SyncsTemp(i))
    ensures Inv(Next(w, SyncsTemp(i)))
  {
    var v := Next(w, SyncsTemp(i));
    TempStep(w.name, w.contents, w.allKeep, w.live, v.live.files);
    WriterStep(w, v, i);
  }

  lemma CleansKeepsInv(w: World, i: nat, removed: bool)
    requires Inv(w) && Enabled(w, Cleans(i, removed))
    ensures Inv(Next(w, Cleans(i, removed)))
  {
    var v := Next(w, Cleans(i, removed));
    PastGrows(w);
    TempStep(w.name, w.contents, w.allKeep, w.live, v.live.files);
    WriterStep(w, v, i);
  }

  lemma RenamesBackupKeepsInv(w: World, i: nat)
    requires Inv(w) && Enabled(w, RenamesTemp(i)) && At(w, i).backup
    ensures Inv(Next(w, RenamesTemp(i)))
  {
    PastGrows(w);
    WriterStep(w, Next(w, RenamesTemp(i)), i);
  }

  lemma RenamesFileKeepsInv(w: World, i: nat)
    requires Inv(w) && Enabled(w, RenamesTemp(i)) && !At(w, i).backup
    ensures Inv(Next(w, RenamesTemp(i)))
  {
    var v := Next(w, RenamesTemp(i));
    PastGrows(w);
    forall k | 0 <= k < |v.past| ensures Whole(v.name, v.contents, v.allKeep, v.past[k]) {
      WholeLonger(w.name, w.contents, At(w, i).bytes, w.allKeep, (w.past + [w.live])[k]);
    }
    WriterStep(w, v, i);
  }

  lemma DiesKeepsInv(w: World, pid: nat)
    requires Inv(w)
    ensures Inv(Next(w, Dies(pid)))
  {
  }

  lemma PowerLossKeepsInv(w: World, choice: nat, torn: map<Name, Bytes>)
    requires Inv(w) && Enabled(w, PowerLoss(choice, torn))
    ensures Inv(Next(w, PowerLoss(choice, torn)))
  {
    PastGrows(w);
    var s := (w.past + [w.live])[choice];
    assert Whole(w.name, w.contents, w.allKeep, s);
  }

  lemma SyncsParentKeepsInv(w: World, i: nat)
    requires Inv(w) && Enabled(w, SyncsParent(i))
    ensures Inv(Next(w, SyncsParent(i)))
  {
    var synced := w.(past := []);
    assert Inv(synced);
    if At(w, i).backup {
      BeginsKeepsInv(synced, i, false);
    } else {
      WriterStep(w, Next(w, SyncsParent(i)), i);
    }
  }

  // The steps that touch neither the folder nor the sequence.
  lemma QuietStepKeepsInv(w: World, s: Step)
    requires Inv(w) && Enabled(w, s)
    requires s.Asks? || s.IsRefused? || s.Acquires? || s.CannotRead? || s.Fails?
    ensures Inv(Next(w, s))
  {
    WriterStep(w, Next(w, s), s.i);
  }

  lemma NextKeepsInv(w: World, s: Step)
    requires Inv(w) && Enabled(w, s)
    ensures Inv(Next(w, s))
  {
    hide Inv;
    match s
    case StartsBackup(i) => StartsKeepsInv(w, i, true);
    case StartsWrite(i) => StartsKeepsInv(w, i, false);
    case OpensTemp(i) => OpensKeepsInv(w, i);
    case WritesSome(i, n) => WritesKeepsInv(w, i, n);
    case SyncsTemp(i) => SyncsKeepsInv(w, i);
    case RenamesTemp(i) => if At(w, i).backup { RenamesBackupKeepsInv(w, i); } else { RenamesFileKeepsInv(w, i); }
    case SyncsParent(i) => SyncsParentKeepsInv(w, i);
    case Cleans(i, removed) => CleansKeepsInv(w, i, removed);
    case Dies(pid) => DiesKeepsInv(w, pid);
    case PowerLoss(choice, torn) => PowerLossKeepsInv(w, choice, torn);
    case _ => QuietStepKeepsInv(w, s);
  }

  lemma StartsKeepsInv(w: World, i: nat, backup: bool)
    requires Inv(w) && Enabled(w, if backup then StartsBackup(i) else StartsWrite(i))
    ensures Inv(Next(w, if backup then StartsBackup(i) else StartsWrite(i)))
  {
    BeginsKeepsInv(w, i, backup);
  }

  lemma {:induction false} RunKeepsInv(ws: seq<World>, steps: seq<Step>, k: nat)
    requires Run(ws, steps) && k < |ws|
    ensures Inv(ws[k])
  {
    if k == 0 {
      InitInv(ws[0]);
    } else {
      RunKeepsInv(ws, steps, k - 1);
      NextKeepsInv(ws[k - 1], steps[k - 1]);
    }
  }

  // ---------- What holds in every run ----------

  // At every step, whatever has failed or died: the file as it is, and the file
  // as any loss of power would bring it back, is absent only if it never was
  // there, and otherwise holds, whole and synced, some content that a writer was
  // given. The file as it is holds the last of them.
  lemma NeverTorn(ws: seq<World>, steps: seq<Step>, k: nat, choice: nat, torn: map<Name, Bytes>)
    requires Run(ws, steps) && k < |ws| && choice <= |ws[k].past|
    ensures var w := ws[k]; var s := (w.past + [w.live])[choice]; var found := Restored(s, torn).files;
            && s.version <= |w.contents|
            && (w.name in found <==> s.version > 0)
            && (s.version > 0 ==>
                  && found[w.name].data == w.contents[s.version - 1]
                  && found[w.name].data in w.asked
                  && s.files[w.name] == found[w.name])
            && w.live.version == |w.contents|
  {
    RunKeepsInv(ws, steps, k);
    PastGrows(ws[k]);
    assert Whole(ws[k].name, ws[k].contents, ws[k].allKeep, (ws[k].past + [ws[k].live])[choice]);
  }

  // When every writer keeps backups: from the second content on there is a
  // backup, and it always holds the current content or the one before it, also
  // after a loss of power.
  lemma BackupIsCurrentOrPrevious(ws: seq<World>, steps: seq<Step>, k: nat, choice: nat, torn: map<Name, Bytes>)
    requires Run(ws, steps) && k < |ws| && choice <= |ws[k].past| && ws[k].allKeep
    ensures var w := ws[k]; var s := (w.past + [w.live])[choice];
            var found, backup := Restored(s, torn).files, BackupName(w.name);
            && s.version <= |w.contents|
            && (s.version >= 2 ==> backup in found)
            && (backup in found ==>
                  && s.version >= 1
                  && (|| found[backup].data == w.contents[s.version - 1]
                      || (s.version >= 2 && found[backup].data == w.contents[s.version - 2])))
  {
    RunKeepsInv(ws, steps, k);
    PastGrows(ws[k]);
    assert Whole(ws[k].name, ws[k].contents, ws[k].allKeep, (ws[k].past + [ws[k].live])[choice]);
  }

  // The history of the file: it changes only when the writer holding the lock
  // makes all of its contents visible in one rename, or when a loss of power
  // takes the file back to an earlier content.
  lemma HistoryIsOneRenameAtATime(ws: seq<World>, steps: seq<Step>, k: nat)
    requires Run(ws, steps) && k < |steps|
    ensures var w, v, s := ws[k], ws[k + 1], steps[k];
            || v.contents == w.contents
            || (&& s.RenamesTemp? && w.lock == Some(s.i) && At(w, s.i).Replacing?
                && v.contents == w.contents + [At(w, s.i).job.contents])
            || (s.PowerLoss? && v.contents <= w.contents)
  {
    RunKeepsInv(ws, steps, k);
    var w, s := ws[k], steps[k];
    if s.RenamesTemp? {
      RenameHistory(w, s.i);
    } else {
      OtherHistory(w, s);
    }
  }

  lemma RenameHistory(w: World, i: nat)
    requires Inv(w) && Enabled(w, RenamesTemp(i))
    ensures w.lock == Some(i)
    ensures Next(w, RenamesTemp(i)).contents
         == if At(w, i).backup then w.contents else w.contents + [At(w, i).job.contents]
  {
  }

  lemma OtherHistory(w: World, s: Step)
    requires Enabled(w, s) && !s.RenamesTemp?
    ensures if s.PowerLoss? then Next(w, s).contents <= w.contents else Next(w, s).contents == w.contents
  {
  }

  // A lock that is taken is held by a writer in the locked section.
  predicate LockInUse(w: World) {
    w.lock.Some? ==> w.lock.value < |w.writers| && Critical(w.writers[w.lock.value].pc)
  }

  lemma NextKeepsLockInUse(w: World, s: Step)
    requires Inv(w) && LockInUse(w) && Enabled(w, s)
    ensures LockInUse(Next(w, s))
  {
  }

  lemma {:induction false} RunKeepsLockInUse(ws: seq<World>, steps: seq<Step>, k: nat)
    requires Run(ws, steps) && k < |ws|
    ensures LockInUse(ws[k])
  {
    if k > 0 {
      RunKeepsInv(ws, steps, k - 1);
      RunKeepsLockInUse(ws, steps, k - 1);
      NextKeepsLockInUse(ws[k - 1], steps[k - 1]);
    }
  }

  // The lock does what it is for: at every step its holder is the one writer in the
  // locked section, and when none is, the lock is free and any waiting writer may take it.
  lemma OneWriterAtATime(ws: seq<World>, steps: seq<Step>, k: nat, i: nat)
    requires Run(ws, steps) && k < |ws|
    ensures var w := ws[k];
            && (w.lock == Some(i) <==> Critical(At(w, i)))
            && ((forall j: nat :: !Critical(At(w, j))) ==>
                  w.lock == None && (At(w, i).Waiting? ==> Enabled(w, Acquires(i))))
  {
    RunKeepsInv(ws, steps, k);
    RunKeepsLockInUse(ws, steps, k);
    var w := ws[k];
    assert w.lock.Some? ==> At(w, w.lock.value) == w.writers[w.lock.value].pc;
  }

  // A replacement that succeeded happened, and lasts: the last step a writer takes without
  // a failure leaves the file with the contents it was given, gives the lock back, and no
  // loss of power right after it brings anything else back.
  lemma SuccessIsDurable(
    ws: seq<World>, steps: seq<Step>, k: nat, i: nat, choice: nat, torn: map<Name, Bytes>)
    requires Run(ws, steps) && k < |steps|
    requires steps[k] == SyncsParent(i) && At(ws[k + 1], i).Idle?
    requires choice <= |ws[k + 1].past|
    ensures var w, v := ws[k], ws[k + 1];
            var found := Restored((v.past + [v.live])[choice], torn).files;
            && At(w, i).Replacing?
            && v.name in v.live.files && v.live.files[v.name] == File(At(w, i).job.contents, true)
            && v.name in found && found[v.name].data == At(w, i).job.contents
            && v.lock == None
  {
    RunKeepsInv(ws, steps, k);
    var w := ws[k];
    assert HolderOk(w.name, w.contents, w.live, w.allKeep, w.writers[i].pc);
    assert Whole(w.name, w.contents, w.allKeep, w.live);
  }

  // ---------- What is left behind ----------

  // The temporary file a writer may have in the folder.
  function TempOf(pc: Pc): Option<Name> {
    if pc.Cleaning? || (pc.Replacing? && !pc.stage.Visible?) then Some(pc.temp) else None
  }

  // Every file that was not there before is the file, its backup, or the temporary file
  // of the writer that holds the lock.
  ghost predicate Tidy(before: Files, w: World) {
    forall n :: n in w.live.files && n !in before && n != w.name && n != BackupName(w.name) ==>
      w.lock.Some? && TempOf(At(w, w.lock.value)) == Some(n)
  }

  // Nobody dies, and what is to be removed can be.
  predicate Clean(s: Step) {
    !s.Dies? && !s.PowerLoss? && (s.Cleans? ==> s.removed)
  }

  lemma HoldsLock(w: World, i: nat)
    requires Inv(w) && i < |w.writers| && Critical(w.writers[i].pc)
    ensures w.lock == Some(i)
  {
  }

  lemma TempStepKeepsTidy(before: Files, w: World, s: Step)
    requires Tidy(before, w) && Enabled(w, s) && Clean(s)
    requires s.OpensTemp? || s.WritesSome? || s.SyncsTemp? || s.Cleans?
    requires w.lock == Some(s.i)
    ensures Tidy(before, Next(w, s))
  {
  }

  lemma RenameKeepsTidy(before: Files, w: World, i: nat)
    requires Tidy(before, w) && Enabled(w, RenamesTemp(i)) && w.lock == Some(i)
    ensures Tidy(before, Next(w, RenamesTemp(i)))
  {
  }

  // What the lock holder's temporary file is does not change while the folder does not.
  lemma QuietStepKeepsTidy(before: Files, w: World, s: Step)
    requires Tidy(before, w) && Enabled(w, s) && Clean(s)
    requires s.Asks? || s.IsRefused? || s.Acquires? || s.CannotRead? || s.StartsBackup? || s.StartsWrite?
          || s.SyncsParent? || s.Fails?
    requires Critical(At(w, s.i)) ==> w.lock == Some(s.i)
    ensures Tidy(before, Next(w, s))
  {
    hide TempName, BackupName;
    assert Next(w, s).live == w.live;
    assert forall j: nat :: j != s.i ==> At(Next(w, s), j) == At(w, j);
  }

  lemma NextKeepsTidy(before: Files, w: World, s: Step)
    requires Inv(w) && Tidy(before, w) && Enabled(w, s) && Clean(s)
    ensures Tidy(before, Next(w, s))
  {
    if Critical(At(w, s.i)) {
      HoldsLock(w, s.i);
    }
    hide Inv, Tidy, Next;
    if s.RenamesTemp? {
      RenameKeepsTidy(before, w, s.i);
    } else if s.OpensTemp? || s.WritesSome? || s.SyncsTemp? || s.Cleans? {
      TempStepKeepsTidy(before, w, s);
    } else {
      QuietStepKeepsTidy(before, w, s);
    }
  }

  // While nobody dies and temporary files can be removed, failures of any other kind
  // leave nothing behind: with no writer in the locked section the folder has the files
  // it had, the file and its backup, and no other.
  lemma {:induction false} NothingLeftBehind(ws: seq<World>, steps: seq<Step>, k: nat)
    requires Run(ws, steps) && k < |ws|
    requires forall m :: 0 <= m < k ==> Clean(steps[m])
    ensures Tidy(ws[0].live.files, ws[k])
    ensures (forall j: nat :: !Critical(At(ws[k], j))) ==>
              ws[k].live.files.Keys <= ws[0].live.files.Keys + {ws[k].name, BackupName(ws[k].name)}
  {
    if k > 0 {
      RunKeepsInv(ws, steps, k - 1);
      NothingLeftBehind(ws, steps, k - 1);
      NextKeepsTidy(ws[0].live.files, ws[k - 1], steps[k - 1]);
    }
  }

  // ---------- What one writer can do by itself ----------

  // Where these steps lead, if each can be taken.
  function Play(w: World, steps: seq<Step>): Option<World>
    decreases |steps|
  {
    if steps == [] then Some(w)
    else if Enabled(w, steps[0]) then Play(Next(w, steps[0]), steps[1..])
    else None
  }

  lemma PlayOne(w: World, s: Step, rest: seq<Step>)
    requires Enabled(w, s)
    ensures Play(w, [s] + rest) == Play(Next(w, s), rest)
  {
    assert ([s] + rest)[0] == s && ([s] + rest)[1..] == rest;
  }

  // Replacing one name without a failure, and what comes after.
  function Replacement(i: nat, n: nat, rest: seq<Step>): seq<Step> {
    [OpensTemp(i)] + ([WritesSome(i, n)] + ([SyncsTemp(i)] + ([RenamesTemp(i)] + ([SyncsParent(i)] + rest))))
  }

  // The world of a writer that is about to replace a name, once it has.
  predicate Replaces(w: World, i: nat, v: World) {
    var pc := At(w, i);
    && pc.Replacing? && i < |w.writers| == |v.writers|
    && v.name == w.name && v.writers[i].pid == w.writers[i].pid && v.past == []
    && v.live.files == (w.live.files - {pc.temp})[(if pc.backup then BackupName(w.name) else w.name)
                                                  := File(pc.bytes, true)]
    && (if pc.backup
        then v.writers[i].pc == Replacing(pc.job, false, pc.job.contents,
                                          TempName(w.name, w.writers[i].pid, SequenceOf(w, w.writers[i].pid)), Fresh)
        else v.writers[i].pc == Idle && v.lock == None)
  }

  predicate SameWriter(w: World, v: World, i: nat) {
    && i < |w.writers| == |v.writers| && v.writers[i].pid == w.writers[i].pid
    && v.name == w.name && v.sequences == w.sequences
  }

  // Opening, writing and syncing the temporary file.
  lemma TempPlays(w: World, i: nat, rest: seq<Step>) returns (v: World)
    requires At(w, i).Replacing? && At(w, i).stage.Fresh? && At(w, i).temp !in w.live.files
    ensures Play(w, [OpensTemp(i)] + ([WritesSome(i, |At(w, i).bytes|)] + ([SyncsTemp(i)] + rest))) == Play(v, rest)
    ensures SameWriter(w, v, i) && v.writers[i].pc == At(w, i).(stage := Landed)
    ensures v.live.files == w.live.files[At(w, i).temp := File(At(w, i).bytes, true)]
  {
    var pc := At(w, i);
    var n := |pc.bytes|;
    var created := Next(w, OpensTemp(i));
    var written := Next(created, WritesSome(i, n));
    v := Next(written, SyncsTemp(i));
    assert pc.bytes[..n] == pc.bytes;
    hide Play;
    var s2 := [SyncsTemp(i)] + rest;
    PlayOne(w, OpensTemp(i), [WritesSome(i, n)] + s2);
    PlayOne(created, WritesSome(i, n), s2);
    PlayOne(written, SyncsTemp(i), rest);
  }

  // Renaming it and syncing the directory.
  lemma RenamePlays(w: World, i: nat, rest: seq<Step>) returns (v: World)
    requires At(w, i).Replacing? && At(w, i).stage.Landed? && At(w, i).temp in w.live.files
    requires w.live.files[At(w, i).temp] == File(At(w, i).bytes, true)
    ensures Play(w, [RenamesTemp(i)] + ([SyncsParent(i)] + rest)) == Play(v, rest)
    ensures Replaces(w, i, v)
  {
    var visible := Next(w, RenamesTemp(i));
    v := Next(visible, SyncsParent(i));
    hide Play;
    PlayOne(w, RenamesTemp(i), [SyncsParent(i)] + rest);
    PlayOne(visible, SyncsParent(i), rest);
  }

  lemma ReplacementPlays(w: World, i: nat, rest: seq<Step>) returns (v: World)
    requires At(w, i).Replacing? && At(w, i).stage.Fresh? && At(w, i).temp !in w.live.files
    ensures Play(w, Replacement(i, |At(w, i).bytes|, rest)) == Play(v, rest)
    ensures Replaces(w, i, v)
  {
    hide Play;
    var pc := At(w, i);
    var landed := TempPlays(w, i, [RenamesTemp(i)] + ([SyncsParent(i)] + rest));
    v := RenamePlays(landed, i, rest);
    assert landed.live.files - {pc.temp} == w.live.files - {pc.temp};
  }

  // What a writer does when nothing fails: with the old contents for a backup first, if
  // one is to be kept and there is something to keep.
  function Write(w: World, i: nat, job: Job): seq<Step> {
    if job.keep && w.name in w.live.files then
      [Acquires(i)] + ([StartsBackup(i)]
        + Replacement(i, |w.live.files[w.name].data|, Replacement(i, |job.contents|, [])))
    else [Acquires(i)] + ([StartsWrite(i)] + Replacement(i, |job.contents|, []))
  }

  // The temporary names a writer would draw are not taken.
  predicate NamesFree(w: World, i: nat)
    requires i < |w.writers|
  {
    var pid := w.writers[i].pid;
    && TempName(BackupName(w.name), pid, SequenceOf(w, pid)) !in w.live.files
    && TempName(w.name, pid, SequenceOf(w, pid)) !in w.live.files
    && TempName(w.name, pid, SequenceOf(w, pid) + 1) !in w.live.files
  }

  // Up to the first replacement.
  lemma WriteBegins(w: World, i: nat, rest: seq<Step>) returns (v: World)
    requires i < |w.writers| && At(w, i).Waiting? && w.lock == None
    ensures
      var pc, pid := At(w, i), w.writers[i].pid;
      var backup := pc.job.keep && w.name in w.live.files;
      && Play(w, [Acquires(i)] + ([if backup then StartsBackup(i) else StartsWrite(i)] + rest)) == Play(v, rest)
      && v.live == w.live && v.name == w.name && i < |v.writers| && v.writers[i].pid == pid
      && SequenceOf(v, pid) == SequenceOf(w, pid) + 1
      && v.writers[i].pc == Replacing(
           pc.job, backup, if backup then w.live.files[w.name].data else pc.job.contents,
           TempName(if backup then BackupName(w.name) else w.name, pid, SequenceOf(w, pid)), Fresh)
  {
    var backup := At(w, i).job.keep && w.name in w.live.files;
    var held := Next(w, Acquires(i));
    var starts := if backup then StartsBackup(i) else StartsWrite(i);
    v := Next(held, starts);
    hide Play, TempName, BackupName;
    PlayOne(w, Acquires(i), [starts] + rest);
    PlayOne(held, starts, rest);
  }

  // One replacement, said by its contents.
  lemma FreshPlays(w: World, i: nat, rest: seq<Step>) returns (v: World)
    requires At(w, i).Replacing? && At(w, i).stage.Fresh? && At(w, i).temp !in w.live.files
    ensures Play(w, Replacement(i, |At(w, i).bytes|, rest)) == Play(v, rest)
    ensures Replaces(w, i, v)
    ensures v.live.files == w.live.files[(if At(w, i).backup then BackupName(w.name) else w.name)
                                         := File(At(w, i).bytes, true)]
  {
    v := ReplacementPlays(w, i, rest);
    hide Replacement, Play, TempName, BackupName;
    assert w.live.files - {At(w, i).temp} == w.live.files;
  }

  lemma PlainWritePlays(w: World, i: nat) returns (v: World)
    requires i < |w.writers| && At(w, i).Waiting? && w.lock == None && NamesFree(w, i)
    requires !(At(w, i).job.keep && w.name in w.live.files)
    ensures Play(w, Write(w, i, At(w, i).job)) == Some(v) && Done(w, i, v)
  {
    hide Play, TempName, BackupName, Next, Enabled, Replacement;
    PlayNone();
    var begun := WriteBegins(w, i, Replacement(i, |At(w, i).job.contents|, []));
    v := FreshPlays(begun, i, []);
  }

  lemma KeptWritePlays(w: World, i: nat) returns (v: World)
    requires i < |w.writers| && At(w, i).Waiting? && w.lock == None && NamesFree(w, i)
    requires At(w, i).job.keep && w.name in w.live.files
    ensures Play(w, Write(w, i, At(w, i).job)) == Some(v) && Done(w, i, v)
  {
    var pid := w.writers[i].pid;
    TempNameApart(w.name, pid, SequenceOf(w, pid) + 1);
    hide Play, TempName, BackupName, Next, Enabled, Replacement;
    PlayNone();
    var last := Replacement(i, |At(w, i).job.contents|, []);
    var begun := WriteBegins(w, i, Replacement(i, |w.live.files[w.name].data|, last));
    var mid := FreshPlays(begun, i, last);
    hide SequenceOf;
    v := FreshPlays(mid, i, []);
  }

  // The write is done: the file has its contents, the backup the old ones if it was to
  // be kept, nothing else has changed, all of it is synced and the lock is free.
  predicate Done(w: World, i: nat, v: World)
    requires At(w, i).Waiting?
  {
    var job := At(w, i).job;
    && At(v, i) == Idle && v.lock == None && v.past == []
    && v.live.files == (if job.keep && w.name in w.live.files
                        then w.live.files[BackupName(w.name) := File(w.live.files[w.name].data, true)]
                        else w.live.files)[w.name := File(job.contents, true)]
  }

  // A waiting writer needs nobody else: once the lock is free, and its temporary names
  // are, its own steps lead to a write that is done.
  lemma WriterCanFinish(w: World, i: nat)
    requires i < |w.writers| && At(w, i).Waiting? && w.lock == None && NamesFree(w, i)
    ensures var end := Play(w, Write(w, i, At(w, i).job)); end.Some? && Done(w, i, end.value)
  {
    if At(w, i).job.keep && w.name in w.live.files {
      var v := KeptWritePlays(w, i);
    } else {
      var v := PlainWritePlays(w, i);
    }
  }

  lemma PlayNone()
    ensures forall w :: Play(w, []) == Some(w)
  {
  }
}
