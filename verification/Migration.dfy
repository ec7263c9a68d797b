/** Migrating a session store in place, as sequences of atomic directory steps that may fail or
    stop anywhere: applying, restoring, cleaning up, and opening the store afterwards
    (runtime/sessions/migrate_apply.go:93-123, runtime/sessions/migrate_restore.go:11-155,
    runtime/sessions/migrate.go:355-380, runtime/sessions/storefs.go:291-338,
    runtime/sessions/layout.go:48-50, 74-109). */
module Migration {
  import opened Utf8
  import opened Wrappers

  const MARKER: string := ".serpe-store-format"
  const JSON_SUFFIX: string := ".json"
  const TEMP_SUFFIX: string := ".tmp"
  const MANIFEST: string := "manifest.json"

  type Files = map<string, Bytes>

  /** One record of a manifest; its source is known by the identity of its file, too. */
  datatype Entry = Entry(source: string, target: string, backup: string, identity: nat, before: Bytes, after: Bytes)

  function Lower(c: char): char
  {
    if 'A' <= c <= 'Z' then c + 32 as char else c
  }

  predicate EndsWith(name: string, suffix: string)
  {
    |name| >= |suffix| && forall i :: 0 <= i < |suffix| ==> Lower(name[|name| - |suffix| + i]) == suffix[i]
  }

  /** isJSONCandidate. */
  predicate JSONCandidate(name: string)
  {
    EndsWith(name, JSON_SUFFIX)
  }

  /** A leftover temporary file is never taken for a record. */
  lemma TempIsNoCandidate(name: string)
    requires EndsWith(name, TEMP_SUFFIX)
    ensures !JSONCandidate(name) && name != MARKER
  {
    var last := name[|name| - 4 + 3];
    assert Lower(last) == TEMP_SUFFIX[3];
    assert JSON_SUFFIX[4] == 'n';
  }

  /** The same letters, each in either case. */
  predicate SameButCase(a: string, b: string)
  {
    |a| == |b| && forall i :: 0 <= i < |a| ==> SameLetter(a[i], b[i])
  }

  predicate SameLetter(a: char, b: char)
  {
    a == b || ('A' <= a <= 'Z' && b as int == a as int + 32) || ('A' <= b <= 'Z' && a as int == b as int + 32)
  }

  /** Every name that ends in the suffix counts as a record, in any case, and no other does. */
  lemma CandidatesExactly(name: string)
    ensures JSONCandidate(name) <==> |name| >= 5 && SameButCase(name[|name| - 5..], ".json")
  {
    if |name| >= 5 {
      forall i | 0 <= i < 5 ensures Lower(name[|name| - 5 + i]) == ".json"[i] <==> SameLetter(name[|name| - 5..][i], ".json"[i]) {
      }
    }
  }

  // ---- what a manifest names ----

  ghost predicate Managed(entries: seq<Entry>, name: string)
  {
    name == MARKER || exists i :: 0 <= i < |entries| && (entries[i].source == name || entries[i].target == name)
  }

  /** No name occurs twice, and every record name is a JSON name. */
  ghost predicate SoundNames(entries: seq<Entry>)
  {
    && (forall i :: 0 <= i < |entries| ==>
          && JSONCandidate(entries[i].source) && JSONCandidate(entries[i].target)
          && entries[i].source != MARKER && entries[i].target != MARKER && entries[i].backup != MANIFEST)
    && (forall i, j :: 0 <= i < |entries| && 0 <= j < |entries| ==> entries[i].source != entries[j].target)
    && (forall i, j :: 0 <= i < j < |entries| ==>
          entries[i].source != entries[j].source && entries[i].target != entries[j].target && entries[i].backup != entries[j].backup)
  }

  // ---- the states a migration can be in ----

  predicate HasSource(dir: Files, e: Entry)
  {
    e.source in dir && dir[e.source] == e.before
  }

  predicate HasTarget(dir: Files, e: Entry)
  {
    e.target in dir && dir[e.target] == e.after
  }

  /** The record is there, in its old form, its new form, or both. */
  predicate Safe(dir: Files, e: Entry)
  {
    && (e.source in dir ==> dir[e.source] == e.before)
    && (e.target in dir ==> dir[e.target] == e.after)
    && (e.source in dir || e.target in dir)
  }

  predicate Moved(dir: Files, e: Entry)
  {
    e.source !in dir && HasTarget(dir, e)
  }

  predicate Unmoved(dir: Files, e: Entry)
  {
    HasSource(dir, e) && e.target !in dir
  }

  /** Files outside the manifest are as they were. */
  ghost predicate Elsewhere(entries: seq<Entry>, original: Files, dir: Files)
  {
    forall name :: !Managed(entries, name) ==> (name in dir <==> name in original) && (name in dir ==> dir[name] == original[name])
  }

  /** What every step of every run keeps. */
  ghost predicate Recoverable(entries: seq<Entry>, format: Bytes, original: Files, dir: Files)
  {
    && Elsewhere(entries, original, dir)
    && (forall i :: 0 <= i < |entries| ==> Safe(dir, entries[i]))
    && (MARKER in dir ==> dir[MARKER] == format && forall i :: 0 <= i < |entries| ==> Moved(dir, entries[i]))
  }

  /** The store as it was before the migration. */
  ghost predicate Original(entries: seq<Entry>, dir: Files)
  {
    MARKER !in dir && forall i :: 0 <= i < |entries| ==> Unmoved(dir, entries[i])
  }

  ghost predicate Completed(entries: seq<Entry>, format: Bytes, dir: Files)
  {
    MARKER in dir && dir[MARKER] == format && forall i :: 0 <= i < |entries| ==> Moved(dir, entries[i])
  }

  /** Two stores that are both unmigrated and agree elsewhere are the same. */
  lemma OriginalIsUnique(entries: seq<Entry>, a: Files, b: Files)
    requires Original(entries, a) && Original(entries, b) && Elsewhere(entries, a, b)
    ensures a == b
  {
    forall name ensures name in a <==> name in b {
      if Managed(entries, name) && name != MARKER {
        var i :| 0 <= i < |entries| && (entries[i].source == name || entries[i].target == name);
        assert Unmoved(a, entries[i]) && Unmoved(b, entries[i]);
      }
    }
    forall name | name in a ensures a[name] == b[name] {
      if Managed(entries, name) {
        var i :| 0 <= i < |entries| && (entries[i].source == name || entries[i].target == name);
        assert Unmoved(a, entries[i]) && Unmoved(b, entries[i]);
      }
    }
  }

  /** The other records are where they were. */
  ghost predicate OthersSame(entries: seq<Entry>, dir: Files, dir': Files, i: nat)
  {
    forall j :: 0 <= j < |entries| && j != i ==>
      && (Moved(dir, entries[j]) <==> Moved(dir', entries[j]))
      && (Unmoved(dir, entries[j]) <==> Unmoved(dir', entries[j]))
  }

  lemma OneSource(entries: seq<Entry>, format: Bytes, original: Files, dir: Files, i: nat)
    requires SoundNames(entries) && i < |entries| && Recoverable(entries, format, original, dir) && MARKER !in dir
    requires entries[i].source !in dir
    ensures var dir' := dir[entries[i].source := entries[i].before];
      Recoverable(entries, format, original, dir') && OthersSame(entries, dir, dir', i) && MARKER !in dir' && entries[i].source in dir'
  {
    Changed(entries, original, dir, dir[entries[i].source := entries[i].before], entries[i].source, i);
  }

  lemma OneTarget(entries: seq<Entry>, format: Bytes, original: Files, dir: Files, i: nat)
    requires SoundNames(entries) && i < |entries| && Recoverable(entries, format, original, dir) && MARKER !in dir
    requires entries[i].target !in dir
    ensures var dir' := dir[entries[i].target := entries[i].after];
      Recoverable(entries, format, original, dir') && OthersSame(entries, dir, dir', i) && MARKER !in dir' && entries[i].target in dir'
  {
    Changed(entries, original, dir, dir[entries[i].target := entries[i].after], entries[i].target, i);
  }

  lemma NoSource(entries: seq<Entry>, format: Bytes, original: Files, dir: Files, i: nat)
    requires SoundNames(entries) && i < |entries| && Recoverable(entries, format, original, dir) && MARKER !in dir
    requires entries[i].target in dir
    ensures var dir' := dir - {entries[i].source};
      Recoverable(entries, format, original, dir') && OthersSame(entries, dir, dir', i) && MARKER !in dir' && Moved(dir', entries[i])
  {
    assert entries[i].source != entries[i].target;
    assert Safe(dir, entries[i]);
    Changed(entries, original, dir, dir - {entries[i].source}, entries[i].source, i);
  }

  lemma NoTarget(entries: seq<Entry>, format: Bytes, original: Files, dir: Files, i: nat)
    requires SoundNames(entries) && i < |entries| && Recoverable(entries, format, original, dir) && MARKER !in dir
    requires entries[i].source in dir
    ensures var dir' := dir - {entries[i].target};
      Recoverable(entries, format, original, dir') && OthersSame(entries, dir, dir', i) && MARKER !in dir' && Unmoved(dir', entries[i])
  {
    assert entries[i].source != entries[i].target;
    assert Safe(dir, entries[i]);
    Changed(entries, original, dir, dir - {entries[i].target}, entries[i].target, i);
  }

  /** A change at one record's name touches no other record and nothing elsewhere. */
  lemma Changed(entries: seq<Entry>, original: Files, dir: Files, dir': Files, name: string, i: nat)
    requires SoundNames(entries) && i < |entries| && (name == entries[i].source || name == entries[i].target)
    requires Elsewhere(entries, original, dir) && forall n :: n != name ==> (n in dir <==> n in dir') && (n in dir ==> dir[n] == dir'[n])
    ensures Elsewhere(entries, original, dir') && (MARKER in dir <==> MARKER in dir')
    ensures forall j :: 0 <= j < |entries| && j != i ==>
      && (Safe(dir, entries[j]) <==> Safe(dir', entries[j]))
      && (Moved(dir, entries[j]) <==> Moved(dir', entries[j]))
      && (Unmoved(dir, entries[j]) <==> Unmoved(dir', entries[j]))
  {
    assert Managed(entries, name);
    forall j | 0 <= j < |entries| && j != i ensures entries[j].source != name && entries[j].target != name {
    }
  }

  lemma MarkerGone(entries: seq<Entry>, format: Bytes, original: Files, dir: Files)
    requires SoundNames(entries) && Recoverable(entries, format, original, dir)
    ensures Recoverable(entries, format, original, dir - {MARKER})
  {
    assert Managed(entries, MARKER);
  }

  lemma MarkerPut(entries: seq<Entry>, format: Bytes, original: Files, dir: Files)
    requires SoundNames(entries) && Recoverable(entries, format, original, dir)
    requires MARKER !in dir && forall i :: 0 <= i < |entries| ==> Moved(dir, entries[i])
    ensures Recoverable(entries, format, original, dir[MARKER := format]) && Completed(entries, format, dir[MARKER := format])
  {
    assert Managed(entries, MARKER);
    forall i | 0 <= i < |entries| ensures Moved(dir[MARKER := format], entries[i]) {
      assert Moved(dir, entries[i]);
    }
  }

  // ---- identities ----

  /** Only the files of one record have changed. */
  ghost predicate SameBut(a: map<string, nat>, b: map<string, nat>, e: Entry)
  {
    forall name :: name != e.source && name != e.target ==> (name in a <==> name in b) && (name in a ==> a[name] == b[name])
  }

  /** The first sources were the very files the manifest was made from. */
  ghost predicate KnownBefore(entries: seq<Entry>, ids: map<string, nat>, n: nat)
    requires n <= |entries|
  {
    forall i :: 0 <= i < n ==> entries[i].source in ids && ids[entries[i].source] == entries[i].identity
  }

  /** The other sources are still the same files. */
  ghost predicate SameFrom(entries: seq<Entry>, a: map<string, nat>, b: map<string, nat>, n: nat)
    requires n <= |entries|
  {
    forall i :: n <= i < |entries| ==>
      (entries[i].source in a <==> entries[i].source in b) && (entries[i].source in a ==> a[entries[i].source] == b[entries[i].source])
  }

  lemma SameFromNext(entries: seq<Entry>, a: map<string, nat>, b: map<string, nat>, c: map<string, nat>, n: nat)
    requires SoundNames(entries) && n < |entries| && SameFrom(entries, a, b, n) && SameBut(b, c, entries[n])
    ensures SameFrom(entries, a, c, n + 1)
  {
    forall i | n + 1 <= i < |entries| ensures entries[i].source != entries[n].source && entries[i].source != entries[n].target {
    }
  }

  lemma KnownNext(entries: seq<Entry>, a: map<string, nat>, b: map<string, nat>, n: nat)
    requires n < |entries| && KnownBefore(entries, a, n) && SameFrom(entries, a, b, n)
    requires entries[n].source in b && b[entries[n].source] == entries[n].identity
    ensures KnownBefore(entries, a, n + 1)
  {
  }

  /** The first records are migrated; the others are not, if none was. */
  ghost predicate Halfway(entries: seq<Entry>, before: Files, dir: Files, n: nat)
    requires n <= |entries|
  {
    && (forall i :: 0 <= i < n ==> Moved(dir, entries[i]))
    && (Original(entries, before) ==> MARKER !in dir && forall i :: n <= i < |entries| ==> Unmoved(dir, entries[i]))
  }

  lemma HalfwayNext(entries: seq<Entry>, before: Files, dir: Files, dir': Files, n: nat)
    requires n < |entries| && Halfway(entries, before, dir, n) && OthersSame(entries, dir, dir', n) && Moved(dir', entries[n]) && MARKER !in dir'
    ensures Halfway(entries, before, dir', n + 1)
  {
    hide Moved, Unmoved;
  }

  lemma AllTheWay(entries: seq<Entry>, before: Files, dir: Files)
    requires Halfway(entries, before, dir, |entries|)
    ensures forall i :: 0 <= i < |entries| ==> Moved(dir, entries[i])
    ensures Original(entries, before) ==> MARKER !in dir
  {
    hide Moved;
  }

  // ---- atomic steps that may fail or be the last ----

  /** How the next step goes: it happens, it fails, or the process stops before it. A write
      that fails or stops may leave `part` bytes behind. */
  datatype Fault = Go | Fail(part: nat) | Stop(part: nat)

  datatype Done = Ok | Error | Stopped

  datatype Opened = Usable | MigrationRequired | Corrupt | Halted

  class Store {
    const entries: seq<Entry>
    const format: Bytes
    const migrate: Bytes -> Option<Bytes>
    const identityOf: nat -> nat // the identity the system gives to a temporary file
    ghost const original: Files
    var dir: Files             // the store's directory, temporary files apart
    var ids: map<string, nat>  // the identity of each file in it
    var backup: Files          // the backup directory
    var hasBackup: bool        // whether it exists
    var temps: map<nat, Bytes> // temporary files, by their random number
    var next: nat
    var script: seq<Fault>     // how the coming steps go; all is well once it is used up

    /** Every record is there in its old form, and nothing unknown is. */
    predicate BackupIntact()
      reads this`backup, this`hasBackup
    {
      && hasBackup
      && (forall i :: 0 <= i < |entries| ==> entries[i].backup in backup && backup[entries[i].backup] == entries[i].before)
      && (forall name :: name in backup ==> name == MANIFEST || exists i :: 0 <= i < |entries| && entries[i].backup == name)
    }

    ghost predicate Manifest()
    {
      SoundNames(entries) && Original(entries, original)
      && forall i :: 0 <= i < |entries| ==> migrate(entries[i].before) == Some(entries[i].after)
    }

    /** Nothing is lost: each record is in the directory, and the old form of every record is
        in the backup unless the migration is complete. */
    ghost predicate Valid()
      reads this
    {
      && Manifest()
      && Recoverable(entries, format, original, dir) && ids.Keys == dir.Keys
      && (BackupIntact() || Completed(entries, format, dir))
      && (forall t :: t in temps ==> t < next)
    }

    constructor (entries: seq<Entry>, format: Bytes, migrate: Bytes -> Option<Bytes>, identityOf: nat -> nat, dir: Files, ids: map<string, nat>, backup: Files)
      requires SoundNames(entries) && Original(entries, dir) && ids.Keys == dir.Keys
      requires forall i :: 0 <= i < |entries| ==> migrate(entries[i].before) == Some(entries[i].after)
      requires forall i :: 0 <= i < |entries| ==> ids[entries[i].source] == entries[i].identity
      requires forall i :: 0 <= i < |entries| ==> entries[i].backup in backup && backup[entries[i].backup] == entries[i].before
      requires forall name :: name in backup ==> name == MANIFEST || exists i :: 0 <= i < |entries| && entries[i].backup == name
      ensures Valid() && BackupIntact() && this.dir == dir && original == dir && this.entries == entries && script == []
      ensures this.ids == ids && KnownBefore(entries, ids, |entries|)
    {
      this.entries, this.format, this.migrate, this.original := entries, format, migrate, dir;
      this.identityOf := identityOf;
      this.dir, this.ids, this.backup, this.hasBackup := dir, ids, backup, true;
      this.temps, this.next, this.script := map[], 0, [];
    }

    method Step() returns (f: Fault)
      modifies this`script
      ensures old(script) == [] ==> f.Go? && script == []
    {
      if script == [] {
        return Go;
      }
      f := script[0];
      script := script[1..];
    }

    /** A step without effect on the directory: a read, a sync, a check of the context. */
    method Touch() returns (r: Done)
      modifies this`script
      ensures old(script) == [] ==> r.Ok? && script == []
    {
      var f := Step();
      r := if f.Go? then Ok else if f.Fail? then Error else Stopped;
    }

    method Remove(name: string) returns (r: Done)
      modifies this`script, this`dir, this`ids
      ensures r.Ok? ==> dir == old(dir) - {name} && ids == old(ids) - {name}
      ensures !r.Ok? ==> dir == old(dir) && ids == old(ids)
      ensures old(script) == [] ==> script == [] && (name in old(dir) ==> r.Ok?)
    {
      var f := Step();
      if f.Fail? || (f.Go? && name !in dir) {
        return Error;
      }
      if f.Stop? {
        return Stopped;
      }
      dir, ids := dir - {name}, ids - {name};
      r := Ok;
    }

    method RemoveTemp(t: nat) returns (r: Done)
      modifies this`script, this`temps
      ensures temps == old(temps) || temps == old(temps) - {t}
      ensures old(script) == [] ==> script == [] && r.Ok? && temps == old(temps) - {t}
    {
      var f := Step();
      if !f.Go? {
        return if f.Fail? then Error else Stopped;
      }
      temps := temps - {t};
      r := Ok;
    }

    /** createTemp and writeFileContext: a file of its own, perhaps cut short. */
    method WriteTemp(data: Bytes) returns (r: Done, t: nat)
      requires forall t :: t in temps ==> t < next
      modifies this`script, this`temps, this`next
      ensures forall t :: t in temps ==> t < next
      ensures r.Ok? ==> t in temps && temps[t] == data
      ensures old(script) == [] ==> script == [] && r.Ok?
    {
      t := next;
      var f := Step();
      if !f.Go? {
        return if f.Fail? then Error else Stopped, t;
      }
      temps, next := temps[t := []], next + 1;
      f := Step();
      if f.Stop? {
        temps := temps[t := data[..if f.part < |data| then f.part else |data|]];
        return Stopped, t;
      }
      if f.Fail? {
        var gone := RemoveTemp(t);
        return (if gone.Stopped? then Stopped else Error), t;
      }
      temps := temps[t := data];
      r := Ok;
    }

    /** publishNamed: a complete file appears under its name at once, or nothing does; an
        existing file is never overwritten. The new file is a file of its own. */
    method Publish(dest: string, data: Bytes) returns (r: Done)
      requires forall t :: t in temps ==> t < next
      modifies this`script, this`temps, this`next, this`dir, this`ids
      ensures forall t :: t in temps ==> t < next
      ensures
        || (dir == old(dir) && ids == old(ids))
        || (dest !in old(dir) && dir == old(dir)[dest := data] && exists t :: ids == old(ids)[dest := identityOf(t)])
      ensures r.Ok? ==> dest !in old(dir) && dir == old(dir)[dest := data]
      ensures old(script) == [] ==> script == [] && (dest !in old(dir) ==> r.Ok?)
    {
      var t: nat;
      r, t := WriteTemp(data);
      if !r.Ok? {
        return;
      }
      var f := Step();
      if f.Stop? {
        return Stopped;
      }
      if f.Fail? || dest in dir {
        var gone := RemoveTemp(t);
        return if gone.Stopped? then Stopped else Error;
      }
      dir, ids := dir[dest := temps[t]], ids[dest := identityOf(t)];
      r := RemoveTemp(t);
      if !r.Ok? {
        return;
      }
      r := Touch();
    }

    /** verifyBackup. */
    method VerifyBackup() returns (r: Done)
      modifies this`script
      ensures r.Ok? ==> BackupIntact()
      ensures old(script) == [] ==> script == [] && (BackupIntact() ==> r.Ok?)
    {
      r := Touch();
      if r.Ok? && !BackupIntact() {
        r := Error;
      }
    }

    // ---- apply ----

    /** One record: its new form appears before its old form goes. */
    method ApplyEntry(i: nat) returns (r: Done)
      requires Valid() && BackupIntact() && i < |entries|
      modifies this`script, this`temps, this`next, this`dir, this`ids
      ensures Valid() && BackupIntact()
      ensures MARKER !in old(dir) ==> MARKER !in dir
      ensures r.Ok? ==> MARKER !in dir && Moved(dir, entries[i]) && entries[i].source in old(ids) && old(ids)[entries[i].source] == entries[i].identity
      ensures OthersSame(entries, old(dir), dir, i) && SameBut(old(ids), ids, entries[i])
      ensures old(script) == [] ==> script == []
      ensures old(script) == [] && MARKER !in old(dir) && Unmoved(old(dir), entries[i]) && old(ids)[entries[i].source] == entries[i].identity ==> r.Ok?
    {
      hide Recoverable, SoundNames, Original, OthersSame, Completed, BackupIntact;
      var e := entries[i];
      SameOthers(dir, dir, i);
      r := Touch();
      if !r.Ok? {
        return;
      }
      if e.source !in dir || ids[e.source] != e.identity || dir[e.source] != e.before {
        return Error;
      }
      var migrated := migrate(dir[e.source]);
      if migrated != Some(e.after) {
        return Error;
      }
      NotMarked(i);
      ghost var start := dir;
      r := Publish(e.target, e.after);
      if e.target !in start {
        OneTarget(entries, format, original, start, i);
      }
      if !r.Ok? {
        return;
      }
      ghost var mid := dir;
      NoSource(entries, format, original, mid, i);
      SameOthers(start, mid, i);
      r := Remove(e.source);
      if !r.Ok? {
        return;
      }
      r := Touch();
    }

    lemma SameOthers(a: Files, b: Files, i: nat)
      ensures OthersSame(entries, a, a, i)
      ensures forall c :: OthersSame(entries, a, b, i) && OthersSame(entries, b, c, i) ==> OthersSame(entries, a, c, i)
    {
      hide Moved, Unmoved;
    }

    lemma NotMarked(i: nat)
      requires Valid() && i < |entries| && entries[i].source in dir
      ensures MARKER !in dir
    {
      var moved := Moved(dir, entries[i]);
    }

    /** applyMigration: wherever it stops, nothing is lost; when it ends well, the store is
        marked and every record has its new form only. On an unmigrated store it ends well
        exactly when every source is the very file the manifest was made from: after a restore
        the sources are other files. */
    method Apply() returns (r: Done)
      requires Valid()
      modifies this`script, this`temps, this`next, this`dir, this`ids
      ensures Valid()
      ensures r.Ok? ==> Completed(entries, format, dir)
      ensures r.Ok? ==> KnownBefore(entries, old(ids), |entries|)
      ensures old(script) == [] && old(BackupIntact()) && Original(entries, old(dir)) && KnownBefore(entries, old(ids), |entries|) ==> r.Ok?
    {
      hide Recoverable, Elsewhere, KnownBefore, SameFrom, SameBut, Halfway, OthersSame, SoundNames;
      StartHalfway(old(ids), old(dir));
      r := VerifyBackup();
      if !r.Ok? {
        return;
      }
      for i := 0 to |entries|
        invariant Valid() && BackupIntact() && (i > 0 ==> MARKER !in dir)
        invariant old(script) == [] ==> script == []
        invariant KnownBefore(entries, old(ids), i) && SameFrom(entries, old(ids), ids, i)
        invariant Halfway(entries, old(dir), dir, i)
      {
        ghost var idsBefore, dirBefore := ids, dir;
        HalfwayHere(old(ids), ids, old(dir), dir, i);
        r := ApplyEntry(i);
        if !r.Ok? {
          return;
        }
        SameFromNext(entries, old(ids), idsBefore, ids, i);
        KnownNext(entries, old(ids), idsBefore, i);
        HalfwayNext(entries, old(dir), dirBefore, dir, i);
      }
      ghost var start := dir;
      AllTheWay(entries, old(dir), start);
      r := Publish(MARKER, format);
      if MARKER !in start {
        MarkerPut(entries, format, original, start);
      }
    }

    lemma StartHalfway(ids: map<string, nat>, dir: Files)
      ensures KnownBefore(entries, ids, 0) && SameFrom(entries, ids, ids, 0) && Halfway(entries, dir, dir, 0)
    {
    }

    /** On an unmigrated store of known files, the next record can be migrated. */
    lemma HalfwayHere(first: map<string, nat>, now: map<string, nat>, before: Files, dir: Files, i: nat)
      requires i < |entries| && SameFrom(entries, first, now, i) && Halfway(entries, before, dir, i)
      ensures Original(entries, before) && KnownBefore(entries, first, |entries|) ==>
        MARKER !in dir && Unmoved(dir, entries[i]) && entries[i].source in now && now[entries[i].source] == entries[i].identity
    {
    }

    // ---- restore ----

    /** validateRestoreState, which passes in every state a migration can be in. */
    method ValidateRestoreState(i: nat) returns (r: Done)
      requires Valid() && i < |entries|
      modifies this`script
      ensures old(script) == [] ==> script == [] && r.Ok?
    {
      var e := entries[i];
      r := Touch();
      if !r.Ok? {
        return;
      }
      assert Safe(dir, entries[i]);
      if e.source in dir && dir[e.source] != e.before {
        return Error;
      }
      if e.target in dir && dir[e.target] != e.after {
        return Error;
      }
      if e.source !in dir && e.target !in dir {
        return Error;
      }
    }

    /** One record: its old form appears before its new form goes. */
    method RestoreEntry(i: nat) returns (r: Done)
      requires Valid() && BackupIntact() && i < |entries| && MARKER !in dir
      modifies this`script, this`temps, this`next, this`dir, this`ids
      ensures Valid() && BackupIntact() && MARKER !in dir
      ensures r.Ok? ==> Unmoved(dir, entries[i])
      ensures OthersSame(entries, old(dir), dir, i)
      ensures old(script) == [] ==> script == [] && r.Ok?
    {
      hide Recoverable, SoundNames, Original, OthersSame, Completed;
      var e := entries[i];
      SameOthers(dir, dir, i);
      ghost var start := dir;
      if e.source !in dir {
        r := Touch();
        if !r.Ok? {
          return;
        }
        OneSource(entries, format, original, start, i);
        r := Publish(e.source, backup[e.backup]);
        if !r.Ok? {
          return;
        }
      }
      ghost var mid := dir;
      NoTarget(entries, format, original, mid, i);
      SameOthers(start, mid, i);
      if e.target in dir {
        r := Remove(e.target);
        if !r.Ok? {
          return;
        }
        r := Touch();
      } else {
        assert mid - {e.target} == mid;
        r := Ok;
      }
    }

    /** restoreMigration: from any state that stopped runs can leave, its checks pass, stopping
        it loses nothing, and once it ends well the store is exactly the original. */
    method Restore() returns (r: Done)
      requires Valid()
      modifies this`script, this`temps, this`next, this`dir, this`ids
      ensures Valid()
      ensures r.Ok? ==> dir == original
      ensures old(script) == [] && old(BackupIntact()) ==> r.Ok? && script == []
    {
      hide Elsewhere;
      r := VerifyBackup();
      if !r.Ok? {
        return;
      }
      r := Touch();
      if !r.Ok? {
        return;
      }
      if MARKER in dir && dir[MARKER] != format {
        return Error;
      }
      for i := 0 to |entries|
        invariant Valid() && BackupIntact() && dir == old(dir)
        invariant old(script) == [] ==> script == []
      {
        r := ValidateRestoreState(i);
        if !r.Ok? {
          return;
        }
      }
      if MARKER in dir {
        MarkerGone(entries, format, original, dir);
        r := Remove(MARKER);
        if !r.Ok? {
          return;
        }
        r := Touch();
        if !r.Ok? {
          return;
        }
      }
      r := RestoreAll();
    }

    method RestoreAll() returns (r: Done)
      requires Valid() && BackupIntact() && MARKER !in dir
      modifies this`script, this`temps, this`next, this`dir, this`ids
      ensures Valid() && (r.Ok? ==> dir == original)
      ensures old(script) == [] ==> r.Ok? && script == []
    {
      hide Elsewhere, Recoverable, Safe;
      for i := 0 to |entries|
        invariant Valid() && BackupIntact() && MARKER !in dir
        invariant forall j :: 0 <= j < i ==> Unmoved(dir, entries[j])
        invariant old(script) == [] ==> script == []
      {
        r := RestoreEntry(i);
        if !r.Ok? {
          return;
        }
      }
      SameElsewhere();
      OriginalIsUnique(entries, original, dir);
      r := Ok;
    }

    lemma SameElsewhere()
      requires Valid()
      ensures Elsewhere(entries, original, dir)
    {
    }

    // ---- cleanup ----

    method RemoveBackup(name: string) returns (r: Done)
      modifies this`script, this`backup
      ensures r.Ok? ==> name in old(backup) && backup == old(backup) - {name}
      ensures !r.Ok? ==> backup == old(backup)
      ensures old(script) == [] ==> script == [] && (name in old(backup) ==> r.Ok?)
    {
      var f := Step();
      if f.Fail? || (f.Go? && name !in backup) {
        return Error;
      }
      if f.Stop? {
        return Stopped;
      }
      backup := backup - {name};
      r := Ok;
    }

    /** cleanupMigrationBackup: the backup goes only once the migration is complete; when it ends
        well, its directory is gone. */
    method Cleanup() returns (r: Done)
      requires Valid()
      modifies this`script, this`backup, this`hasBackup
      ensures Valid()
      ensures backup != old(backup) || hasBackup != old(hasBackup) ==> Completed(entries, format, dir)
      ensures r.Ok? ==> Completed(entries, format, dir) && backup == map[] && !hasBackup
      ensures old(script) == [] && Completed(entries, format, dir) && old(BackupIntact()) && MANIFEST in old(backup) ==> r.Ok?
    {
      hide Recoverable;
      r := VerifyBackup();
      if !r.Ok? {
        return;
      }
      if MARKER !in dir || dir[MARKER] != format {
        return Error;
      }
      for i := 0 to |entries|
        invariant backup == old(backup) && hasBackup == old(hasBackup)
        invariant forall j :: 0 <= j < i ==> Moved(dir, entries[j])
        invariant old(script) == [] ==> script == []
      {
        r := Touch();
        if !r.Ok? {
          return;
        }
        if entries[i].source in dir || entries[i].target !in dir || dir[entries[i].target] != entries[i].after {
          return Error;
        }
      }
      r := RemoveAll();
      assert Completed(entries, format, dir);
    }

    /** Every copy, the manifest, and the directory they were in. */
    method RemoveAll() returns (r: Done)
      requires Manifest() && BackupIntact()
      modifies this`script, this`backup, this`hasBackup
      ensures r.Ok? ==> backup == map[] && !hasBackup
      ensures old(script) == [] && MANIFEST in old(backup) ==> r.Ok?
    {
      hide SoundNames, Original;
      for i := 0 to |entries|
        invariant hasBackup && backup.Keys <= old(backup).Keys && CopiesFrom(backup, i)
        invariant MANIFEST in old(backup) ==> MANIFEST in backup
        invariant old(script) == [] ==> script == []
      {
        hide BackupIntact, CopiesFrom;
        NextCopy(backup, i);
        r := RemoveBackup(entries[i].backup);
        if !r.Ok? {
          return;
        }
      }
      ghost var left := backup;
      r := RemoveBackup(MANIFEST);
      if !r.Ok? {
        return;
      }
      var f := Step();
      if !f.Go? {
        return if f.Fail? then Error else Stopped;
      }
      Emptied(old(backup), left);
      if backup != map[] {
        assert false;
        return Error;
      }
      hasBackup := false;
      r := Touch();
    }

    /** The first copies are gone and the others are there. */
    ghost predicate CopiesFrom(files: Files, n: nat)
    {
      forall i :: 0 <= i < |entries| ==> (entries[i].backup in files <==> i >= n)
    }

    lemma NextCopy(files: Files, i: nat)
      requires Manifest() && i < |entries| && CopiesFrom(files, i)
      ensures entries[i].backup in files && CopiesFrom(files - {entries[i].backup}, i + 1) && entries[i].backup != MANIFEST
    {
    }

    lemma Emptied(before: Files, left: Files)
      requires left.Keys <= before.Keys && CopiesFrom(left, |entries|)
      requires forall name :: name in before ==> name == MANIFEST || exists i :: 0 <= i < |entries| && entries[i].backup == name
      ensures left - {MANIFEST} == map[]
    {
      forall name | name in left ensures name == MANIFEST {
        assert name in before;
      }
    }

    // ---- a normal open ----

    /** initializeLayout: a store without marker is refused as soon as it holds a JSON name; with
        one, every JSON name must be canonical. */
    method Open(canonical: string -> bool) returns (r: Opened)
      requires Valid()
      modifies this`script, this`temps, this`next, this`dir, this`ids
      ensures MARKER !in old(dir) && entries != [] ==> dir == old(dir) && (r.MigrationRequired? || r.Halted?)
      ensures MARKER !in old(dir) && entries != [] && old(script) == [] ==> r.MigrationRequired?
      ensures MARKER in old(dir) ==> dir == old(dir) && !r.MigrationRequired?
      ensures MARKER in old(dir) && old(script) == [] && (forall n :: n in dir && JSONCandidate(n) ==> canonical(n)) ==> r.Usable?
    {
      var f := Touch();
      if !f.Ok? {
        return Halted;
      }
      if MARKER in dir {
        if dir[MARKER] != format {
          return Corrupt;
        }
        return if exists n :: n in dir && JSONCandidate(n) && !canonical(n) then Corrupt else Usable;
      }
      if entries != [] {
        assert Safe(dir, entries[0]);
      }
      if exists n :: n in dir && JSONCandidate(n) {
        return MigrationRequired;
      }
      f := Publish(MARKER, format);
      r := if f.Ok? then Usable else Halted;
    }
  }

  // ---- any number of runs ----

  datatype Run = Run(apply: bool, script: seq<Fault>)

  /** Whatever runs were made and wherever each of them failed or stopped, nothing is lost and
      one undisturbed restore brings back exactly the original store. */
  method RecoverAfter(s: Store, runs: seq<Run>) returns (r: Done)
    requires s.Valid() && s.BackupIntact()
    modifies s
    ensures s.Valid() && r.Ok? && s.dir == s.original
  {
    for i := 0 to |runs|
      invariant s.Valid() && s.BackupIntact()
    {
      s.script := runs[i].script;
      var done: Done;
      if runs[i].apply {
        done := s.Apply();
      } else {
        done := s.Restore();
      }
    }
    s.script := [];
    r := s.Restore();
  }
}
