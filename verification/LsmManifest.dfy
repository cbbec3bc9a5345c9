/** VersionSet: what LogAndApply does to the files, the counters and the manifest, and what Recover makes of it. */
module LsmManifest {
  import opened Common
  import opened Coding
  import opened LsmEdit
  import opened LsmBuilder
  import Lsm
  import Lookup = LsmVersion

  // ----- What one edit means -----

  /**
    The files of a level after one edit: the old and the new ones, without the
    deleted numbers, where a number that the edit adds back counts as not deleted.
  */
  lemma EditMeans(o: Order, v: Levels, e: Edit, l: nat, f: FileMeta)
    requires o.Lawful() && |v| == NUM_LEVELS && LevelsOk(e) && l < NUM_LEVELS && FreshAt(e.newFiles, l, {})
    ensures f in NextVersion(o, v, e)[l] <==>
              && (f in v[l] || exists i :: 0 <= i < |e.newFiles| && e.newFiles[i] == (l, f))
              && ((exists i :: 0 <= i < |e.deleted| && e.deleted[i] == (l, f.number)) ==>
                    exists i :: 0 <= i < |e.newFiles| && e.newFiles[i].0 == l && e.newFiles[i].1.number == f.number)
  {
    var q := NothingPending();
    EmptySets(o);
    DeleteAllAt(q, e.deleted, l);
    var qd := DeleteAll(q, e.deleted);
    AddAllAt(o, qd, e.newFiles, l);
    hide DeleteAll, AddAll, Sorted, Live, Merge;
    var p, adds, dels := AddAll(o, qd, e.newFiles), AddedAt(e.newFiles, l), DeletedAt(e.deleted, l);
    assert p.added[l] == Apply(o, q, e).added[l] && p.deleted[l] == Apply(o, q, e).deleted[l];
    MergeHas(o, v[l], p.added[l], f);
    LiveHas(Merge(o, v[l], p.added[l]), p.deleted[l], f);
    assert f in p.added[l] <==> f in AsSet(p.added[l]);
    assert AsSet(p.added[l]) == {} + adds && p.deleted[l] == ({} + dels) - Numbers(adds);
    AddedMeans(e.newFiles, l, f);
    DeletedMeans(e.deleted, l, f.number);
    NumbersMean(e.newFiles, l, f.number);
  }

  lemma AddedMeans(xs: seq<(nat, FileMeta)>, l: nat, f: FileMeta)
    ensures f in AddedAt(xs, l) <==> exists i :: 0 <= i < |xs| && xs[i] == (l, f)
  {
    if f in AddedAt(xs, l) {
      var i :| 0 <= i < |xs| && xs[i].0 == l && xs[i].1 == f;
      assert xs[i] == (l, f);
    }
  }

  lemma DeletedMeans(ds: seq<(nat, nat)>, l: nat, n: nat)
    ensures n in DeletedAt(ds, l) <==> exists i :: 0 <= i < |ds| && ds[i] == (l, n)
  {
    if n in DeletedAt(ds, l) {
      var i :| 0 <= i < |ds| && ds[i].0 == l && ds[i].1 == n;
      assert ds[i] == (l, n);
    }
  }

  lemma NumbersMean(xs: seq<(nat, FileMeta)>, l: nat, n: nat)
    ensures n in Numbers(AddedAt(xs, l)) <==> exists i :: 0 <= i < |xs| && xs[i].0 == l && xs[i].1.number == n
  {
    if i :| 0 <= i < |xs| && xs[i].0 == l && xs[i].1.number == n {
      assert xs[i].1 in AddedAt(xs, l);
    }
  }

  // ----- Versions stay in order -----

  lemma {:induction false} CurrentInKeyOrder(o: Order, v0: Levels, es: seq<Edit>)
    requires o.Lawful() && |v0| == NUM_LEVELS && AllLevelsOk(es) && LevelsInKeyOrder(o, v0)
    ensures LevelsInKeyOrder(o, Current(o, v0, es))
  {
    hide LevelsInKeyOrder;
    if es != [] {
      var rest, e := es[..|es| - 1], es[|es| - 1];
      CurrentInKeyOrder(o, v0, rest);
      NothingInOrder(o);
      ApplyInKeyOrder(o, NothingPending(), e);
      SavedInKeyOrder(o, Current(o, v0, rest), Apply(o, NothingPending(), e));
    }
  }

  lemma NothingInOrder(o: Order)
    ensures LevelsInKeyOrder(o, NothingPending().added) && LevelsInKeyOrder(o, NoFiles())
  {}

  lemma {:induction false} ReplayedInKeyOrder(o: Order, es: seq<Edit>)
    requires o.Lawful() && AllLevelsOk(es)
    ensures LevelsInKeyOrder(o, Replayed(o, es).added)
  {
    hide LevelsInKeyOrder;
    NothingInOrder(o);
    if es != [] {
      ReplayedInKeyOrder(o, es[..|es| - 1]);
      ApplyInKeyOrder(o, Replayed(o, es[..|es| - 1]), es[|es| - 1]);
    }
  }

  /** Whatever a manifest holds, what is recovered from it is in key order. */
  lemma RecoveredInKeyOrder(o: Order, name: seq<Byte>, records: seq<seq<Byte>>, es: seq<Edit>, r: Recovered)
    requires o.Lawful() && RecoversAs(o, name, records, es, r)
    ensures LevelsInKeyOrder(o, r.levels)
  {
    hide LevelsInKeyOrder;
    NothingInOrder(o);
    ReplayedInKeyOrder(o, es);
    SavedInKeyOrder(o, NoFiles(), Replayed(o, es));
  }

  // ----- Order is what lookups need -----

  /** The file that a piece of metadata describes: its first and last entries have the keys recorded. */
  ghost predicate Describes(key: Lsm.Entry -> seq<Byte>, f: FileMeta, file: Lookup.File) {
    Lookup.FileOk(file) && f.smallest == key(Lookup.Smallest(file)) && f.largest == key(Lookup.Largest(file))
  }

  /** The comparator orders encoded internal keys as the entries are ordered. */
  ghost predicate Encodes(o: Order, key: Lsm.Entry -> seq<Byte>) {
    forall a, b :: o.before(key(a), key(b)) <==> Lsm.Precedes(a, b)
  }

  ghost predicate RangesApart(o: Order, fs: seq<FileMeta>) {
    forall i, j :: 0 <= i < j < |fs| ==> o.before(fs[i].largest, fs[j].smallest) || o.before(fs[j].largest, fs[i].smallest)
  }

  /** A level in key order whose ranges do not overlap is sorted as FindFile requires. */
  lemma KeyOrderServesLookups(o: Order, key: Lsm.Entry -> seq<Byte>, fs: seq<FileMeta>, files: seq<Lookup.File>)
    requires o.Lawful() && Encodes(o, key) && InKeyOrder(o, fs) && RangesApart(o, fs)
    requires |files| == |fs| && forall i :: 0 <= i < |fs| ==> Describes(key, fs[i], files[i])
    ensures Lookup.LevelSorted(files)
  {
    forall i, j | 0 <= i < j < |files| ensures Lsm.Precedes(Lookup.Largest(files[i]), Lookup.Smallest(files[j])) {
      assert Describes(key, fs[i], files[i]) && Describes(key, fs[j], files[j]) && NotAfter(o, fs[i], fs[j]);
      var a, b := Lookup.Smallest(files[j]), Lookup.Largest(files[j]);
      assert a == b || Lsm.Precedes(a, b);
    }
  }

  // ----- LogAndApply -----

  /** The counters an edit is written with. */
  function Stamp(e: Edit, logNumber: nat, prevLogNumber: nat, nextFile: nat, lastSequence: nat): Edit {
    e.(logNumber := if e.logNumber.Some? then e.logNumber else Some(logNumber),
       prevLogNumber := if e.prevLogNumber.Some? then e.prevLogNumber else Some(prevLogNumber),
       nextFile := Some(nextFile), lastSequence := Some(lastSequence))
  }

  /** The numbers level l has held since the manifest was begun. */
  ghost function Held(v: Levels, v0: Levels, es: seq<Edit>, begun: bool, l: nat): set<nat>
    requires |v| == |v0| == NUM_LEVELS && l < NUM_LEVELS
  {
    if begun then EverHeld(v0, es, l) else Numbers(AsSet(v[l]))
  }

  /** The files an edit adds at level l carry numbers that are new there. */
  ghost predicate AddsNew(e: Edit, v: Levels, v0: Levels, es: seq<Edit>, begun: bool, l: nat)
    requires |v| == |v0| == NUM_LEVELS && l < NUM_LEVELS
  {
    FreshAt(e.newFiles, l, Held(v, v0, es, begun, l))
  }

  ghost predicate AllNew(e: Edit, v: Levels, v0: Levels, es: seq<Edit>, begun: bool) {
    |v| == |v0| == NUM_LEVELS && forall l :: 0 <= l < NUM_LEVELS ==> AddsNew(e, v, v0, es, begun, l)
  }

  ghost predicate NoReAdds(v0: Levels, es: seq<Edit>) {
    |v0| == NUM_LEVELS && forall l :: 0 <= l < NUM_LEVELS ==> NoReAdd(v0, es, l)
  }

  /** The manifest holds the snapshot of v0 and then es, and es leads to the current version. */
  ghost predicate Recorded(o: Order, name: seq<Byte>, manifest: seq<seq<Byte>>, v0: Levels, snap: Edit, es: seq<Edit>, current: Levels) {
    && VersionOk(o, v0) && NoReAdds(v0, es) && AllLevelsOk(es)
    && snap.deleted == [] && snap.newFiles == SnapshotFiles(v0, NUM_LEVELS) && NameFits(snap, name)
    && ManifestOf(manifest, [snap] + es) && (forall i :: 0 <= i < |es| ==> NameFits(es[i], name))
    && current == Current(o, v0, es)
  }

  ghost predicate FilesBelow(v: Levels, limit: nat) {
    forall l, i :: 0 <= l < |v| && 0 <= i < |v[l]| ==> v[l][i].number < limit
  }

  class VersionSet {
    const o: Order
    const name: seq<Byte>
    var current: Levels
    var logNumber: nat
    var prevLogNumber: nat
    var nextFile: nat
    var lastSequence: nat
    var pointers: seq<(nat, seq<Byte>)>
    /** The records of the descriptor log; none before it is opened. */
    var manifest: seq<seq<Byte>>
    ghost var v0: Levels
    ghost var snap: Edit
    ghost var es: seq<Edit>
    /** The counters written with the last record. */
    ghost var savedNext: nat
    ghost var savedSequence: nat

    ghost predicate Inv()
      reads this
    {
      && o.Lawful() && VersionOk(o, current) && |v0| == NUM_LEVELS && FilesBelow(current, nextFile)
      && (manifest != [] ==>
            && Recorded(o, name, manifest, v0, snap, es, current) && es != []
            && Carries(es[|es| - 1], logNumber, prevLogNumber, savedNext, savedSequence)
            && savedNext <= nextFile && savedSequence <= lastSequence && FilesBelow(current, savedNext))
    }

    constructor (o: Order, name: seq<Byte>, files: Levels, logNumber: nat, prevLogNumber: nat, nextFile: nat, lastSequence: nat)
      requires o.Lawful() && VersionOk(o, files) && FilesBelow(files, nextFile)
      ensures Inv() && manifest == [] && current == files && this.o == o && this.name == name
    {
      this.o, this.name, current, manifest, pointers := o, name, files, [], [];
      this.logNumber, this.prevLogNumber, this.nextFile, this.lastSequence := logNumber, prevLogNumber, nextFile, lastSequence;
      v0 := files;
    }

    method NewFileNumber() returns (n: nat)
      requires Inv()
      modifies this`nextFile
      ensures Inv() && n == old(nextFile) < nextFile
    {
      n := nextFile;
      nextFile := nextFile + 1;
    }

    method SetLastSequence(n: nat)
      requires Inv() && n >= lastSequence
      modifies this`lastSequence
      ensures Inv() && lastSequence == n
    {
      lastSequence := n;
    }

    /** The edit that WriteSnapshot encodes: every file of every level, in order. */
    method WriteSnapshot() returns (e: Edit)
      requires |current| == NUM_LEVELS
      ensures e == Snapshot(current, name, pointers)
    {
      var files: seq<(nat, FileMeta)> := [];
      var level := 0;
      while level < NUM_LEVELS
        invariant 0 <= level <= NUM_LEVELS && files == SnapshotFiles(current, level)
      {
        var i := 0;
        while i < |current[level]|
          invariant 0 <= i <= |current[level]| && files == SnapshotFiles(current, level) + LevelFiles(level, current[level])[..i]
        {
          files := files + [(level, current[level][i])];
          i := i + 1;
        }
        assert LevelFiles(level, current[level])[..i] == LevelFiles(level, current[level]);
        level := level + 1;
      }
      e := EMPTY.(comparator := Some(name), compactPointers := pointers, newFiles := files);
    }

    /** The edit is stamped, applied, and written behind what the manifest holds. */
    method LogAndApply(edit: Edit)
      requires Inv() && LevelsOk(edit) && NameFits(edit, name)
      requires edit.logNumber.Some? ==> logNumber <= edit.logNumber.value < nextFile
      requires AllNew(edit, current, v0, es, manifest != [])
      requires forall i :: 0 <= i < |edit.newFiles| ==> edit.newFiles[i].1.number < nextFile
      requires EditOk(Stamp(edit, logNumber, prevLogNumber, nextFile, lastSequence))
      requires manifest == [] ==> EditOk(Snapshot(current, name, pointers))
      modifies this
      ensures Inv() && manifest != [] && savedNext == nextFile == old(nextFile) && savedSequence == lastSequence == old(lastSequence)
      ensures var e := Stamp(edit, old(logNumber), old(prevLogNumber), nextFile, lastSequence);
              && LevelsOk(e) && |old(current)| == NUM_LEVELS && current == NextVersion(o, old(current), e)
              && logNumber == edit.logNumber.Get(old(logNumber)) && prevLogNumber == edit.prevLogNumber.Get(old(prevLogNumber))
              && manifest == (if old(manifest) == [] then [Bytes(Items(Snapshot(old(current), name, pointers)))] else old(manifest))
                             + [Bytes(Items(e))]
    {
      hide Recorded, NextVersion, Items, Bytes, VersionOk, FilesBelow, EditOk, AllNew, LevelsOk, SnapshotFiles;
      var e := Stamp(edit, logNumber, prevLogNumber, nextFile, lastSequence);
      VersionSize(o, current);
      SameFiles(edit, e, current, v0, es, manifest != []);
      var v := BuildNext(e);
      LogEdit(e);
      current := v;
      logNumber, prevLogNumber := e.logNumber.value, e.prevLogNumber.value;
      savedNext, savedSequence := nextFile, lastSequence;
    }

    /** The edit is written behind what the manifest holds. */
    method LogEdit(e: Edit)
      requires o.Lawful() && VersionOk(o, current) && |current| == |v0| == NUM_LEVELS && FilesBelow(current, nextFile)
      requires manifest != [] ==> Recorded(o, name, manifest, v0, snap, es, current)
      requires LevelsOk(e) && NameFits(e, name) && EditOk(e) && AllNew(e, current, v0, es, manifest != [])
      requires forall i :: 0 <= i < |e.newFiles| ==> e.newFiles[i].1.number < nextFile
      requires manifest == [] ==> EditOk(Snapshot(current, name, pointers))
      modifies this`manifest, this`v0, this`snap, this`es
      ensures var v := NextVersion(o, current, e);
              Recorded(o, name, manifest, v0, snap, es, v) && VersionOk(o, v) && FilesBelow(v, nextFile)
      ensures |v0| == NUM_LEVELS && es != [] && es[|es| - 1] == e
      ensures manifest == (if old(manifest) == [] then [Bytes(Items(Snapshot(current, name, pointers)))] else old(manifest))
                          + [Bytes(Items(e))]
    {
      hide Recorded, NextVersion, Items, Bytes, VersionOk, FilesBelow, EditOk, AllNew, LevelsOk, SnapshotFiles;
      if manifest == [] { OpenManifest(e); }
      var record := EncodeTo(e);
      Logged(o, name, manifest, v0, snap, es, current, e, record, nextFile);
      manifest := manifest + [record];
      es := es + [e];
    }

    /** The version that one Builder makes of the current one and the edit. */
    method BuildNext(e: Edit) returns (v: Levels)
      requires |current| == NUM_LEVELS && LevelsOk(e)
      ensures v == NextVersion(o, current, e)
    {
      hide Apply, Save, LevelsInKeyOrder;
      var builder := new Builder(o, current);
      builder.ApplyEdit(e);
      v := builder.SaveTo();
      BuiltIsNext(o, current, e);
    }

    /** The first edit finds no descriptor log: one is begun with a snapshot. */
    method OpenManifest(ghost e: Edit)
      requires VersionOk(o, current) && |current| == NUM_LEVELS && |v0| == NUM_LEVELS && EditOk(Snapshot(current, name, pointers))
      requires AllNew(e, current, v0, es, false)
      modifies this`manifest, this`v0, this`snap, this`es
      ensures |v0| == NUM_LEVELS && manifest == [Bytes(Items(Snapshot(current, name, pointers)))]
      ensures es == [] && Recorded(o, name, manifest, v0, snap, es, current) && AllNew(e, current, v0, es, true)
    {
      hide Recorded, Items, Bytes, VersionOk, EditOk;
      var snapshot := WriteSnapshot();
      var first := EncodeTo(snapshot);
      manifest := [first];
      BeginsRecorded(o, name, current, pointers, first);
      NewAtFirst(e, current, v0, es);
      v0, snap, es := current, snapshot, [];
    }
  }

  lemma SameFiles(edit: Edit, e: Edit, v: Levels, v0: Levels, es: seq<Edit>, begun: bool)
    requires AllNew(edit, v, v0, es, begun) && e.newFiles == edit.newFiles && e.deleted == edit.deleted && LevelsOk(edit)
    ensures AllNew(e, v, v0, es, begun) && LevelsOk(e)
  {
    forall l | 0 <= l < NUM_LEVELS ensures AddsNew(e, v, v0, es, begun, l) { assert AddsNew(edit, v, v0, es, begun, l); }
  }

  lemma NewAtFirst(e: Edit, v: Levels, v0: Levels, es: seq<Edit>)
    requires AllNew(e, v, v0, es, false)
    ensures AllNew(e, v, v, [], true)
  {
    forall l | 0 <= l < NUM_LEVELS ensures AddsNew(e, v, v, [], true, l) { assert AddsNew(e, v, v0, es, false, l); }
  }

  lemma Logged(o: Order, name: seq<Byte>, manifest: seq<seq<Byte>>, v0: Levels, snap: Edit, es: seq<Edit>, current: Levels,
               e: Edit, record: seq<Byte>, nextFile: nat)
    requires o.Lawful() && Recorded(o, name, manifest, v0, snap, es, current) && LevelsOk(e) && NameFits(e, name) && EditOk(e)
    requires record == Bytes(Items(e)) && |v0| == |current| == NUM_LEVELS && AllNew(e, current, v0, es, true)
    requires FilesBelow(current, nextFile) && forall i :: 0 <= i < |e.newFiles| ==> e.newFiles[i].1.number < nextFile
    ensures var v := NextVersion(o, current, e);
            Recorded(o, name, manifest + [record], v0, snap, es + [e], v) && VersionOk(o, v) && FilesBelow(v, nextFile)
  {
    hide Recorded, NextVersion, Items, Bytes, VersionOk, FilesBelow, EditOk, AllNew;
    RecordedNext(o, name, manifest, v0, snap, es, current, e, record);
    NextBelow(o, current, e, nextFile, v0, es);
    CurrentOk(o, name, manifest + [record], v0, snap, es + [e], NextVersion(o, current, e));
  }

  predicate Carries(e: Edit, logNumber: nat, prevLogNumber: nat, nextFile: nat, lastSequence: nat) {
    && e.logNumber == Some(logNumber) && e.prevLogNumber == Some(prevLogNumber)
    && e.nextFile == Some(nextFile) && e.lastSequence == Some(lastSequence)
  }

  lemma VersionSize(o: Order, v: Levels)
    requires VersionOk(o, v)
    ensures |v| == NUM_LEVELS
  {}

  lemma BuiltIsNext(o: Order, v: Levels, e: Edit)
    requires |v| == NUM_LEVELS && LevelsOk(e)
    ensures NextVersion(o, v, e) == Save(o, v, Apply(o, NothingPending(), e))
  {}

  lemma BeginsRecorded(o: Order, name: seq<Byte>, v: Levels, pointers: seq<(nat, seq<Byte>)>, record: seq<Byte>)
    requires VersionOk(o, v) && EditOk(Snapshot(v, name, pointers)) && record == Bytes(Items(Snapshot(v, name, pointers)))
    ensures Recorded(o, name, [record], v, Snapshot(v, name, pointers), [], v)
  {
    hide Items, Bytes, SnapshotFiles, EditOk;
    var snap := Snapshot(v, name, pointers);
    assert [snap] + [] == [snap];
  }

  lemma RecordedNext(o: Order, name: seq<Byte>, manifest: seq<seq<Byte>>, v0: Levels, snap: Edit, es: seq<Edit>, current: Levels,
                     e: Edit, record: seq<Byte>)
    requires Recorded(o, name, manifest, v0, snap, es, current) && LevelsOk(e) && NameFits(e, name) && EditOk(e)
    requires record == Bytes(Items(e)) && |v0| == |current| == NUM_LEVELS
    requires AllNew(e, current, v0, es, true)
    ensures Recorded(o, name, manifest + [record], v0, snap, es + [e], NextVersion(o, current, e))
  {
    hide Items, Bytes, SnapshotFiles, EditOk, VersionOk, NextVersion, FreshAt, LevelsOk;
    var es' := es + [e];
    assert es'[..|es|] == es && es'[|es|] == e;
    assert [snap] + es' == [snap] + es + [e];
    forall l | 0 <= l < NUM_LEVELS ensures NoReAdd(v0, es', l) {
      assert AddsNew(e, current, v0, es, true, l);
      MoreFresh(v0, es, e, l);
    }
    assert AllLevelsOk(es');
    assert ManifestOf(manifest + [record], [snap] + es');
  }

  lemma MoreFresh(v0: Levels, es: seq<Edit>, e: Edit, l: nat)
    requires l < |v0| && NoReAdd(v0, es, l) && FreshAt(e.newFiles, l, EverHeld(v0, es, l))
    ensures NoReAdd(v0, es + [e], l)
  {
    hide FreshAt, EverHeld;
    var es' := es + [e];
    forall i | 0 <= i < |es'| ensures FreshAt(es'[i].newFiles, l, EverHeld(v0, es'[..i], l)) {
      if i < |es| { assert es'[..i] == es[..i] && es'[i] == es[i]; } else { assert es'[..i] == es; }
    }
  }

  /** The files after an edit have numbers that were given out before it. */
  lemma NextBelow(o: Order, v: Levels, e: Edit, limit: nat, v0: Levels, es: seq<Edit>)
    requires o.Lawful() && |v| == |v0| == NUM_LEVELS && LevelsOk(e) && FilesBelow(v, limit)
    requires AllNew(e, v, v0, es, true)
    requires forall i :: 0 <= i < |e.newFiles| ==> e.newFiles[i].1.number < limit
    ensures FilesBelow(NextVersion(o, v, e), limit)
  {
    hide NextVersion;
    var v': Levels := NextVersion(o, v, e);
    forall l, i | 0 <= l < |v'| && 0 <= i < |v'[l]| ensures v'[l][i].number < limit {
      assert AddsNew(e, v, v0, es, true, l);
      EditMeans(o, v, e, l, v'[l][i]);
      if v'[l][i] in v[l] {
        var j :| 0 <= j < |v[l]| && v[l][j] == v'[l][i];
      }
    }
  }

  /** Versions reached by edits are sorted, one file to a number. */
  lemma CurrentOk(o: Order, name: seq<Byte>, manifest: seq<seq<Byte>>, v0: Levels, snap: Edit, es: seq<Edit>, v: Levels)
    requires o.Lawful() && Recorded(o, name, manifest, v0, snap, es, v)
    ensures VersionOk(o, v)
  {
    ManifestDecodes(manifest, [snap] + es);
    hide Items, Bytes, SnapshotFiles, EditOk, Agree, NoReAdd, Sorted, Replayed, Current, EverHeld;
    forall l | 0 <= l < NUM_LEVELS ensures Sorted(o, v[l]) && NumbersDistinct(v[l]) {
      ReplayAgrees(o, v0, snap, es, l);
      var p := Replayed(o, [snap] + es);
      AgreeOk(o, v[l], p.added[l], p.deleted[l], EverHeld(v0, es, l));
    }
  }

  lemma AgreeOk(o: Order, v: seq<FileMeta>, added: seq<FileMeta>, deleted: set<nat>, held: set<nat>)
    requires o.Lawful() && Agree(o, v, added, deleted, held)
    ensures Sorted(o, v) && NumbersDistinct(v)
  {
    forall i, j | 0 <= i < j < |v| ensures v[i].number != v[j].number {
      assert Less(o, v[i], v[j]);
      LessLaws(o, v[i], v[i], v[i]);
      assert v[i] in added && v[j] in added;
    }
  }

  // ----- Closing and opening again -----

  /**
    Recovery from the manifest of a running store succeeds and gives back its
    file lists, its log numbers, and the counters written with the last edit; no
    number that a file still carries is given out again.
  */
  method Reopen(vs: VersionSet) returns (r: Recovered)
    requires vs.Inv() && vs.manifest != []
    ensures r.levels == vs.current && r.logNumber == vs.logNumber && r.prevLogNumber == vs.prevLogNumber
    ensures r.manifestFile == vs.savedNext && r.nextFile == vs.savedNext + 1 && r.lastSequence == vs.savedSequence
    ensures FilesBelow(r.levels, r.nextFile) && VersionOk(vs.o, r.levels) && LevelsInKeyOrder(vs.o, r.levels)
  {
    hide Current, Replayed, Save, Items, Bytes, SnapshotFiles, EditOk, NoReAdd, VersionOk;
    var got := Recover(vs.o, vs.name, vs.manifest);
    ghost var all := [vs.snap] + vs.es;
    ManifestDecodes(vs.manifest, all);
    RecoverSucceeds(vs.name, vs.manifest, vs.snap, vs.es);
    r := got.value;
    ghost var es :| RecoversAs(vs.o, vs.name, vs.manifest, es, r);
    ManifestReplay(vs.o, vs.v0, vs.snap, vs.es, vs.manifest, es);
    LastCounters(all, r, vs.logNumber, vs.prevLogNumber, vs.savedNext, vs.savedSequence);
    RecoveredInKeyOrder(vs.o, vs.name, vs.manifest, es, r);
  }

  lemma RecoverSucceeds(name: seq<Byte>, records: seq<seq<Byte>>, snap: Edit, es: seq<Edit>)
    requires DecodesTo(records, [snap] + es) && NameFits(snap, name) && es != []
    requires forall i :: 0 <= i < |es| ==> NameFits(es[i], name)
    requires var e := es[|es| - 1]; e.nextFile.Some? && e.logNumber.Some? && e.lastSequence.Some?
    ensures forall i :: 0 <= i < |records| ==> !BadRecord(records[i], name)
    ensures forall got :: DecodesTo(records, got) ==> !Lacking(got)
  {
    hide Decode;
    var all := [snap] + es;
    forall i | 0 <= i < |records| ensures !BadRecord(records[i], name) { assert all[i] == if i == 0 then snap else es[i - 1]; }
    forall got | DecodesTo(records, got) ensures !Lacking(got) {
      var n := |got| - 1;
      assert Some(got[n]) == Decode(EMPTY, records[n]) == Some(all[n]) && all[n] == es[|es| - 1];
      assert Read(got[n], NextFileField).Some? && Read(got[n], LogNumberField).Some? && Read(got[n], LastSequenceField).Some?;
    }
  }

  lemma LastCounters(es: seq<Edit>, r: Recovered, logNumber: nat, prevLogNumber: nat, nextFile: nat, lastSequence: nat)
    requires es != [] && Carries(es[|es| - 1], logNumber, prevLogNumber, nextFile, lastSequence) && CountersFrom(es, r)
    ensures r.logNumber == logNumber && r.prevLogNumber == prevLogNumber && r.manifestFile == nextFile && r.lastSequence == lastSequence
  {
    LastIsLast(es, NextFileField, r.manifestFile);
    LastIsLast(es, LogNumberField, r.logNumber);
    LastIsLast(es, LastSequenceField, r.lastSequence);
    assert Read(es[|es| - 1], PrevLogNumberField).Some?;
    LastIsLast(es, PrevLogNumberField, r.prevLogNumber);
  }

  lemma LastIsLast(es: seq<Edit>, f: Field, v: nat)
    requires es != [] && Read(es[|es| - 1], f).Some? && LastCarried(es, f, v)
    ensures Read(es[|es| - 1], f) == Some(v)
  {
    var i :| 0 <= i < |es| && Read(es[i], f) == Some(v) && NoneCarries(es[i + 1..], f);
    NoneLater(es, f, i + 1);
  }

  lemma NoneLater(es: seq<Edit>, f: Field, k: nat)
    requires k <= |es| && NoneCarries(es[k..], f)
    ensures forall j :: k <= j < |es| ==> Read(es[j], f) == None
  {
    forall j | k <= j < |es| ensures Read(es[j], f) == None { assert es[k..][j - k] == es[j]; }
  }
}
