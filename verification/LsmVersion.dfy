/** Version::Get: a search level by level that stops at the first hit. */
module LsmVersion {
  import opened Common
  import opened Lsm

  /** A table file; its bounds are its first and last entries. */
  datatype File = File(number: nat, entries: seq<Entry>)

  ghost predicate FileOk(f: File) { f.entries != [] && SortedRun(f.entries) }

  function Smallest(f: File): Entry
    requires f.entries != []
  {
    f.entries[0]
  }

  function Largest(f: File): Entry
    requires f.entries != []
  {
    f.entries[|f.entries| - 1]
  }

  type Version = seq<seq<File>>

  /** Tables are sorted runs, levels above 0 are sorted and disjoint, and newer versions of a key come first. */
  ghost predicate VersionOk(v: Version, k: UserKey) {
    && (forall l, i :: 0 <= l < |v| && 0 <= i < |v[l]| ==> FileOk(v[l][i]))
    && (forall l :: 1 <= l < |v| ==> LevelSorted(v[l]))
    && (|v| > 0 ==> forall i, j :: 0 <= i < |v[0]| && 0 <= j < |v[0]| && v[0][i].number > v[0][j].number ==>
          Layered(v[0][i].entries, v[0][j].entries, k))
    && (|v| > 0 ==> forall i, j :: 0 <= i < j < |v[0]| ==> v[0][i].number != v[0][j].number)
    && (forall l, m, i, j :: 0 <= l < m < |v| && 0 <= i < |v[l]| && 0 <= j < |v[m]| ==>
          Layered(v[l][i].entries, v[m][j].entries, k))
  }

  ghost predicate LevelSorted(files: seq<File>) {
    forall i, j :: 0 <= i < j < |files| && files[i].entries != [] && files[j].entries != [] ==>
      Precedes(Largest(files[i]), Smallest(files[j]))
  }

  // ----- All entries of a version -----

  function LevelEntries(files: seq<File>): seq<Entry> {
    if files == [] then [] else LevelEntries(files[..|files| - 1]) + files[|files| - 1].entries
  }

  function AllEntries(v: Version): seq<Entry> {
    if v == [] then [] else AllEntries(v[..|v| - 1]) + LevelEntries(v[|v| - 1])
  }

  ghost predicate InLevel(files: seq<File>, e: Entry) {
    exists i :: 0 <= i < |files| && e in files[i].entries
  }

  ghost predicate InVersion(v: Version, e: Entry) {
    exists l :: 0 <= l < |v| && InLevel(v[l], e)
  }

  lemma {:induction false} LevelHas(files: seq<File>, e: Entry)
    ensures e in LevelEntries(files) <==> InLevel(files, e)
  {
    if files != [] {
      var rest := files[..|files| - 1];
      LevelHas(rest, e);
      if InLevel(rest, e) {
        var i :| 0 <= i < |rest| && e in rest[i].entries;
        assert e in files[i].entries;
      }
      if InLevel(files, e) && e !in files[|files| - 1].entries {
        var i :| 0 <= i < |files| && e in files[i].entries;
        assert e in rest[i].entries;
      }
    }
  }

  lemma {:induction false} VersionHas(v: Version, e: Entry)
    ensures e in AllEntries(v) <==> InVersion(v, e)
  {
    if v != [] {
      var rest := v[..|v| - 1];
      VersionHas(rest, e);
      LevelHas(v[|v| - 1], e);
      if InVersion(rest, e) {
        var l :| 0 <= l < |rest| && InLevel(rest[l], e);
        assert InLevel(v[l], e);
      }
      if InVersion(v, e) && !InLevel(v[|v| - 1], e) {
        var l :| 0 <= l < |v| && InLevel(v[l], e);
        assert InLevel(rest[l], e);
      }
    }
  }

  // ----- One file -----

  /** No version of k the snapshot sees. */
  ghost predicate NoMatch(f: File, k: UserKey, snapshot: nat) {
    forall x :: x in f.entries ==> !Matches(x, k, snapshot)
  }

  /** The first entry at or after the lookup key sees exactly the entries the snapshot sees. */
  lemma SeekTag(e: Entry, snapshot: nat)
    ensures Before(e.key, Tag(e), e.key, Pack(snapshot, true)) <==> e.seqno > snapshot
  {}

  /** Table lookup followed by SaveValue: the entry found if it is for this user key. */
  method TableGet(f: File, k: UserKey, snapshot: nat) returns (r: Option<Entry>)
    requires FileOk(f)
    ensures r.Some? ==> r.value in f.entries && Matches(r.value, k, snapshot)
                        && forall x :: x in f.entries && Matches(x, k, snapshot) ==> x.seqno <= r.value.seqno
    ensures r.None? ==> NoMatch(f, k, snapshot)
  {
    var i := 0;
    while i < |f.entries| && Before(f.entries[i].key, Tag(f.entries[i]), k, Pack(snapshot, true))
      invariant 0 <= i <= |f.entries|
      invariant forall j :: 0 <= j < i ==> Before(f.entries[j].key, Tag(f.entries[j]), k, Pack(snapshot, true))
    {
      i := i + 1;
    }
    AfterSeek(f, k, snapshot, i);
    if i < |f.entries| && f.entries[i].key == k {
      r := Some(f.entries[i]);
    } else {
      r := None;
    }
  }

  lemma AfterSeek(f: File, k: UserKey, snapshot: nat, i: nat)
    requires FileOk(f) && i <= |f.entries|
    requires forall j :: 0 <= j < i ==> Before(f.entries[j].key, Tag(f.entries[j]), k, Pack(snapshot, true))
    requires i < |f.entries| ==> !Before(f.entries[i].key, Tag(f.entries[i]), k, Pack(snapshot, true))
    ensures i < |f.entries| && f.entries[i].key == k ==>
              Matches(f.entries[i], k, snapshot)
              && forall x :: x in f.entries && Matches(x, k, snapshot) ==> x.seqno <= f.entries[i].seqno
    ensures !(i < |f.entries| && f.entries[i].key == k) ==> NoMatch(f, k, snapshot)
  {
    var es := f.entries;
    if i < |es| { SeekTag(es[i], snapshot); }
    forall j | 0 <= j < |es| && Matches(es[j], k, snapshot) ensures i <= j && es[i].key == k && es[j].seqno <= es[i].seqno {
      SeekTag(es[j], snapshot);
      if i < j { RunOrder(es, i, j); }
    }
  }

  // ----- Levels above 0 -----

  /** The whole file comes before the lookup key. */
  predicate EndsBefore(f: File, k: UserKey, tag: nat) {
    f.entries != [] && Before(Largest(f).key, Tag(Largest(f)), k, tag)
  }

  /** The first file whose largest key is not before the lookup key. */
  method FindFile(files: seq<File>, k: UserKey, tag: nat) returns (r: nat)
    requires forall i :: 0 <= i < |files| ==> FileOk(files[i])
    requires LevelSorted(files)
    ensures r <= |files|
    ensures forall i :: 0 <= i < r ==> EndsBefore(files[i], k, tag)
    ensures r < |files| ==> !EndsBefore(files[r], k, tag)
  {
    var left, right := 0, |files|;
    while left < right
      invariant 0 <= left <= right <= |files|
      invariant forall i :: 0 <= i < left ==> EndsBefore(files[i], k, tag)
      invariant right < |files| ==> !EndsBefore(files[right], k, tag)
    {
      var mid := (left + right) / 2;
      if EndsBefore(files[mid], k, tag) {
        forall i | left <= i < mid ensures EndsBefore(files[i], k, tag) {
          LargestAscend(files, i, mid);
        }
        left := mid + 1;
      } else {
        right := mid;
      }
    }
    r := right;
  }

  lemma LargestAscend(files: seq<File>, i: int, j: int)
    requires 0 <= i < j < |files| && FileOk(files[i]) && FileOk(files[j]) && LevelSorted(files)
    ensures Precedes(Largest(files[i]), Largest(files[j]))
  {
    var es := files[j].entries;
    assert Precedes(Largest(files[i]), Smallest(files[j]));
    if |es| > 1 { assert Precedes(es[0], es[|es| - 1]); }
  }

  /** Entries of a file do not come after its largest, nor before its smallest. */
  lemma WithinFile(f: File, x: Entry)
    requires FileOk(f) && x in f.entries
    ensures x == Largest(f) || Precedes(x, Largest(f))
    ensures x == Smallest(f) || Precedes(Smallest(f), x)
  {
    var j :| 0 <= j < |f.entries| && f.entries[j] == x;
    if j < |f.entries| - 1 { assert Precedes(f.entries[j], f.entries[|f.entries| - 1]); }
    if j > 0 { assert Precedes(f.entries[0], f.entries[j]); }
  }

  lemma FileBefore(f: File, k: UserKey, snapshot: nat)
    requires FileOk(f) && EndsBefore(f, k, Pack(snapshot, true))
    ensures NoMatch(f, k, snapshot)
  {
    forall x | x in f.entries ensures !Matches(x, k, snapshot) {
      WithinFile(f, x);
      SeekTag(x, snapshot);
    }
  }

  lemma FileAfter(f: File, k: UserKey, snapshot: nat)
    requires FileOk(f) && k < Smallest(f).key
    ensures NoMatch(f, k, snapshot)
  {
    forall x | x in f.entries ensures !Matches(x, k, snapshot) { WithinFile(f, x); }
  }

  /** Later files of a sorted level hold later entries. */
  lemma LaterFile(files: seq<File>, i: int, j: int, x: Entry, y: Entry)
    requires 0 <= i < j < |files| && FileOk(files[i]) && FileOk(files[j]) && LevelSorted(files)
    requires x in files[i].entries && y in files[j].entries
    ensures Precedes(x, y)
  {
    WithinFile(files[i], x);
    WithinFile(files[j], y);
    assert Precedes(Largest(files[i]), Smallest(files[j]));
  }

  /** Searching one file settles the whole level. */
  method LevelGet(files: seq<File>, k: UserKey, snapshot: nat) returns (r: Option<Entry>)
    requires forall i :: 0 <= i < |files| ==> FileOk(files[i])
    requires LevelSorted(files)
    ensures r.Some? ==> InLevel(files, r.value) && Matches(r.value, k, snapshot)
                        && forall x :: InLevel(files, x) && Matches(x, k, snapshot) ==> x.seqno <= r.value.seqno
    ensures r.None? ==> forall i :: 0 <= i < |files| ==> NoMatch(files[i], k, snapshot)
  {
    var index := FindFile(files, k, Pack(snapshot, true));
    forall i | 0 <= i < index ensures NoMatch(files[i], k, snapshot) { FileBefore(files[i], k, snapshot); }
    if index >= |files| {
      return None;
    }
    if k < Smallest(files[index]).key {
      forall i | index <= i < |files| ensures NoMatch(files[i], k, snapshot) { PastKey(files, index, i, k, snapshot); }
      return None;
    }
    r := TableGet(files[index], k, snapshot);
    if r.Some? {
      forall x | InLevel(files, x) && Matches(x, k, snapshot) ensures x.seqno <= r.value.seqno {
        var i :| 0 <= i < |files| && x in files[i].entries;
        OlderThere(files, index, i, k, snapshot, r.value, x);
      }
    } else {
      forall i | index < i < |files| ensures NoMatch(files[i], k, snapshot) { NothingAfter(files, index, i, k, snapshot); }
    }
  }

  lemma PastKey(files: seq<File>, q: nat, i: nat, k: UserKey, snapshot: nat)
    requires q <= i < |files| && FileOk(files[q]) && FileOk(files[i]) && LevelSorted(files) && k < Smallest(files[q]).key
    ensures NoMatch(files[i], k, snapshot)
  {
    if q < i { LaterFile(files, q, i, Smallest(files[q]), Smallest(files[i])); }
    FileAfter(files[i], k, snapshot);
  }

  lemma OlderThere(files: seq<File>, q: nat, i: nat, k: UserKey, snapshot: nat, e: Entry, x: Entry)
    requires q < |files| && i < |files| && FileOk(files[q]) && FileOk(files[i]) && LevelSorted(files)
    requires i < q ==> NoMatch(files[i], k, snapshot)
    requires e in files[q].entries && Matches(e, k, snapshot) && x in files[i].entries && Matches(x, k, snapshot)
    requires forall y :: y in files[q].entries && Matches(y, k, snapshot) ==> y.seqno <= e.seqno
    ensures x.seqno <= e.seqno
  {
    if q < i { LaterFile(files, q, i, e, x); }
  }

  /** The file's largest key is at or after the lookup key, so it is for a later user key. */
  lemma NothingAfter(files: seq<File>, q: nat, i: nat, k: UserKey, snapshot: nat)
    requires q < i < |files| && FileOk(files[q]) && FileOk(files[i]) && LevelSorted(files)
    requires NoMatch(files[q], k, snapshot)
    requires !EndsBefore(files[q], k, Pack(snapshot, true))
    ensures NoMatch(files[i], k, snapshot)
  {
    var e := Largest(files[q]);
    SeekTag(e, snapshot);
    assert e in files[q].entries && e.key > k;
    LaterFile(files, q, i, e, Smallest(files[i]));
    FileAfter(files[i], k, snapshot);
  }

  // ----- Level 0 -----

  /** The files of level 0 whose range holds the key. */
  method Overlapping(files: seq<File>, k: UserKey, snapshot: nat) returns (tmp: seq<File>)
    requires forall i :: 0 <= i < |files| ==> FileOk(files[i])
    ensures forall f :: f in tmp ==> f in files
    ensures forall f :: f in files && f !in tmp ==> NoMatch(f, k, snapshot)
  {
    tmp := [];
    var i := 0;
    while i < |files|
      invariant 0 <= i <= |files|
      invariant forall f :: f in tmp ==> f in files
      invariant forall f :: f in files[..i] && f !in tmp ==> NoMatch(f, k, snapshot)
    {
      var f := files[i];
      assert FileOk(f);
      if k >= Smallest(f).key && k <= Largest(f).key {
        tmp := tmp + [f];
      } else {
        OutOfRange(f, k, snapshot);
      }
      assert files[..i + 1] == files[..i] + [f];
      i := i + 1;
    }
    assert files[..i] == files;
  }

  lemma OutOfRange(f: File, k: UserKey, snapshot: nat)
    requires FileOk(f) && !(Smallest(f).key <= k <= Largest(f).key)
    ensures NoMatch(f, k, snapshot)
  {
    forall x | x in f.entries ensures !Matches(x, k, snapshot) { WithinFile(f, x); }
  }

  ghost predicate Descends(files: seq<File>) {
    forall i, j :: 0 <= i < j < |files| ==> files[i].number >= files[j].number
  }

  /** std::sort with NewestFirst. */
  method SortNewestFirst(files: seq<File>) returns (out: seq<File>)
    ensures Descends(out) && multiset(out) == multiset(files)
  {
    hide Descends;
    out := [];
    assert Descends([]) by { NoFiles(); }
    var i := 0;
    while i < |files|
      invariant 0 <= i <= |files| && Descends(out) && multiset(out) == multiset(files[..i])
    {
      assert files[..i + 1] == files[..i] + [files[i]];
      out := InsertByNumber(out, files[i]);
      i := i + 1;
    }
    assert files[..i] == files;
  }

  lemma NoFiles()
    ensures Descends([])
  {}

  method InsertByNumber(files: seq<File>, f: File) returns (out: seq<File>)
    requires Descends(files)
    ensures Descends(out) && multiset(out) == multiset(files) + multiset{f}
  {
    var j := 0;
    while j < |files| && files[j].number >= f.number
      invariant 0 <= j <= |files| && forall x :: 0 <= x < j ==> files[x].number >= f.number
    {
      j := j + 1;
    }
    assert files == files[..j] + files[j..];
    out := files[..j] + [f] + files[j..];
  }

  /** Searching the newest file first and stopping at a hit finds the newest version. */
  method Level0Get(files: seq<File>, k: UserKey, snapshot: nat) returns (r: Option<Entry>)
    requires forall i :: 0 <= i < |files| ==> FileOk(files[i])
    requires forall i, j :: 0 <= i < |files| && 0 <= j < |files| && files[i].number > files[j].number ==>
               Layered(files[i].entries, files[j].entries, k)
    requires forall i, j :: 0 <= i < j < |files| ==> files[i].number != files[j].number
    ensures r.Some? ==> InLevel(files, r.value) && Matches(r.value, k, snapshot)
                        && forall x :: InLevel(files, x) && Matches(x, k, snapshot) ==> x.seqno <= r.value.seqno
    ensures r.None? ==> forall i :: 0 <= i < |files| ==> NoMatch(files[i], k, snapshot)
  {
    var tmp := Overlapping(files, k, snapshot);
    var sorted := SortNewestFirst(tmp);
    SameFiles(sorted, tmp);
    var i := 0;
    while i < |sorted|
      invariant 0 <= i <= |sorted|
      invariant forall j :: 0 <= j < i ==> NoMatch(sorted[j], k, snapshot)
    {
      var f := sorted[i];
      assert f in files;
      r := TableGet(f, k, snapshot);
      if r.Some? {
        assert InLevel(files, r.value);
        forall x | InLevel(files, x) && Matches(x, k, snapshot) ensures x.seqno <= r.value.seqno {
          OlderFile(files, tmp, sorted, i, k, snapshot, r.value, x);
        }
        return;
      }
      i := i + 1;
    }
    r := None;
    forall i | 0 <= i < |files| ensures NoMatch(files[i], k, snapshot) {
      if files[i] in tmp {
        var j :| 0 <= j < |sorted| && sorted[j] == files[i];
      }
    }
  }

  lemma SameFiles(a: seq<File>, b: seq<File>)
    requires multiset(a) == multiset(b)
    ensures forall f :: f in a <==> f in b
  {
    forall f ensures f in a <==> f in b {
      assert f in multiset(a) <==> f in multiset(b);
    }
  }

  lemma OlderFile(files: seq<File>, tmp: seq<File>, sorted: seq<File>, i: nat, k: UserKey, snapshot: nat, e: Entry, x: Entry)
    requires Descends(sorted) && i < |sorted| && sorted[i] in files && (forall f :: f in sorted <==> f in tmp)
    requires forall f :: f in files && f !in tmp ==> NoMatch(f, k, snapshot)
    requires forall j :: 0 <= j < i ==> NoMatch(sorted[j], k, snapshot)
    requires forall i, j :: 0 <= i < |files| && 0 <= j < |files| && files[i].number > files[j].number ==>
               Layered(files[i].entries, files[j].entries, k)
    requires forall i, j :: 0 <= i < j < |files| ==> files[i].number != files[j].number
    requires e in sorted[i].entries && Matches(e, k, snapshot) && InLevel(files, x) && Matches(x, k, snapshot)
    requires forall y :: y in sorted[i].entries && Matches(y, k, snapshot) ==> y.seqno <= e.seqno
    ensures x.seqno <= e.seqno
  {
    var p :| 0 <= p < |files| && files[p] == sorted[i];
    var q :| 0 <= q < |files| && x in files[q].entries;
    assert files[q] in tmp;
    var j :| 0 <= j < |sorted| && sorted[j] == files[q];
    assert j >= i;
    if p != q {
      assert files[p].number > files[q].number;
      assert Layered(files[p].entries, files[q].entries, k);
    }
  }

  // ----- All levels -----

  /** Version::Get returns what a flat search through every entry would. */
  method Get(v: Version, k: UserKey, snapshot: nat) returns (r: Option<Value>)
    requires VersionOk(v, k)
    ensures Reads(AllEntries(v), k, snapshot, r)
  {
    hide AllEntries, Newest, Nothing;
    var level := 0;
    while level < |v|
      invariant 0 <= level <= |v|
      invariant forall l, i :: 0 <= l < level && 0 <= i < |v[l]| ==> NoMatch(v[l][i], k, snapshot)
    {
      var e;
      if level == 0 {
        e := Level0Get(v[0], k, snapshot);
      } else {
        e := LevelGet(v[level], k, snapshot);
      }
      if e.Some? {
        FirstHit(v, level, k, snapshot, e.value);
        return Answer(e.value);
      }
      level := level + 1;
    }
    r := None;
    NoHit(v, k, snapshot);
  }

  lemma FirstHit(v: Version, level: nat, k: UserKey, snapshot: nat, e: Entry)
    requires VersionOk(v, k) && level < |v| && InLevel(v[level], e) && Matches(e, k, snapshot)
    requires forall x :: InLevel(v[level], x) && Matches(x, k, snapshot) ==> x.seqno <= e.seqno
    requires forall l, i :: 0 <= l < level && 0 <= i < |v[l]| ==> NoMatch(v[l][i], k, snapshot)
    ensures Newest(AllEntries(v), k, snapshot, e)
  {
    hide AllEntries, LevelSorted;
    VersionHas(v, e);
    assert InVersion(v, e);
    forall x | x in AllEntries(v) && Matches(x, k, snapshot) ensures x.seqno <= e.seqno {
      VersionHas(v, x);
      var m :| 0 <= m < |v| && InLevel(v[m], x);
      var j :| 0 <= j < |v[m]| && x in v[m][j].entries;
      if m > level {
        var i :| 0 <= i < |v[level]| && e in v[level][i].entries;
        assert Layered(v[level][i].entries, v[m][j].entries, k);
      }
    }
  }

  lemma NoHit(v: Version, k: UserKey, snapshot: nat)
    requires forall l, i :: 0 <= l < |v| && 0 <= i < |v[l]| ==> NoMatch(v[l][i], k, snapshot)
    ensures Nothing(AllEntries(v), k, snapshot)
  {
    hide AllEntries;
    forall x | x in AllEntries(v) ensures !Matches(x, k, snapshot) {
      VersionHas(v, x);
      var m :| 0 <= m < |v| && InLevel(v[m], x);
      var j :| 0 <= j < |v[m]| && x in v[m][j].entries;
      assert NoMatch(v[m][j], k, snapshot);
    }
  }
}
