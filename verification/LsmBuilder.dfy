/** VersionSet::Builder, and the manifest as a way to rebuild the current version. */
module LsmBuilder {
  import opened Common
  import opened Coding
  import opened LsmEdit

  /** The internal key comparator: any strict weak order. */
  datatype Order = Order(before: (seq<Byte>, seq<Byte>) -> bool)
  {
    ghost predicate Lawful() {
      && (forall a :: !before(a, a))
      && (forall a, b, c :: before(a, b) && before(b, c) ==> before(a, c))
      && (forall a, b, c :: before(a, c) ==> before(a, b) || before(b, c))
    }
  }

  /** BySmallestKey. */
  predicate Less(o: Order, f: FileMeta, g: FileMeta) {
    if o.before(f.smallest, g.smallest) then true
    else if o.before(g.smallest, f.smallest) then false
    else f.number < g.number
  }

  lemma LessLaws(o: Order, f: FileMeta, g: FileMeta, h: FileMeta)
    requires o.Lawful()
    ensures !Less(o, f, f)
    ensures Less(o, f, g) && Less(o, g, h) ==> Less(o, f, h)
    ensures f.number != g.number ==> Less(o, f, g) || Less(o, g, f)
    ensures !(Less(o, f, g) && Less(o, g, f))
  {}

  ghost predicate Sorted(o: Order, fs: seq<FileMeta>) {
    forall i, j :: 0 <= i < j < |fs| ==> Less(o, fs[i], fs[j])
  }

  /** Two sorted lists of the same files are the same list. */
  lemma {:induction false} SortedUnique(o: Order, a: seq<FileMeta>, b: seq<FileMeta>)
    requires o.Lawful() && Sorted(o, a) && Sorted(o, b) && forall f :: f in a <==> f in b
    ensures a == b
    decreases |a|
  {
    if a == [] {
      HasMember(b);
    } else {
      assert a[0] in b;
      assert b[0] in a;
      SameHead(o, a, b);
      forall f ensures f in a[1..] <==> f in b[1..] {
        TailHas(o, a, f);
        TailHas(o, b, f);
      }
      SortedUnique(o, a[1..], b[1..]);
      assert a == [a[0]] + a[1..] && b == [b[0]] + b[1..];
    }
  }

  lemma HasMember(fs: seq<FileMeta>)
    ensures fs != [] ==> exists f :: f in fs
  {
    if fs != [] { assert fs[0] in fs; }
  }

  lemma SameHead(o: Order, a: seq<FileMeta>, b: seq<FileMeta>)
    requires o.Lawful() && Sorted(o, a) && Sorted(o, b) && a != [] && b != [] && a[0] in b && b[0] in a
    ensures a[0] == b[0]
  {
    var i :| 0 <= i < |b| && b[i] == a[0];
    var j :| 0 <= j < |a| && a[j] == b[0];
    LessLaws(o, a[0], b[0], a[0]);
  }

  lemma TailHas(o: Order, a: seq<FileMeta>, f: FileMeta)
    requires o.Lawful() && Sorted(o, a) && a != []
    ensures f in a[1..] <==> f in a && f != a[0]
  {
    LessLaws(o, a[0], a[0], a[0]);
    if f in a && f != a[0] {
      var i :| 0 <= i < |a| && a[i] == f;
      assert a[1..][i - 1] == f;
    }
  }

  // ----- SaveTo -----

  /** The merge of a level's old files with its added ones. */
  function Merge(o: Order, base: seq<FileMeta>, added: seq<FileMeta>): seq<FileMeta>
    decreases |base| + |added|
  {
    if added == [] then base
    else if base != [] && !Less(o, added[0], base[0]) then [base[0]] + Merge(o, base[1..], added)
    else [added[0]] + Merge(o, base, added[1..])
  }

  function Live(fs: seq<FileMeta>, deleted: set<nat>): seq<FileMeta> {
    if fs == [] then []
    else if fs[0].number in deleted then Live(fs[1..], deleted)
    else [fs[0]] + Live(fs[1..], deleted)
  }

  lemma {:induction false} MergeHas(o: Order, base: seq<FileMeta>, added: seq<FileMeta>, f: FileMeta)
    ensures f in Merge(o, base, added) <==> f in base || f in added
    decreases |base| + |added|
  {
    hide Less;
    if added != [] {
      if base != [] && !Less(o, added[0], base[0]) {
        MergeHas(o, base[1..], added, f);
        assert base == [base[0]] + base[1..];
      } else {
        MergeHas(o, base, added[1..], f);
        assert added == [added[0]] + added[1..];
      }
    }
  }

  lemma {:induction false} LiveHas(fs: seq<FileMeta>, deleted: set<nat>, f: FileMeta)
    ensures f in Live(fs, deleted) <==> f in fs && f.number !in deleted
  {
    if fs != [] {
      LiveHas(fs[1..], deleted, f);
      assert fs == [fs[0]] + fs[1..];
    }
  }

  ghost predicate NumbersApart(a: seq<FileMeta>, b: seq<FileMeta>) {
    forall f, g :: f in a && g in b ==> f.number != g.number
  }

  lemma {:induction false} MergeSorted(o: Order, base: seq<FileMeta>, added: seq<FileMeta>)
    requires o.Lawful() && Sorted(o, base) && Sorted(o, added) && NumbersApart(base, added)
    ensures Sorted(o, Merge(o, base, added))
    decreases |base| + |added|
  {
    if added != [] {
      if base != [] && !Less(o, added[0], base[0]) {
        LessLaws(o, base[0], added[0], added[0]);
        assert Less(o, base[0], added[0]);
        MergeSorted(o, base[1..], added);
        HeadFirst(o, base[0], base, added, Merge(o, base[1..], added));
      } else {
        MergeSorted(o, base, added[1..]);
        HeadFirst(o, added[0], added, base, Merge(o, base, added[1..]));
      }
    }
  }

  /** The head of one list comes before everything in the merge of the rest. */
  lemma HeadFirst(o: Order, x: FileMeta, a: seq<FileMeta>, b: seq<FileMeta>, m: seq<FileMeta>)
    requires o.Lawful() && Sorted(o, a) && Sorted(o, b) && Sorted(o, m) && a != [] && x == a[0]
    requires b != [] ==> Less(o, x, b[0])
    requires m == Merge(o, a[1..], b) || m == Merge(o, b, a[1..])
    ensures Sorted(o, [x] + m)
  {
    forall f | f in m ensures Less(o, x, f) {
      MergeHas(o, a[1..], b, f);
      MergeHas(o, b, a[1..], f);
      if f in a[1..] {
        var i :| 0 <= i < |a[1..]| && a[1..][i] == f;
        assert Less(o, a[0], a[i + 1]);
      } else {
        var i :| 0 <= i < |b| && b[i] == f;
        LessLaws(o, x, b[0], f);
      }
    }
  }

  lemma {:induction false} LiveSorted(o: Order, fs: seq<FileMeta>, deleted: set<nat>)
    requires Sorted(o, fs)
    ensures Sorted(o, Live(fs, deleted))
  {
    hide Less;
    if fs != [] {
      LiveSorted(o, fs[1..], deleted);
      if fs[0].number !in deleted {
        forall f | f in Live(fs[1..], deleted) ensures Less(o, fs[0], f) {
          LiveHas(fs[1..], deleted, f);
          var i :| 0 <= i < |fs[1..]| && fs[1..][i] == f;
          assert Less(o, fs[0], fs[i + 1]);
        }
      }
    }
  }

  /** The loops of SaveTo for one level. */
  method SaveLevel(o: Order, base: seq<FileMeta>, added: seq<FileMeta>, deleted: set<nat>) returns (out: seq<FileMeta>)
    ensures out == Live(Merge(o, base, added), deleted)
  {
    hide Less, Live, Merge;
    out := [];
    var b, a := 0, 0;
    assert base[0..] == base && added[0..] == added;
    while a < |added|
      invariant 0 <= a <= |added| && 0 <= b <= |base|
      invariant out + Live(Merge(o, base[b..], added[a..]), deleted) == Live(Merge(o, base, added), deleted)
    {
      while b < |base| && !Less(o, added[a], base[b])
        invariant 0 <= b <= |base|
        invariant out + Live(Merge(o, base[b..], added[a..]), deleted) == Live(Merge(o, base, added), deleted)
      {
        TakesBase(o, base, added, b, a);
        LiveStep(base[b], Merge(o, base[b + 1..], added[a..]), deleted, out);
        if base[b].number !in deleted { out := out + [base[b]]; }
        b := b + 1;
      }
      TakesAdded(o, base, added, b, a);
      LiveStep(added[a], Merge(o, base[b..], added[a + 1..]), deleted, out);
      if added[a].number !in deleted { out := out + [added[a]]; }
      a := a + 1;
    }
    NothingLeft(o, base, added, b, a, deleted);
    while b < |base|
      invariant 0 <= b <= |base|
      invariant out + Live(base[b..], deleted) == Live(Merge(o, base, added), deleted)
    {
      assert base[b..] == [base[b]] + base[b + 1..];
      LiveStep(base[b], base[b + 1..], deleted, out);
      if base[b].number !in deleted { out := out + [base[b]]; }
      b := b + 1;
    }
    NothingLeft(o, base, added, b, a, deleted);
  }

  lemma NothingLeft(o: Order, base: seq<FileMeta>, added: seq<FileMeta>, b: nat, a: nat, deleted: set<nat>)
    requires b <= |base| && a == |added|
    ensures Merge(o, base[b..], added[a..]) == base[b..] && (b == |base| ==> Live(base[b..], deleted) == [])
  {}

  lemma TakesBase(o: Order, base: seq<FileMeta>, added: seq<FileMeta>, b: nat, a: nat)
    requires b < |base| && a < |added| && !Less(o, added[a], base[b])
    ensures Merge(o, base[b..], added[a..]) == [base[b]] + Merge(o, base[b + 1..], added[a..])
  {
    assert base[b..][1..] == base[b + 1..];
  }

  lemma TakesAdded(o: Order, base: seq<FileMeta>, added: seq<FileMeta>, b: nat, a: nat)
    requires b <= |base| && a < |added| && (b < |base| ==> Less(o, added[a], base[b]))
    ensures Merge(o, base[b..], added[a..]) == [added[a]] + Merge(o, base[b..], added[a + 1..])
  {
    assert added[a..][1..] == added[a + 1..];
  }

  /** MaybeAddFile: one more file, unless it is deleted. */
  lemma LiveStep(f: FileMeta, rest: seq<FileMeta>, deleted: set<nat>, out: seq<FileMeta>)
    ensures out + Live([f] + rest, deleted) == (if f.number in deleted then out else out + [f]) + Live(rest, deleted)
  {
    assert ([f] + rest)[1..] == rest;
  }

  // ----- Apply -----

  /** Per level: numbers to drop, and files to add in set order. */
  datatype Pending = Pending(deleted: seq<set<nat>>, added: seq<seq<FileMeta>>)

  predicate PendingOk(p: Pending) { |p.deleted| == NUM_LEVELS && |p.added| == NUM_LEVELS }

  function NothingPending(): (p: Pending)
    ensures PendingOk(p)
  {
    Pending(seq(NUM_LEVELS, _ => {}), seq(NUM_LEVELS, _ => []))
  }

  /** Insertion into the ordered set of added files; an equivalent file is not replaced. */
  function InsertFile(o: Order, fs: seq<FileMeta>, f: FileMeta): seq<FileMeta> {
    if fs == [] then [f]
    else
      var g := fs[|fs| - 1];
      if Less(o, g, f) then fs + [f]
      else if Less(o, f, g) then InsertFile(o, fs[..|fs| - 1], f) + [g]
      else fs
  }

  function DeleteOne(p: Pending, d: (nat, nat)): (p': Pending)
    requires PendingOk(p) && d.0 < NUM_LEVELS
    ensures PendingOk(p')
  {
    p.(deleted := p.deleted[d.0 := p.deleted[d.0] + {d.1}])
  }

  function AddOne(o: Order, p: Pending, x: (nat, FileMeta)): (p': Pending)
    requires PendingOk(p) && x.0 < NUM_LEVELS
    ensures PendingOk(p')
  {
    Pending(p.deleted[x.0 := p.deleted[x.0] - {x.1.number}], p.added[x.0 := InsertFile(o, p.added[x.0], x.1)])
  }

  function DeleteAll(p: Pending, ds: seq<(nat, nat)>): (p': Pending)
    requires PendingOk(p) && forall i :: 0 <= i < |ds| ==> ds[i].0 < NUM_LEVELS
    ensures PendingOk(p')
  {
    if ds == [] then p else DeleteOne(DeleteAll(p, ds[..|ds| - 1]), ds[|ds| - 1])
  }

  function AddAll(o: Order, p: Pending, xs: seq<(nat, FileMeta)>): (p': Pending)
    requires PendingOk(p) && forall i :: 0 <= i < |xs| ==> xs[i].0 < NUM_LEVELS
    ensures PendingOk(p')
  {
    if xs == [] then p else AddOne(o, AddAll(o, p, xs[..|xs| - 1]), xs[|xs| - 1])
  }

  ghost predicate LevelsOk(e: Edit) {
    && (forall i :: 0 <= i < |e.deleted| ==> e.deleted[i].0 < NUM_LEVELS)
    && (forall i :: 0 <= i < |e.newFiles| ==> e.newFiles[i].0 < NUM_LEVELS)
  }

  ghost function Apply(o: Order, p: Pending, e: Edit): (p': Pending)
    requires PendingOk(p) && LevelsOk(e)
    ensures PendingOk(p')
  {
    AddAll(o, DeleteAll(p, e.deleted), e.newFiles)
  }

  type Levels = seq<seq<FileMeta>>

  ghost function Save(o: Order, base: Levels, p: Pending): (v: Levels)
    requires PendingOk(p) && |base| == NUM_LEVELS
    ensures |v| == NUM_LEVELS
  {
    seq(NUM_LEVELS, l requires 0 <= l < NUM_LEVELS => Live(Merge(o, base[l], p.added[l]), p.deleted[l]))
  }

  class Builder {
    const o: Order
    const base: Levels
    var pending: Pending

    constructor (order: Order, files: Levels)
      ensures o == order && base == files && pending == NothingPending() && LevelsInKeyOrder(order, pending.added)
    {
      o, base, pending := order, files, NothingPending();
    }

    method ApplyEdit(e: Edit)
      requires PendingOk(pending) && LevelsOk(e)
      modifies this
      ensures PendingOk(pending) && pending == Apply(o, old(pending), e)
      ensures o.Lawful() && LevelsInKeyOrder(o, old(pending.added)) ==> LevelsInKeyOrder(o, pending.added)
    {
      if o.Lawful() && LevelsInKeyOrder(o, pending.added) { ApplyInKeyOrder(o, pending, e); }
      var i := 0;
      ghost var p0 := pending;
      assert e.deleted[..0] == [];
      while i < |e.deleted|
        invariant 0 <= i <= |e.deleted| && PendingOk(pending) && pending == DeleteAll(p0, e.deleted[..i])
      {
        assert e.deleted[..i + 1][..i] == e.deleted[..i];
        var (level, number) := e.deleted[i];
        pending := pending.(deleted := pending.deleted[level := pending.deleted[level] + {number}]);
        i := i + 1;
      }
      assert e.deleted[..i] == e.deleted;
      ghost var p1 := pending;
      i := 0;
      assert e.newFiles[..0] == [];
      while i < |e.newFiles|
        invariant 0 <= i <= |e.newFiles| && PendingOk(pending) && pending == AddAll(o, p1, e.newFiles[..i])
      {
        assert e.newFiles[..i + 1][..i] == e.newFiles[..i];
        var (level, f) := e.newFiles[i];
        pending := Pending(pending.deleted[level := pending.deleted[level] - {f.number}],
                           pending.added[level := InsertFile(o, pending.added[level], f)]);
        i := i + 1;
      }
      assert e.newFiles[..i] == e.newFiles;
    }

    method SaveTo() returns (v: Levels)
      requires PendingOk(pending) && |base| == NUM_LEVELS
      ensures v == Save(o, base, pending)
      ensures o.Lawful() && LevelsInKeyOrder(o, base) && LevelsInKeyOrder(o, pending.added) ==> LevelsInKeyOrder(o, v)
    {
      if o.Lawful() && LevelsInKeyOrder(o, base) && LevelsInKeyOrder(o, pending.added) { SavedInKeyOrder(o, base, pending); }
      v := [];
      var l := 0;
      while l < NUM_LEVELS
        invariant 0 <= l <= NUM_LEVELS && |v| == l && forall m :: 0 <= m < l ==> v[m] == Save(o, base, pending)[m]
      {
        var files := SaveLevel(o, base[l], pending.added[l], pending.deleted[l]);
        v := v + [files];
        l := l + 1;
      }
    }
  }

  // ----- Key order -----

  /** f may stand before g: its smallest key is not after g's, and equal keys go by number. */
  predicate NotAfter(o: Order, f: FileMeta, g: FileMeta) {
    !o.before(g.smallest, f.smallest) && (!o.before(f.smallest, g.smallest) ==> f.number <= g.number)
  }

  /** Smallest keys ascend along the list. */
  ghost predicate InKeyOrder(o: Order, fs: seq<FileMeta>) {
    forall i, j :: 0 <= i < j < |fs| ==> NotAfter(o, fs[i], fs[j])
  }

  lemma NotAfterLaws(o: Order, f: FileMeta, g: FileMeta, h: FileMeta)
    requires o.Lawful()
    ensures NotAfter(o, f, g) && NotAfter(o, g, h) ==> NotAfter(o, f, h)
    ensures if Less(o, f, g) then NotAfter(o, f, g) else NotAfter(o, g, f)
  {}

  /** A list headed by a file that may stand before all the others. */
  lemma HeadedOrder(o: Order, f: FileMeta, fs: seq<FileMeta>)
    requires InKeyOrder(o, fs) && forall g :: g in fs ==> NotAfter(o, f, g)
    ensures InKeyOrder(o, [f] + fs)
  {}

  lemma TailOrder(o: Order, fs: seq<FileMeta>, h: FileMeta)
    requires o.Lawful() && InKeyOrder(o, fs) && fs != [] && NotAfter(o, h, fs[0])
    ensures InKeyOrder(o, fs[1..]) && forall g :: g in fs ==> NotAfter(o, h, g)
    ensures forall g :: g in fs[1..] ==> NotAfter(o, fs[0], g)
  {
    hide NotAfter;
    forall g | g in fs ensures NotAfter(o, h, g) {
      var i :| 0 <= i < |fs| && fs[i] == g;
      if i > 0 { assert NotAfter(o, fs[0], fs[i]); }
      NotAfterLaws(o, h, fs[0], g);
    }
  }

  lemma SelfOrder(o: Order, f: FileMeta)
    requires o.Lawful()
    ensures NotAfter(o, f, f)
  {}

  lemma {:induction false} MergeInKeyOrder(o: Order, base: seq<FileMeta>, added: seq<FileMeta>)
    requires o.Lawful() && InKeyOrder(o, base) && InKeyOrder(o, added)
    ensures InKeyOrder(o, Merge(o, base, added))
    decreases |base| + |added|
  {
    hide Less, NotAfter, InKeyOrder;
    if added != [] {
      var a := added[0];
      if base != [] { NotAfterLaws(o, a, base[0], a); }
      if base != [] && !Less(o, a, base[0]) {
        var b := base[0];
        SelfOrder(o, b);
        TailOrder(o, base, b);
        TailOrder(o, added, b);
        MergeInKeyOrder(o, base[1..], added);
        forall g | g in Merge(o, base[1..], added) ensures NotAfter(o, b, g) { MergeHas(o, base[1..], added, g); }
        HeadedOrder(o, b, Merge(o, base[1..], added));
      } else {
        SelfOrder(o, a);
        TailOrder(o, added, a);
        if base != [] { TailOrder(o, base, a); }
        MergeInKeyOrder(o, base, added[1..]);
        forall g | g in Merge(o, base, added[1..]) ensures NotAfter(o, a, g) { MergeHas(o, base, added[1..], g); }
        HeadedOrder(o, a, Merge(o, base, added[1..]));
      }
    }
  }

  lemma {:induction false} LiveInKeyOrder(o: Order, fs: seq<FileMeta>, deleted: set<nat>)
    requires o.Lawful() && InKeyOrder(o, fs)
    ensures InKeyOrder(o, Live(fs, deleted))
  {
    hide NotAfter;
    if fs != [] {
      SelfOrder(o, fs[0]);
      TailOrder(o, fs, fs[0]);
      LiveInKeyOrder(o, fs[1..], deleted);
      forall g | g in Live(fs[1..], deleted) ensures NotAfter(o, fs[0], g) { LiveHas(fs[1..], deleted, g); }
      HeadedOrder(o, fs[0], Live(fs[1..], deleted));
    }
  }

  lemma {:induction false} InsertInKeyOrder(o: Order, fs: seq<FileMeta>, f: FileMeta)
    requires o.Lawful() && InKeyOrder(o, fs)
    ensures InKeyOrder(o, InsertFile(o, fs, f)) && forall g :: g in InsertFile(o, fs, f) ==> g in fs || g == f
  {
    hide NotAfter, Less;
    if fs != [] {
      var rest, g := fs[..|fs| - 1], fs[|fs| - 1];
      assert fs == rest + [g];
      NotAfterLaws(o, g, f, f);
      NotAfterLaws(o, f, g, f);
      if Less(o, g, f) {
        forall h | h in fs ensures NotAfter(o, h, f) {
          var i :| 0 <= i < |fs| && fs[i] == h;
          if i < |rest| { assert NotAfter(o, fs[i], fs[|fs| - 1]); }
          NotAfterLaws(o, h, g, f);
        }
      } else if Less(o, f, g) {
        InsertInKeyOrder(o, rest, f);
        forall h | h in InsertFile(o, rest, f) ensures NotAfter(o, h, g) {
          if h in rest {
            var i :| 0 <= i < |rest| && rest[i] == h;
            assert NotAfter(o, fs[i], fs[|fs| - 1]);
          }
        }
      }
    }
  }

  ghost predicate LevelsInKeyOrder(o: Order, v: Levels) {
    forall l :: 0 <= l < |v| ==> InKeyOrder(o, v[l])
  }

  lemma {:induction false} AddAllInKeyOrder(o: Order, p: Pending, xs: seq<(nat, FileMeta)>)
    requires o.Lawful() && PendingOk(p) && LevelsInKeyOrder(o, p.added) && forall i :: 0 <= i < |xs| ==> xs[i].0 < NUM_LEVELS
    ensures LevelsInKeyOrder(o, AddAll(o, p, xs).added)
  {
    hide InKeyOrder, InsertFile;
    if xs != [] {
      var rest, x := xs[..|xs| - 1], xs[|xs| - 1];
      AddAllInKeyOrder(o, p, rest);
      InsertInKeyOrder(o, AddAll(o, p, rest).added[x.0], x.1);
    }
  }

  lemma ApplyInKeyOrder(o: Order, p: Pending, e: Edit)
    requires o.Lawful() && PendingOk(p) && LevelsOk(e) && LevelsInKeyOrder(o, p.added)
    ensures LevelsInKeyOrder(o, Apply(o, p, e).added)
  {
    hide InKeyOrder, LevelsInKeyOrder;
    DeletingAddsNothing(p, e.deleted);
    AddAllInKeyOrder(o, DeleteAll(p, e.deleted), e.newFiles);
  }

  lemma {:induction false} DeletingAddsNothing(p: Pending, ds: seq<(nat, nat)>)
    requires PendingOk(p) && forall i :: 0 <= i < |ds| ==> ds[i].0 < NUM_LEVELS
    ensures DeleteAll(p, ds).added == p.added
  {
    if ds != [] { DeletingAddsNothing(p, ds[..|ds| - 1]); }
  }

  /** Whatever the edits, every level of the new version is in key order if the base was. */
  lemma SavedInKeyOrder(o: Order, base: Levels, p: Pending)
    requires o.Lawful() && PendingOk(p) && |base| == NUM_LEVELS && LevelsInKeyOrder(o, base) && LevelsInKeyOrder(o, p.added)
    ensures LevelsInKeyOrder(o, Save(o, base, p))
  {
    hide InKeyOrder, Merge, Live;
    forall l | 0 <= l < NUM_LEVELS ensures InKeyOrder(o, Save(o, base, p)[l]) {
      MergeInKeyOrder(o, base[l], p.added[l]);
      LiveInKeyOrder(o, Merge(o, base[l], p.added[l]), p.deleted[l]);
    }
  }

  // ----- One level of an edit -----

  function DeletedAt(ds: seq<(nat, nat)>, l: nat): set<nat> {
    set i | 0 <= i < |ds| && ds[i].0 == l :: ds[i].1
  }

  /** The files an edit adds at a level. */
  function AddedAt(xs: seq<(nat, FileMeta)>, l: nat): set<FileMeta> {
    set i | 0 <= i < |xs| && xs[i].0 == l :: xs[i].1
  }

  function Numbers(fs: set<FileMeta>): set<nat> {
    set f | f in fs :: f.number
  }

  lemma {:induction false} DeleteAllAt(p: Pending, ds: seq<(nat, nat)>, l: nat)
    requires PendingOk(p) && l < NUM_LEVELS && forall i :: 0 <= i < |ds| ==> ds[i].0 < NUM_LEVELS
    ensures DeleteAll(p, ds).deleted[l] == p.deleted[l] + DeletedAt(ds, l) && DeleteAll(p, ds).added == p.added
  {
    if ds == [] {
      assert DeletedAt(ds, l) == {};
    } else {
      var rest, d := ds[..|ds| - 1], ds[|ds| - 1];
      DeleteAllAt(p, rest, l);
      DeletedSnoc(ds, l);
    }
  }

  lemma DeletedSnoc(ds: seq<(nat, nat)>, l: nat)
    requires ds != []
    ensures var rest, d := ds[..|ds| - 1], ds[|ds| - 1];
            DeletedAt(ds, l) == DeletedAt(rest, l) + (if d.0 == l then {d.1} else {})
  {
    var rest, d := ds[..|ds| - 1], ds[|ds| - 1];
    forall n ensures n in DeletedAt(ds, l) <==> n in DeletedAt(rest, l) + (if d.0 == l then {d.1} else {}) {
      if n in DeletedAt(ds, l) {
        var i :| 0 <= i < |ds| && ds[i].0 == l && ds[i].1 == n;
        if i < |rest| { assert rest[i] == ds[i]; }
      }
      if n in DeletedAt(rest, l) {
        var i :| 0 <= i < |rest| && rest[i].0 == l && rest[i].1 == n;
        assert ds[i] == rest[i];
      }
    }
  }

  lemma AddedSnoc(xs: seq<(nat, FileMeta)>, l: nat)
    requires xs != []
    ensures var rest, x := xs[..|xs| - 1], xs[|xs| - 1];
            AddedAt(xs, l) == AddedAt(rest, l) + (if x.0 == l then {x.1} else {})
  {
    var rest, x := xs[..|xs| - 1], xs[|xs| - 1];
    forall n ensures n in AddedAt(xs, l) <==> n in AddedAt(rest, l) + (if x.0 == l then {x.1} else {}) {
      if n in AddedAt(xs, l) {
        var i :| 0 <= i < |xs| && xs[i].0 == l && xs[i].1 == n;
        if i < |rest| { assert rest[i] == xs[i]; }
      }
      if n in AddedAt(rest, l) {
        var i :| 0 <= i < |rest| && rest[i].0 == l && rest[i].1 == n;
        assert xs[i] == rest[i];
      }
    }
  }

  ghost predicate NumbersDistinct(fs: seq<FileMeta>) {
    forall i, j :: 0 <= i < j < |fs| ==> fs[i].number != fs[j].number
  }

  lemma {:induction false} InsertFileOk(o: Order, fs: seq<FileMeta>, f: FileMeta)
    requires o.Lawful() && Sorted(o, fs) && forall g :: g in fs ==> g.number != f.number
    ensures Sorted(o, InsertFile(o, fs, f))
    ensures forall g :: g in InsertFile(o, fs, f) <==> g in fs || g == f
  {
    if fs != [] {
      var rest, g := fs[..|fs| - 1], fs[|fs| - 1];
      assert fs == rest + [g];
      LessLaws(o, f, g, f);
      assert g in fs;
      if Less(o, g, f) {
        forall h | h in fs ensures Less(o, h, f) {
          LessLaws(o, h, g, f);
        }
      } else {
        InsertFileOk(o, rest, f);
        forall h | h in InsertFile(o, rest, f) ensures Less(o, h, g) {
          if h in rest {
            var i :| 0 <= i < |rest| && rest[i] == h;
            assert Less(o, fs[i], fs[|fs| - 1]);
          }
        }
      }
    }
  }

  /** New files at a level carry numbers that are new there. */
  ghost predicate FreshAt(xs: seq<(nat, FileMeta)>, l: nat, taken: set<nat>) {
    && (forall i :: 0 <= i < |xs| && xs[i].0 == l ==> xs[i].1.number !in taken)
    && (forall i, j :: 0 <= i < j < |xs| && xs[i].0 == l && xs[j].0 == l ==> xs[i].1.number != xs[j].1.number)
  }

  function AsSet(fs: seq<FileMeta>): set<FileMeta> { set f | f in fs }

  lemma {:induction false} AddAllAt(o: Order, p: Pending, xs: seq<(nat, FileMeta)>, l: nat)
    requires PendingOk(p) && l < NUM_LEVELS && forall i :: 0 <= i < |xs| ==> xs[i].0 < NUM_LEVELS
    requires o.Lawful() && Sorted(o, p.added[l]) && FreshAt(xs, l, Numbers(AsSet(p.added[l])))
    ensures var p' := AddAll(o, p, xs);
            && Sorted(o, p'.added[l]) && AsSet(p'.added[l]) == AsSet(p.added[l]) + AddedAt(xs, l)
            && p'.deleted[l] == p.deleted[l] - Numbers(AddedAt(xs, l))
  {
    hide InsertFile, Sorted;
    if xs == [] {
      assert AddedAt(xs, l) == {};
    } else {
      var rest, x := xs[..|xs| - 1], xs[|xs| - 1];
      AddAllAt(o, p, rest, l);
      AddedSnoc(xs, l);
      var q := AddAll(o, p, rest);
      if x.0 == l {
        forall g | g in q.added[l] ensures g.number != x.1.number {
          assert g in AsSet(q.added[l]);
          if g in AddedAt(rest, l) {
            var i :| 0 <= i < |rest| && rest[i].0 == l && rest[i].1 == g;
            assert xs[i] == rest[i];
          } else {
            assert g.number in Numbers(AsSet(p.added[l]));
          }
        }
        InsertFileOk(o, q.added[l], x.1);
        NumbersAdd(AddedAt(rest, l), x.1);
      }
    }
  }

  lemma NumbersAdd(fs: set<FileMeta>, f: FileMeta)
    ensures Numbers(fs + {f}) == Numbers(fs) + {f.number}
  {
    forall n ensures n in Numbers(fs + {f}) <==> n in Numbers(fs) + {f.number} {
      if n in Numbers(fs) {
        var g :| g in fs && g.number == n;
        assert g in fs + {f};
      }
      assert f in fs + {f};
    }
  }

  // ----- Replay -----

  function NoFiles(): (v: Levels)
    ensures |v| == NUM_LEVELS
  {
    seq(NUM_LEVELS, _ => [])
  }

  /** LogAndApply: the next version. */
  ghost function NextVersion(o: Order, v: Levels, e: Edit): (v': Levels)
    requires |v| == NUM_LEVELS && LevelsOk(e)
    ensures |v'| == NUM_LEVELS
  {
    Save(o, v, Apply(o, NothingPending(), e))
  }

  ghost predicate AllLevelsOk(es: seq<Edit>) {
    forall i :: 0 <= i < |es| ==> LevelsOk(es[i])
  }

  /** The version after a run of LogAndApply calls. */
  ghost function Current(o: Order, v0: Levels, es: seq<Edit>): (v: Levels)
    requires |v0| == NUM_LEVELS && AllLevelsOk(es)
    ensures |v| == NUM_LEVELS
  {
    if es == [] then v0 else NextVersion(o, Current(o, v0, es[..|es| - 1]), es[|es| - 1])
  }

  /** What one Builder holds after all the edits. */
  ghost function Replayed(o: Order, es: seq<Edit>): (p: Pending)
    requires AllLevelsOk(es)
    ensures PendingOk(p)
  {
    if es == [] then NothingPending() else Apply(o, Replayed(o, es[..|es| - 1]), es[|es| - 1])
  }

  function LevelFiles(l: nat, fs: seq<FileMeta>): seq<(nat, FileMeta)> {
    seq(|fs|, i requires 0 <= i < |fs| => (l, fs[i]))
  }

  /** WriteSnapshot: every file of the version, as additions. */
  function SnapshotFiles(v: Levels, n: nat): seq<(nat, FileMeta)>
    requires n <= |v|
  {
    if n == 0 then [] else SnapshotFiles(v, n - 1) + LevelFiles(n - 1, v[n - 1])
  }

  /** Numbers that level l has held at some time. */
  ghost function EverHeld(v0: Levels, es: seq<Edit>, l: nat): set<nat>
    requires l < |v0|
  {
    if es == [] then Numbers(AsSet(v0[l]))
    else EverHeld(v0, es[..|es| - 1], l) + Numbers(AddedAt(es[|es| - 1].newFiles, l))
  }

  /** No file is added at a level that has held it before. */
  ghost predicate NoReAdd(v0: Levels, es: seq<Edit>, l: nat)
    requires l < |v0|
  {
    forall i :: 0 <= i < |es| ==> FreshAt(es[i].newFiles, l, EverHeld(v0, es[..i], l))
  }

  ghost predicate VersionOk(o: Order, v: Levels) {
    |v| == NUM_LEVELS && forall l :: 0 <= l < NUM_LEVELS ==> Sorted(o, v[l]) && NumbersDistinct(v[l])
  }

  /** One level of the two ways to apply the same edits. */
  ghost predicate Agree(o: Order, v: seq<FileMeta>, added: seq<FileMeta>, deleted: set<nat>, held: set<nat>) {
    && Sorted(o, v) && Sorted(o, added) && OnePerNumber(added) && Numbers(AsSet(added)) == held
    && forall f :: f in v <==> f in added && f.number !in deleted
  }

  ghost predicate OnePerNumber(fs: seq<FileMeta>) {
    forall f, g :: f in fs && g in fs && f.number == g.number ==> f == g
  }

  lemma AgreeStep(o: Order, v: seq<FileMeta>, added: seq<FileMeta>, deleted: set<nat>, held: set<nat>,
                  a: seq<FileMeta>, adds: set<FileMeta>, dels: set<nat>, added': seq<FileMeta>)
    requires o.Lawful() && Agree(o, v, added, deleted, held)
    requires Sorted(o, a) && AsSet(a) == adds && Sorted(o, added') && AsSet(added') == AsSet(added) + adds
    requires forall f :: f in adds ==> f.number !in held
    requires forall f, g :: f in adds && g in adds && f.number == g.number ==> f == g
    ensures Agree(o, Live(Merge(o, v, a), dels - Numbers(adds)), added', (deleted + dels) - Numbers(adds), held + Numbers(adds))
  {
    hide Less;
    forall f, g | f in v && g in a ensures f.number != g.number {
      assert f in AsSet(added) && g in AsSet(a);
      assert f.number in Numbers(AsSet(added));
    }
    MergeSorted(o, v, a);
    var m, gone := Merge(o, v, a), dels - Numbers(adds);
    LiveSorted(o, m, gone);
    hide Sorted, Merge, Live;
    forall f ensures f in Live(m, gone) <==> f in added' && f.number !in (deleted + dels) - Numbers(adds) {
      LiveHas(m, gone, f);
      MergeHas(o, v, a, f);
      assert f in a <==> f in AsSet(a);
      assert f in added <==> f in AsSet(added);
      assert f in added' <==> f in AsSet(added');
      if f in adds { assert f.number in Numbers(adds); }
      if f in added {
        assert f.number in Numbers(AsSet(added));
        NotBoth(adds, held, f.number);
      }
    }
    NumbersUnion(AsSet(added), adds);
    OnePerNumberAdds(added, adds, added', held);
  }

  lemma OnePerNumberAdds(added: seq<FileMeta>, adds: set<FileMeta>, added': seq<FileMeta>, held: set<nat>)
    requires OnePerNumber(added) && Numbers(AsSet(added)) == held && AsSet(added') == AsSet(added) + adds
    requires forall f :: f in adds ==> f.number !in held
    requires forall f, g :: f in adds && g in adds && f.number == g.number ==> f == g
    ensures OnePerNumber(added')
  {
    forall f, g | f in added' && g in added' && f.number == g.number ensures f == g {
      assert f in AsSet(added') && g in AsSet(added');
      assert f in AsSet(added) ==> f.number in Numbers(AsSet(added));
      assert g in AsSet(added) ==> g.number in Numbers(AsSet(added));
    }
  }

  lemma NotBoth(adds: set<FileMeta>, held: set<nat>, n: nat)
    requires (forall f :: f in adds ==> f.number !in held) && n in held
    ensures n !in Numbers(adds)
  {}

  lemma NumbersUnion(a: set<FileMeta>, b: set<FileMeta>)
    ensures Numbers(a + b) == Numbers(a) + Numbers(b)
  {
    forall n ensures n in Numbers(a + b) <==> n in Numbers(a) + Numbers(b) {
      if n in Numbers(a) {
        var f :| f in a && f.number == n;
        assert f in a + b;
      }
      if n in Numbers(b) {
        var f :| f in b && f.number == n;
        assert f in a + b;
      }
    }
  }

  // ----- The snapshot record -----

  ghost function Snapshot(v: Levels, name: seq<Byte>, pointers: seq<(nat, seq<Byte>)>): Edit
    requires |v| == NUM_LEVELS
  {
    EMPTY.(comparator := Some(name), compactPointers := pointers, newFiles := SnapshotFiles(v, NUM_LEVELS))
  }

  lemma AddedAppend(a: seq<(nat, FileMeta)>, b: seq<(nat, FileMeta)>, l: nat)
    ensures AddedAt(a + b, l) == AddedAt(a, l) + AddedAt(b, l)
  {
    forall f ensures f in AddedAt(a + b, l) <==> f in AddedAt(a, l) + AddedAt(b, l) {
      if f in AddedAt(a + b, l) {
        var i :| 0 <= i < |a + b| && (a + b)[i].0 == l && (a + b)[i].1 == f;
        assert i < |a| || b[i - |a|] == (a + b)[i];
      }
      if f in AddedAt(a, l) {
        var i :| 0 <= i < |a| && a[i].0 == l && a[i].1 == f;
        assert (a + b)[i] == a[i];
      }
      if f in AddedAt(b, l) {
        var i :| 0 <= i < |b| && b[i].0 == l && b[i].1 == f;
        assert (a + b)[|a| + i] == b[i];
      }
    }
  }

  lemma LevelFilesAt(m: nat, fs: seq<FileMeta>, l: nat)
    ensures AddedAt(LevelFiles(m, fs), l) == if m == l then AsSet(fs) else {}
  {
    var xs := LevelFiles(m, fs);
    if m == l {
      forall f ensures f in AddedAt(xs, l) <==> f in AsSet(fs) {
        if f in fs {
          var i :| 0 <= i < |fs| && fs[i] == f;
          assert xs[i] == (l, f);
        }
      }
    }
  }

  lemma {:induction false} SnapshotAt(v: Levels, n: nat, l: nat)
    requires n <= |v| && l < |v| && NumbersDistinct(v[l])
    ensures var xs := SnapshotFiles(v, n);
            && (forall i :: 0 <= i < |xs| ==> xs[i].0 < n)
            && AddedAt(xs, l) == (if l < n then AsSet(v[l]) else {}) && FreshAt(xs, l, {})
  {
    if n == 0 {
      assert AddedAt([], l) == {};
    } else {
      SnapshotAt(v, n - 1, l);
      AddedAppend(SnapshotFiles(v, n - 1), LevelFiles(n - 1, v[n - 1]), l);
      LevelFilesAt(n - 1, v[n - 1], l);
    }
  }

  lemma EmptySets(o: Order)
    ensures Numbers({}) == {} && AsSet([]) == {} && Sorted(o, [])
  {}

  /** Both ways agree on every level, whatever the edits. */
  lemma {:induction false} ReplayAgrees(o: Order, v0: Levels, snap: Edit, es: seq<Edit>, l: nat)
    requires o.Lawful() && VersionOk(o, v0) && l < NUM_LEVELS && NoReAdd(v0, es, l)
    requires AllLevelsOk(es) && AllLevelsOk([snap] + es) && snap.deleted == [] && snap.newFiles == SnapshotFiles(v0, NUM_LEVELS)
    ensures var p := Replayed(o, [snap] + es);
            Agree(o, Current(o, v0, es)[l], p.added[l], p.deleted[l], EverHeld(v0, es, l))
    decreases |es|
  {
    hide Agree, Sorted, NoReAdd, SnapshotFiles, NextVersion, Apply;
    if es == [] {
      assert [snap] + es == [snap];
      ReplayStart(o, v0, snap, l);
    } else {
      var rest, e := es[..|es| - 1], es[|es| - 1];
      FewerEdits(o, v0, snap, es, l);
      ReplayAgrees(o, v0, snap, rest, l);
      ReplayStep(o, Current(o, v0, rest), Replayed(o, [snap] + rest), e, l, EverHeld(v0, rest, l));
    }
  }

  lemma FewerEdits(o: Order, v0: Levels, snap: Edit, es: seq<Edit>, l: nat)
    requires es != [] && l < |v0| && NoReAdd(v0, es, l) && AllLevelsOk(es) && AllLevelsOk([snap] + es)
    ensures var rest, e := es[..|es| - 1], es[|es| - 1];
            && AllLevelsOk(rest) && AllLevelsOk([snap] + rest) && LevelsOk(e) && NoReAdd(v0, rest, l)
            && ([snap] + es)[..|es|] == [snap] + rest && ([snap] + es)[|es|] == e
            && FreshAt(e.newFiles, l, EverHeld(v0, rest, l))
  {
    hide LevelsOk, FreshAt, EverHeld;
    var rest, e := es[..|es| - 1], es[|es| - 1];
    assert ([snap] + es)[..|es|] == [snap] + rest;
    forall i | 0 <= i < |[snap] + rest| ensures LevelsOk(([snap] + rest)[i]) { assert ([snap] + rest)[i] == ([snap] + es)[i]; }
    forall i | 0 <= i < |rest| ensures FreshAt(rest[i].newFiles, l, EverHeld(v0, rest[..i], l)) {
      assert rest[..i] == es[..i] && rest[i] == es[i];
    }
    assert FreshAt(es[|es| - 1].newFiles, l, EverHeld(v0, es[..|es| - 1], l));
  }

  lemma ReplayStart(o: Order, v0: Levels, snap: Edit, l: nat)
    requires o.Lawful() && VersionOk(o, v0) && l < NUM_LEVELS
    requires AllLevelsOk([snap]) && snap.deleted == [] && snap.newFiles == SnapshotFiles(v0, NUM_LEVELS)
    ensures var p := Replayed(o, [snap]);
            Agree(o, v0[l], p.added[l], p.deleted[l], EverHeld(v0, [], l))
  {
    assert [snap][..0] == [] && LevelsOk([snap][0]);
    SnapshotAt(v0, NUM_LEVELS, l);
    EmptySets(o);
    var q := NothingPending();
    AddAllAt(o, q, snap.newFiles, l);
    hide AddAll, SnapshotFiles;
    var p := AddAll(o, q, snap.newFiles);
    assert Replayed(o, [snap]) == p;
    SameSetSameList(o, v0[l], p.added[l]);
    assert OnePerNumber(v0[l]) by {
      forall f, g | f in v0[l] && g in v0[l] && f.number == g.number ensures f == g {
        var i :| 0 <= i < |v0[l]| && v0[l][i] == f;
        var j :| 0 <= j < |v0[l]| && v0[l][j] == g;
      }
    }
  }

  lemma SameSetSameList(o: Order, a: seq<FileMeta>, b: seq<FileMeta>)
    requires o.Lawful() && Sorted(o, a) && Sorted(o, b) && AsSet(b) == {} + AsSet(a)
    ensures a == b
  {
    forall f ensures f in a <==> f in b {
      assert f in AsSet(a) <==> f in AsSet(b);
    }
    SortedUnique(o, a, b);
  }

  lemma ReplayStep(o: Order, v: Levels, p: Pending, e: Edit, l: nat, held: set<nat>)
    requires o.Lawful() && |v| == NUM_LEVELS && PendingOk(p) && LevelsOk(e) && l < NUM_LEVELS
    requires Agree(o, v[l], p.added[l], p.deleted[l], held) && FreshAt(e.newFiles, l, held)
    ensures var p' := Apply(o, p, e);
            Agree(o, NextVersion(o, v, e)[l], p'.added[l], p'.deleted[l], held + Numbers(AddedAt(e.newFiles, l)))
  {
    var adds, dels := AddedAt(e.newFiles, l), DeletedAt(e.deleted, l);
    var q := NothingPending();
    assert Sorted(o, p.added[l]) && Numbers(AsSet(p.added[l])) == held;
    EmptySets(o);
    DeleteAllAt(p, e.deleted, l);
    DeleteAllAt(q, e.deleted, l);
    var pd, qd := DeleteAll(p, e.deleted), DeleteAll(q, e.deleted);
    assert FreshAt(e.newFiles, l, {});
    AddAllAt(o, pd, e.newFiles, l);
    AddAllAt(o, qd, e.newFiles, l);
    hide DeleteAll, AddAll, Sorted, Live, Merge;
    var pa, qa := AddAll(o, pd, e.newFiles), AddAll(o, qd, e.newFiles);
    assert AsSet(qa.added[l]) == {} + adds == adds;
    assert qa.deleted[l] == ({} + dels) - Numbers(adds) == dels - Numbers(adds);
    forall f | f in adds ensures f.number !in held {
      var i :| 0 <= i < |e.newFiles| && e.newFiles[i].0 == l && e.newFiles[i].1 == f;
    }
    FreshOnePer(e.newFiles, l, held);
    AgreeStep(o, v[l], p.added[l], p.deleted[l], held, qa.added[l], adds, dels, pa.added[l]);
  }

  lemma FreshOnePer(xs: seq<(nat, FileMeta)>, l: nat, held: set<nat>)
    requires FreshAt(xs, l, held)
    ensures forall f, g :: f in AddedAt(xs, l) && g in AddedAt(xs, l) && f.number == g.number ==> f == g
  {
    forall f, g | f in AddedAt(xs, l) && g in AddedAt(xs, l) && f.number == g.number ensures f == g {
      var i :| 0 <= i < |xs| && xs[i].0 == l && xs[i].1 == f;
      var j :| 0 <= j < |xs| && xs[j].0 == l && xs[j].1 == g;
    }
  }

  /** Rebuilding from the snapshot record and all later edits gives the current version, file for file. */
  lemma ReplayIsCurrent(o: Order, v0: Levels, snap: Edit, es: seq<Edit>)
    requires o.Lawful() && VersionOk(o, v0) && forall l :: 0 <= l < NUM_LEVELS ==> NoReAdd(v0, es, l)
    requires AllLevelsOk(es) && AllLevelsOk([snap] + es) && snap.deleted == [] && snap.newFiles == SnapshotFiles(v0, NUM_LEVELS)
    ensures Save(o, NoFiles(), Replayed(o, [snap] + es)) == Current(o, v0, es)
  {
    hide Agree, Replayed, Current, NoReAdd, AllLevelsOk, SnapshotFiles;
    var p, v := Replayed(o, [snap] + es), Current(o, v0, es);
    forall l | 0 <= l < NUM_LEVELS ensures Save(o, NoFiles(), p)[l] == v[l] {
      ReplayAgrees(o, v0, snap, es, l);
      AgreeSaved(o, v[l], p.added[l], p.deleted[l], EverHeld(v0, es, l));
    }
  }

  lemma AgreeSaved(o: Order, v: seq<FileMeta>, added: seq<FileMeta>, deleted: set<nat>, held: set<nat>)
    requires o.Lawful() && Agree(o, v, added, deleted, held)
    ensures Live(Merge(o, [], added), deleted) == v
  {
    EmptySets(o);
    MergeSorted(o, [], added);
    var m := Merge(o, [], added);
    LiveSorted(o, m, deleted);
    forall f ensures f in Live(m, deleted) <==> f in v {
      LiveHas(m, deleted, f);
      MergeHas(o, [], added, f);
    }
    SortedUnique(o, Live(m, deleted), v);
  }

  // ----- Recover -----

  /** What the records of a manifest say, read in order; None is a corrupt manifest. */
  datatype Recovered = Recovered(levels: Levels, manifestFile: nat, nextFile: nat, logNumber: nat, prevLogNumber: nat, lastSequence: nat)

  ghost predicate DecodesTo(records: seq<seq<Byte>>, es: seq<Edit>) {
    |records| == |es| && forall i :: 0 <= i < |es| ==> Decode(EMPTY, records[i]) == Some(es[i])
  }

  lemma {:induction false} DecodeLevels(e: Edit, b: seq<Byte>)
    requires LevelsOk(e)
    ensures Decode(e, b).Some? ==> LevelsOk(Decode(e, b).value)
    decreases |b|
  {
    var t := GetVarint32(b);
    if t.Some? {
      var r := ParseBody(t.value.0, t.value.1);
      if r.Some? {
        SetLevels(e, t.value.0, t.value.1);
        hide GetVarint32, ParseBody, Set;
        DecodeLevels(Set(e, r.value.0), r.value.1);
      }
    }
  }

  lemma SetLevels(e: Edit, tag: nat, b: seq<Byte>)
    requires LevelsOk(e) && ParseBody(tag, b).Some?
    ensures LevelsOk(Set(e, ParseBody(tag, b).value.0))
  {
    hide GetVarint64, GetSlice;
    var it := ParseBody(tag, b).value.0;
    assert it.DeletedFile? || it.NewFile? ==> it.level < NUM_LEVELS;
    if it.DeletedFile? { InsertPairLevels(e.deleted, (it.level, it.number)); }
  }

  lemma {:induction false} InsertPairLevels(ds: seq<(nat, nat)>, d: (nat, nat))
    requires d.0 < NUM_LEVELS && forall i :: 0 <= i < |ds| ==> ds[i].0 < NUM_LEVELS
    ensures forall i :: 0 <= i < |InsertPair(ds, d)| ==> InsertPair(ds, d)[i].0 < NUM_LEVELS
  {
    if ds != [] {
      InsertPairLevels(ds[..|ds| - 1], d);
    }
  }

  function Latest(a: Option<nat>, b: Option<nat>): Option<nat> { if b.Some? then b else a }

  /** The single-valued fields as the last edit that carries them left them. */
  function Fields(es: seq<Edit>): Edit {
    if es == [] then EMPTY
    else
      var a, e := Fields(es[..|es| - 1]), es[|es| - 1];
      EMPTY.(nextFile := Latest(a.nextFile, e.nextFile), logNumber := Latest(a.logNumber, e.logNumber),
             prevLogNumber := Latest(a.prevLogNumber, e.prevLogNumber), lastSequence := Latest(a.lastSequence, e.lastSequence))
  }

  predicate Complete(e: Edit) { e.nextFile.Some? && e.logNumber.Some? && e.lastSequence.Some? }

  datatype Field = NextFileField | LogNumberField | PrevLogNumberField | LastSequenceField

  function Read(e: Edit, f: Field): Option<nat> {
    match f
    case NextFileField => e.nextFile
    case LogNumberField => e.logNumber
    case PrevLogNumberField => e.prevLogNumber
    case LastSequenceField => e.lastSequence
  }

  /** v is the field's value in the last edit that carries the field. */
  ghost predicate LastCarried(es: seq<Edit>, f: Field, v: nat) {
    exists i :: 0 <= i < |es| && Read(es[i], f) == Some(v) && NoneCarries(es[i + 1..], f)
  }

  ghost predicate NoneCarries(es: seq<Edit>, f: Field) {
    forall i :: 0 <= i < |es| ==> Read(es[i], f) == None
  }

  lemma {:induction false} FieldsAreLast(es: seq<Edit>, f: Field)
    ensures Read(Fields(es), f).None? <==> NoneCarries(es, f)
    ensures Read(Fields(es), f).Some? ==> LastCarried(es, f, Read(Fields(es), f).value)
  {
    if es != [] {
      var rest, e := es[..|es| - 1], es[|es| - 1];
      assert Read(Fields(es), f) == Latest(Read(Fields(rest), f), Read(e, f));
      hide Fields, NoneCarries, LastCarried, Read;
      FieldsAreLast(rest, f);
      assert es == rest + [e];
      CarriesMore(rest, e, f);
      if Read(e, f).None? && Read(Fields(rest), f).Some? { StillLast(rest, e, f, Read(Fields(rest), f).value); }
    }
  }

  lemma CarriesMore(rest: seq<Edit>, e: Edit, f: Field)
    ensures NoneCarries(rest + [e], f) <==> NoneCarries(rest, f) && Read(e, f) == None
    ensures Read(e, f).Some? ==> LastCarried(rest + [e], f, Read(e, f).value)
  {
    var es := rest + [e];
    assert es[|rest|] == e && es[|rest| + 1..] == [];
    forall i | 0 <= i < |rest| ensures Read(es[i], f) == Read(rest[i], f) {}
  }

  lemma StillLast(rest: seq<Edit>, e: Edit, f: Field, v: nat)
    requires LastCarried(rest, f, v) && Read(e, f) == None
    ensures LastCarried(rest + [e], f, v)
  {
    var es := rest + [e];
    var i :| 0 <= i < |rest| && Read(rest[i], f) == Some(v) && NoneCarries(rest[i + 1..], f);
    assert es[i + 1..] == rest[i + 1..] + [e] && es[i] == rest[i];
    CarriesMore(rest[i + 1..], e, f);
  }

  predicate NameFits(e: Edit, name: seq<Byte>) { e.comparator.None? || e.comparator.value == name }

  /** A record that cannot be decoded, or belongs to another comparator. */
  ghost predicate BadRecord(b: seq<Byte>, name: seq<Byte>) {
    Decode(EMPTY, b).None? || !NameFits(Decode(EMPTY, b).value, name)
  }

  /** The records decode to es, and got is what replaying es with one Builder gives. */
  ghost predicate RecoversAs(o: Order, name: seq<Byte>, records: seq<seq<Byte>>, es: seq<Edit>, got: Recovered) {
    && DecodesTo(records, es) && AllLevelsOk(es) && (forall i :: 0 <= i < |es| ==> NameFits(es[i], name))
    && got.levels == Save(o, NoFiles(), Replayed(o, es)) && CountersFrom(es, got)
  }

  /** Each number is the one of the last record that carries it; the next file comes after the new manifest. */
  ghost predicate CountersFrom(es: seq<Edit>, got: Recovered) {
    && LastCarried(es, NextFileField, got.manifestFile) && got.nextFile == got.manifestFile + 1
    && LastCarried(es, LogNumberField, got.logNumber) && LastCarried(es, LastSequenceField, got.lastSequence)
    && (if NoneCarries(es, PrevLogNumberField) then got.prevLogNumber == 0 else LastCarried(es, PrevLogNumberField, got.prevLogNumber))
  }

  /** A number without which recovery cannot go on is nowhere in the manifest. */
  ghost predicate Lacking(es: seq<Edit>) {
    NoneCarries(es, NextFileField) || NoneCarries(es, LogNumberField) || NoneCarries(es, LastSequenceField)
  }

  /** VersionSet::Recover: decode and apply every record with one Builder. */
  method Recover(o: Order, name: seq<Byte>, records: seq<seq<Byte>>) returns (r: Option<Recovered>)
    ensures r.Some? ==> exists es :: RecoversAs(o, name, records, es, r.value)
    ensures r.None? ==> (exists i :: 0 <= i < |records| && BadRecord(records[i], name))
                        || (exists es :: DecodesTo(records, es) && Lacking(es))
  {
    hide Decode, Apply, Save;
    var builder := new Builder(o, NoFiles());
    var f := EMPTY;
    ghost var es: seq<Edit> := [];
    var i := 0;
    while i < |records|
      invariant 0 <= i <= |records| == |records| && |es| == i && DecodesTo(records[..i], es) && AllLevelsOk(es)
      invariant forall j :: 0 <= j < i ==> NameFits(es[j], name)
      invariant builder.o == o && builder.base == NoFiles()
      invariant PendingOk(builder.pending) && builder.pending == Replayed(o, es) && f == Fields(es)
    {
      var d := DecodeFrom(records[i]);
      if d.None? || !NameFits(d.value, name) {
        assert BadRecord(records[i], name);
        return None;
      }
      var e := d.value;
      DecodeLevels(EMPTY, records[i]);
      assert (es + [e])[..i] == es && (es + [e])[i] == e;
      builder.ApplyEdit(e);
      f := EMPTY.(nextFile := Latest(f.nextFile, e.nextFile), logNumber := Latest(f.logNumber, e.logNumber),
                  prevLogNumber := Latest(f.prevLogNumber, e.prevLogNumber), lastSequence := Latest(f.lastSequence, e.lastSequence));
      es := es + [e];
      i := i + 1;
    }
    assert records[..i] == records;
    FieldsAreLast(es, NextFileField);
    FieldsAreLast(es, LogNumberField);
    FieldsAreLast(es, PrevLogNumberField);
    FieldsAreLast(es, LastSequenceField);
    if !Complete(f) {
      assert Lacking(es);
      return None;
    }
    var levels := builder.SaveTo();
    var next := f.nextFile.value;
    r := Some(Recovered(levels, next, next + 1, f.logNumber.value, f.prevLogNumber.Get(0), f.lastSequence.value));
    assert CountersFrom(es, r.value);
    assert RecoversAs(o, name, records, es, r.value);
  }

  /** The manifest written by a run: the snapshot record, then one record per LogAndApply. */
  ghost predicate ManifestOf(records: seq<seq<Byte>>, all: seq<Edit>) {
    |records| == |all| && forall i :: 0 <= i < |all| ==> EditOk(all[i]) && records[i] == Bytes(Items(all[i]))
  }

  lemma ManifestDecodes(records: seq<seq<Byte>>, all: seq<Edit>)
    requires ManifestOf(records, all)
    ensures DecodesTo(records, all) && AllLevelsOk(all)
  {
    forall i | 0 <= i < |all| ensures Decode(EMPTY, records[i]) == Some(all[i]) && LevelsOk(all[i]) {
      EditRoundTrip(all[i]);
      hide Decode;
      DecodeLevels(EMPTY, records[i]);
    }
  }

  /** Whatever Recover returns for a manifest the store wrote is the version the store had. */
  lemma ManifestReplay(o: Order, v0: Levels, snap: Edit, es: seq<Edit>, records: seq<seq<Byte>>, got: seq<Edit>)
    requires o.Lawful() && VersionOk(o, v0) && forall l :: 0 <= l < NUM_LEVELS ==> NoReAdd(v0, es, l)
    requires snap.deleted == [] && snap.newFiles == SnapshotFiles(v0, NUM_LEVELS)
    requires ManifestOf(records, [snap] + es) && DecodesTo(records, got)
    ensures got == [snap] + es && AllLevelsOk(got) && AllLevelsOk(es)
    ensures Save(o, NoFiles(), Replayed(o, got)) == Current(o, v0, es)
  {
    hide Decode, Save, Replayed, Current, NoReAdd, ManifestOf, SnapshotFiles;
    var all := [snap] + es;
    ManifestDecodes(records, all);
    forall i | 0 <= i < |all| ensures got[i] == all[i] {
      assert Some(got[i]) == Decode(EMPTY, records[i]) == Some(all[i]);
    }
    assert got == all;
    assert AllLevelsOk(es) by {
      forall i | 0 <= i < |es| ensures LevelsOk(es[i]) { assert all[i + 1] == es[i]; }
    }
    ReplayIsCurrent(o, v0, snap, es);
  }

  /** So recovery from a manifest the store wrote ends with the store's own file lists. */
  lemma RecoveredIsCurrent(o: Order, name: seq<Byte>, v0: Levels, snap: Edit, es: seq<Edit>, records: seq<seq<Byte>>, r: Recovered)
    requires o.Lawful() && VersionOk(o, v0) && forall l :: 0 <= l < NUM_LEVELS ==> NoReAdd(v0, es, l)
    requires snap.deleted == [] && snap.newFiles == SnapshotFiles(v0, NUM_LEVELS)
    requires ManifestOf(records, [snap] + es) && exists got :: RecoversAs(o, name, records, got, r)
    ensures AllLevelsOk(es) && r.levels == Current(o, v0, es)
  {
    hide NoReAdd, SnapshotFiles, Save, Replayed, Current, Fields;
    var got :| RecoversAs(o, name, records, got, r);
    ManifestReplay(o, v0, snap, es, records, got);
  }
}
