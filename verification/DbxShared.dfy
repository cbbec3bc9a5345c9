/** Steps that change the index, the buffers, the snapshot counter or the pools. */
module DbxShared {
  import opened Common
  import opened DbxModel
  import opened DbxSteps
  import opened DbxInvariant
  import opened DbxLocal

  /** Waiting only looks at the threads' RCU counters. */
  lemma SameWait(s: State, s': State, u: Tid)
    requires WfSizes(s) && WfSizes(s') && |s'.c.threads| == |s.c.threads| && u < |s.c.threads| && WaitOk(s, u)
    requires forall i :: 0 <= i < |s.c.threads| ==>
               s'.c.threads[i].rcu == s.c.threads[i].rcu && s'.g.th[i].begin == s.g.th[i].begin
    requires s'.c.threads[u].pc == s.c.threads[u].pc && s'.g.th[u].waitStart == s.g.th[u].waitStart
    ensures WaitOk(s', u)
  {
    forall i | 0 <= i < |s.c.threads| ensures Passed(s', u, i) == Passed(s, u, i) {}
  }

  // ----- GetWithInsert -----

  /** The index after GetWithInsert, every thread where it was. */
  function Grown(s: State, k: Key): State
    requires WfSizes(s)
  {
    if k in s.c.index then s
    else State(s.c.(index := s.c.index[k := |s.c.nodes|],
                    nodes := s.c.nodes + [MemNode(k, LogicalDelete, 0, 0, None)]),
               s.g.(nodes := s.g.nodes + [NodeAux([], s.g.time)]))
  }

  lemma GrownShared(s: State, k: Key)
    requires SharedOk(s)
    ensures SharedOk(Grown(s, k))
  {
    var s' := Grown(s, k);
    if k !in s.c.index {
      forall n, i | 0 <= n < |s'.g.nodes| && 0 <= i < |s'.g.nodes[n].hist| ensures PastOk(s', n, i) {
        assert PastOk(s, n, i);
        assert VersionIntact(s', n, i) == VersionIntact(s, n, i);
      }
      forall n | 0 <= n < |s'.c.nodes| ensures NodeOk(s', n) {
        if n < |s.c.nodes| { assert NodeOk(s, n); }
      }
    }
  }

  lemma GrownRw(s: State, k: Key, u: Tid)
    requires WfSizes(s) && u < |s.c.threads| && RwOk(s, u) && WritesOk(s, u)
    ensures RwOk(Grown(s, k), u) && WritesOk(Grown(s, k), u)
  {
    var s' := Grown(s, k);
    var ws, wlog := s.c.threads[u].ws, s.g.th[u].wlog;
    forall j | 0 <= j < |ws| ensures EntryOk(s', u, ws[j], wlog[j]) {
      assert EntryOk(s, u, ws[j], wlog[j]);
    }
    if InRw(s.c.threads[u].pc) {
      forall i | 0 <= i < |s'.c.threads[u].rs| ensures RsOk(s', s'.c.threads[u].rs[i]) {
        assert RsOk(s, s.c.threads[u].rs[i]);
      }
      forall i | 0 <= i < |s'.g.th[u].got| ensures ReadOk(s', u, s'.g.th[u].got[i]) {
        assert ReadOk(s, u, s.g.th[u].got[i]);
      }
    }
  }

  lemma GrownRo(s: State, k: Key, u: Tid)
    requires SharedOk(s) && u < |s.c.threads| && RoOk(s, u)
    ensures RoOk(Grown(s, k), u)
  {
    var s' := Grown(s, k);
    if k !in s.c.index && InRo(s.c.threads[u].pc) {
      var snap := s.c.threads[u].oldsnapshot;
      forall n, i | 0 <= n < |s'.g.nodes| && 0 <= i < |s'.g.nodes[n].hist| && Above(s', n, i) > snap
        ensures s'.g.nodes[n].hist[i].at >= s'.g.th[u].begin
      {
        assert Above(s, n, i) == Above(s', n, i);
      }
      forall n | 0 <= n < |s.c.nodes| ensures SnapOf(s', n, snap) == SnapOf(s, n, snap) {}
    }
  }

  lemma GrownThread(s: State, k: Key, u: Tid)
    requires SharedOk(s) && u < |s.c.threads| && ThreadOk(s, u)
    ensures ThreadOk(Grown(s, k), u)
  {
    var s' := Grown(s, k);
    GrownRw(s, k, u);
    GrownRo(s, k, u);
    SameWait(s, s', u);
    assert PoolsOk(s', u) by {
      forall i | 0 <= i < |s'.c.threads[u].rm| ensures RmOk(s', s'.c.threads[u].rm[i]) {
        assert RmOk(s, s.c.threads[u].rm[i]);
      }
    }
    assert ProtectOk(s', u) by {
      forall n, i | 0 <= n < |s'.g.nodes| && 0 <= i < |s'.g.nodes[n].hist|
        ensures n < |s.g.nodes| && VersionIntact(s', n, i) == VersionIntact(s, n, i)
      {}
    }
    assert QueuedBefore(s', u) by {
      forall i | 0 <= i < |s.c.threads[u].rm| ensures s.c.threads[u].rm[i].node < |s.c.nodes| {
        assert RmOk(s, s.c.threads[u].rm[i]);
      }
    }
  }

  lemma GrownCore(s: State, k: Key)
    requires Core(s)
    ensures Core(Grown(s, k))
  {
    GrownShared(s, k);
    forall u | 0 <= u < |s.c.threads| ensures ThreadOk(Grown(s, k), u) {
      assert ThreadOk(s, u);
      GrownThread(s, k, u);
    }
  }

  lemma IndexStepKeeps(s: State, t: Tid, k: Key, pc: Pc)
    requires Core(s) && t < |s.c.threads| && InRw(s.c.threads[t].pc)
    requires (pc == GetFound(k, IndexInsert(s.c, k).1) && Lookup(s.c.threads[t].ws, k).None?)
             || (pc.AddFound? && pc.k == k && pc.n == IndexInsert(s.c, k).1)
    ensures Core(IndexStep(s, t, k, pc))
  {
    var s1 := Grown(s, k);
    var s' := IndexStep(s, t, k, pc);
    GrownCore(s, k);
    assert ThreadOk(s1, t);
    PcMove(s1, s', t);
    LocalCore(s1, s', t);
  }

  // ----- GetEmptyValue, malloc, memcpy -----

  /** A free buffer of thread t, or a new one, now holding `w`. */
  function Alloced(s: State, t: Tid, w: Content): State
    requires WfSizes(s) && t < |s.c.threads|
    requires s.c.threads[t].freeVals == [] || s.c.threads[t].freeVals[0] < |s.c.mem|
  {
    var th := s.c.threads[t];
    if th.freeVals == [] then
      s.(c := s.c.(mem := s.c.mem + [w]), g := s.g.(ptr := s.g.ptr + [Pending(t)]))
    else
      var p := th.freeVals[0];
      s.(c := s.c.(mem := s.c.mem[p := w], threads := s.c.threads[t := th.(freeVals := th.freeVals[1..])]),
         g := s.g.(ptr := s.g.ptr[p := Pending(t)]))
  }

  function AllocedPtr(s: State, t: Tid): Ptr
    requires t < |s.c.threads|
  {
    if s.c.threads[t].freeVals == [] then |s.c.mem| else s.c.threads[t].freeVals[0]
  }

  /** Buffer p was on a free list or did not exist; all others are as before. */
  ghost predicate Reused(s: State, s': State, t: Tid, p: Ptr) {
    && WfSizes(s) && WfSizes(s') && t < |s.c.threads| == |s'.c.threads|
    && |s.c.mem| <= |s'.c.mem| && p < |s'.c.mem|
    && (p < |s.c.mem| ==> s.g.ptr[p] == Free(t))
    && s'.g.ptr[p] == Pending(t)
    && (forall q :: 0 <= q < |s.c.mem| && q != p ==> s'.c.mem[q] == s.c.mem[q] && s'.g.ptr[q] == s.g.ptr[q])
    && s'.c == s.c.(mem := s'.c.mem, threads := s.c.threads[t := s.c.threads[t].(freeVals := s'.c.threads[t].freeVals)])
    && s'.g == s.g.(ptr := s'.g.ptr)
  }

  lemma AllocIsReuse(s: State, t: Tid, w: Content)
    requires WfSizes(s) && t < |s.c.threads| && PoolsOk(s, t)
    ensures var s', p := Alloced(s, t, w), AllocedPtr(s, t);
            Reused(s, s', t, p) && PoolsOk(s', t) && s'.c.mem[p] == w
  {
    var s', p := Alloced(s, t, w), AllocedPtr(s, t);
    assert s'.c.threads == s.c.threads[t := s.c.threads[t].(freeVals := s'.c.threads[t].freeVals)];
  }

  lemma ReusedShared(s: State, s': State, t: Tid, p: Ptr)
    requires SharedOk(s) && Reused(s, s', t, p)
    ensures SharedOk(s')
  {
    forall n | 0 <= n < |s'.c.nodes| ensures NodeOk(s', n) && ContentOf(s'.c, s.c.nodes[n].value) == ContentOf(s.c, s.c.nodes[n].value) {
      assert NodeOk(s, n);
    }
    forall n, i | 0 <= n < |s'.g.nodes| && 0 <= i < |s'.g.nodes[n].hist| ensures PastOk(s', n, i) {
      assert PastOk(s, n, i);
      assert VersionIntact(s', n, i) == VersionIntact(s, n, i);
    }
  }

  lemma ReusedWrites(s: State, s': State, t: Tid, p: Ptr, u: Tid)
    requires Reused(s, s', t, p) && u < |s.c.threads| && WritesOk(s, u)
    ensures WritesOk(s', u)
  {
    var ws, wlog := s.c.threads[u].ws, s.g.th[u].wlog;
    forall j | 0 <= j < |ws| ensures EntryOk(s', u, ws[j], wlog[j]) {
      assert EntryOk(s, u, ws[j], wlog[j]);
    }
  }

  lemma ReusedRw(s: State, s': State, t: Tid, p: Ptr, u: Tid)
    requires Reused(s, s', t, p) && u < |s.c.threads| && RwOk(s, u)
    requires forall n :: 0 <= n < |s.c.nodes| ==> NodeOk(s, n)
    ensures RwOk(s', u)
  {
    if InRw(s.c.threads[u].pc) {
      forall i | 0 <= i < |s'.c.threads[u].rs| ensures RsOk(s', s'.c.threads[u].rs[i]) {
        assert RsOk(s, s.c.threads[u].rs[i]);
      }
      forall i | 0 <= i < |s'.g.th[u].got| ensures ReadOk(s', u, s'.g.th[u].got[i]) {
        var r := s.g.th[u].got[i];
        assert ReadOk(s, u, r);
        if r.src.Some? { assert NodeOk(s, r.src.value.node); }
      }
    }
  }

  lemma ReusedRo(s: State, s': State, t: Tid, p: Ptr, u: Tid)
    requires SharedOk(s) && Reused(s, s', t, p) && u < |s.c.threads| && RoOk(s, u)
    ensures RoOk(s', u)
  {
    if InRo(s.c.threads[u].pc) {
      var snap := s.c.threads[u].oldsnapshot;
      forall n, i | 0 <= n < |s'.g.nodes| && 0 <= i < |s'.g.nodes[n].hist| && Above(s', n, i) > snap
        ensures s'.g.nodes[n].hist[i].at >= s'.g.th[u].begin
      {
        assert Above(s, n, i) == Above(s', n, i);
      }
      forall n | 0 <= n < |s.c.nodes| ensures SnapOf(s', n, snap) == SnapOf(s, n, snap) {
        assert NodeOk(s, n);
      }
    }
  }

  lemma ReusedThread(s: State, s': State, t: Tid, p: Ptr, u: Tid)
    requires SharedOk(s) && Reused(s, s', t, p) && u < |s.c.threads| && ThreadOk(s, u) && PoolsOk(s', t)
    ensures ThreadOk(s', u)
  {
    ReusedRw(s, s', t, p, u);
    ReusedWrites(s, s', t, p, u);
    ReusedRo(s, s', t, p, u);
    ReusedProtect(s, s', t, p, u);
    ReusedPools(s, s', t, p, u);
    SameWait(s, s', u);
  }

  lemma ReusedProtect(s: State, s': State, t: Tid, p: Ptr, u: Tid)
    requires Reused(s, s', t, p) && u < |s.c.threads| && ProtectOk(s, u) && HeldOk(s, u)
    ensures ProtectOk(s', u) && HeldOk(s', u)
  {
    forall n, i | 0 <= n < |s'.g.nodes| && 0 <= i < |s'.g.nodes[n].hist|
      ensures VersionIntact(s', n, i) == VersionIntact(s, n, i)
    {}
  }

  lemma ReusedPools(s: State, s': State, t: Tid, p: Ptr, u: Tid)
    requires Reused(s, s', t, p) && u < |s.c.threads| && PoolsOk(s, u) && QueuedBefore(s, u) && PoolsOk(s', t)
    ensures PoolsOk(s', u) && QueuedBefore(s', u)
  {
    if u != t { assert s'.c.threads[u] == s.c.threads[u]; }
  }

  lemma AllocKeeps(s: State, t: Tid, w: Content)
    requires Core(s) && t < |s.c.threads|
    ensures s.c.threads[t].freeVals != [] ==> s.c.threads[t].freeVals[0] < |s.c.mem|
    ensures var s', p := Alloced(s, t, w), AllocedPtr(s, t);
            Core(s') && Reused(s, s', t, p) && s'.c.mem[p] == w
  {
    assert ThreadOk(s, t);
    AllocIsReuse(s, t, w);
    var s', p := Alloced(s, t, w), AllocedPtr(s, t);
    ReusedShared(s, s', t, p);
    forall u | 0 <= u < |s'.c.threads| ensures ThreadOk(s', u) {
      assert ThreadOk(s, u);
      ReusedThread(s, s', t, p, u);
    }
  }

  /** WriteSet::Add of a value whose buffer is in place. */
  lemma InsertKeeps(s: State, s': State, t: Tid, v: Val)
    requires Core(s) && t < |s.c.threads| && s.c.threads[t].pc.AddChecked?
    requires var pc := s.c.threads[t].pc;
             && s' == Update(s, t, s.c.threads[t].(pc := Ready, ws := s.c.threads[t].ws + [WsEntry(pc.k, v, pc.n)]),
                             s.g.th[t].(wlog := s.g.th[t].wlog + [Write(pc.k, pc.w)]))
             && (pc.w.None? ==> v == LogicalDelete)
             && (pc.w.Some? ==> v.At? && v.p < |s.c.mem| && s.g.ptr[v.p] == Pending(t) && s.c.mem[v.p] == pc.w.value)
    requires forall j :: 0 <= j < |s.c.threads[t].ws| && s.c.threads[t].ws[j].val.At? && v.At? ==>
               s.c.threads[t].ws[j].val.p != v.p
    ensures Core(s')
  {
    assert ThreadOk(s, t);
    KeepPools(s, s', t);
    KeepProtect(s, s', t);
    assert WritesOk(s', t) by {
        forall j | 0 <= j < |s'.c.threads[t].ws| ensures EntryOk(s', t, s'.c.threads[t].ws[j], s'.g.th[t].wlog[j]) {
        if j < |s.c.threads[t].ws| { assert EntryOk(s, t, s.c.threads[t].ws[j], s.g.th[t].wlog[j]); }
      }
    }
    assert RwOk(s', t) by {
      forall i | 0 <= i < |s'.g.th[t].got| ensures ReadOk(s', t, s'.g.th[t].got[i]) {
        var r := s.g.th[t].got[i];
        assert ReadOk(s, t, r);
        assert s'.g.th[t].wlog[..r.upto] == s.g.th[t].wlog[..r.upto];
      }
      forall i | 0 <= i < |s'.c.threads[t].rs| ensures RsOk(s', s'.c.threads[t].rs[i]) {
        assert RsOk(s, s.c.threads[t].rs[i]);
      }
    }
    LocalCore(s, s', t);
  }

  lemma AddInsertKeeps(s: State, t: Tid)
    requires Core(s) && Enabled(s, AddInsert(t))
    ensures Core(AddInserted(s, t))
  {
    var w := s.c.threads[t].pc.w;
    assert ThreadOk(s, t);
    if w.None? {
      InsertKeeps(s, AddInserted(s, t), t, LogicalDelete);
    } else {
      AllocKeeps(s, t, w.value);
      var s1, p := Alloced(s, t, w.value), AllocedPtr(s, t);
      forall j | 0 <= j < |s.c.threads[t].ws| && s.c.threads[t].ws[j].val.At? ensures s.c.threads[t].ws[j].val.p != p {
        assert EntryOk(s, t, s.c.threads[t].ws[j], s.g.th[t].wlog[j]);
      }
      InsertKeeps(s1, AddInserted(s, t), t, At(p));
    }
  }

  // ----- DBROTX::Begin -----

  function Raised(s: State): State { s.(c := s.c.(snapshot := s.c.snapshot + 1)) }

  lemma RaisedRo(s: State, u: Tid)
    requires WfSizes(s) && u < |s.c.threads| && RoOk(s, u)
    ensures RoOk(Raised(s), u)
  {
    var s' := Raised(s);
    var snap := s.c.threads[u].oldsnapshot;
    forall n, i | 0 <= n < |s.g.nodes| && 0 <= i < |s.g.nodes[n].hist| ensures Above(s, n, i) == Above(s', n, i) {}
    forall n | 0 <= n < |s.c.nodes| ensures SnapOf(s', n, snap) == SnapOf(s, n, snap) {}
  }

  lemma RaisedRw(s: State, u: Tid)
    requires WfSizes(s) && u < |s.c.threads| && RwOk(s, u) && WritesOk(s, u)
    ensures RwOk(Raised(s), u) && WritesOk(Raised(s), u)
  {
    var s' := Raised(s);
    var ws, wlog := s.c.threads[u].ws, s.g.th[u].wlog;
    forall j | 0 <= j < |ws| ensures EntryOk(s', u, ws[j], wlog[j]) {
      assert EntryOk(s, u, ws[j], wlog[j]);
    }
    if InRw(s.c.threads[u].pc) {
      forall i | 0 <= i < |s.c.threads[u].rs| ensures RsOk(s', s.c.threads[u].rs[i]) {
        assert RsOk(s, s.c.threads[u].rs[i]);
      }
      forall i | 0 <= i < |s.g.th[u].got| ensures ReadOk(s', u, s.g.th[u].got[i]) {
        assert ReadOk(s, u, s.g.th[u].got[i]);
      }
    }
  }

  lemma RaisedCore(s: State)
    requires Core(s)
    ensures Core(Raised(s))
  {
    var s' := Raised(s);
    forall n | 0 <= n < |s.c.nodes| ensures NodeOk(s', n) { assert NodeOk(s, n); }
    forall n, i | 0 <= n < |s.g.nodes| && 0 <= i < |s.g.nodes[n].hist|
      ensures PastOk(s', n, i) && VersionIntact(s', n, i) == VersionIntact(s, n, i)
    {
      assert PastOk(s, n, i);
    }
    forall u | 0 <= u < |s.c.threads| ensures ThreadOk(s', u) {
      assert ThreadOk(s, u);
      RaisedRo(s, u);
      RaisedRw(s, u);
      SameWait(s, s', u);
    }
  }

  /** Counters grow towards the node. */
  lemma AboveBounded(s: State, n: NodeId, i: nat)
    requires SharedOk(s) && n < |s.c.nodes| && i < |s.g.nodes[n].hist|
    ensures Above(s, n, i) <= s.c.nodes[n].counter
    decreases |s.g.nodes[n].hist| - i
  {
    if i + 1 < |s.g.nodes[n].hist| {
      assert PastOk(s, n, i + 1);
      AboveBounded(s, n, i + 1);
    }
  }

  /** Every counter is at or below the old snapshot, so every node shows its current value. */
  lemma SnapshotOwn(s: State, t: Tid)
    requires SharedOk(s) && t < |s.c.threads| && s.c.threads[t].pc == RoBegun && PcOk(s, t)
    ensures RoOk(SnapshotTaken(s, t), t)
  {
    var s' := SnapshotTaken(s, t);
    forall n | 0 <= n < |s.c.nodes|
      ensures s'.c.nodes[n].counter <= s.c.snapshot
              && SnapOf(s', n, s.c.snapshot) == ContentOf(s.c, s.c.nodes[n].value)
    {
      assert NodeOk(s, n);
    }
    forall n, i | 0 <= n < |s'.g.nodes| && 0 <= i < |s'.g.nodes[n].hist| ensures Above(s', n, i) <= s.c.snapshot {
      assert NodeOk(s, n);
      AboveBounded(s, n, i);
      assert Above(s', n, i) == Above(s, n, i);
    }
  }

  lemma SnapshotKeeps(s: State, t: Tid)
    requires Core(s) && Enabled(s, RoSnapshot(t))
    ensures Core(SnapshotTaken(s, t))
  {
    var s1, s' := Raised(s), SnapshotTaken(s, t);
    assert ThreadOk(s, t);
    SnapshotOwn(s, t);
    RaisedCore(s);
    assert ThreadOk(s1, t);
    KeepPools(s1, s', t);
    KeepProtect(s1, s', t);
    KeepWrites(s1, s', t);
    LocalCore(s1, s', t);
  }

  // ----- The abort path -----

  function Dropped(s: State, t: Tid): State
    requires WfSizes(s) && t < |s.c.threads|
  {
    Update(s, t, s.c.threads[t].(pc := Ending, rs := [], ws := []),
           s.g.th[t].(got := [], wlog := [], held := map[]))
  }

  /** Labels of buffers no thread refers to may change. */
  lemma LeakCore(s: State, s': State, t: Tid)
    requires Core(s) && Leaks(s, s', t) && t < |s.c.threads| && s.c.threads[t].pc == Ending && s.g.th[t].held == map[]
    ensures Core(s')
  {
    forall n | 0 <= n < |s.c.nodes| ensures NodeOk(s', n) { assert NodeOk(s, n); }
    forall n, i | 0 <= n < |s.g.nodes| && 0 <= i < |s.g.nodes[n].hist|
      ensures PastOk(s', n, i) && VersionIntact(s', n, i) == VersionIntact(s, n, i)
              && ValueIntact(s', s.g.nodes[n].hist[i]) == ValueIntact(s, s.g.nodes[n].hist[i])
    {
      assert PastOk(s, n, i);
    }
    forall u | 0 <= u < |s.c.threads| ensures ThreadOk(s', u) {
      assert ThreadOk(s, u);
      LeakThread(s, s', t, u);
    }
  }

  ghost predicate Leaks(s: State, s': State, t: Tid) {
    && WfSizes(s) && WfSizes(s')
    && s'.c == s.c && s'.g == s.g.(ptr := s'.g.ptr)
    && forall p :: 0 <= p < |s.g.ptr| ==>
         s'.g.ptr[p] == if s.g.ptr[p] == Pending(t) then Leaked else s.g.ptr[p]
  }

  lemma LeakRw(s: State, s': State, t: Tid, u: Tid)
    requires Leaks(s, s', t) && u < |s.c.threads| && RwOk(s, u) && WritesOk(s, u)
    requires u == t ==> s.c.threads[t].pc == Ending && s.c.threads[t].ws == []
    ensures RwOk(s', u) && WritesOk(s', u)
  {
    var ws, wlog := s.c.threads[u].ws, s.g.th[u].wlog;
    forall j | 0 <= j < |ws| ensures EntryOk(s', u, ws[j], wlog[j]) {
      assert EntryOk(s, u, ws[j], wlog[j]);
    }
    if InRw(s.c.threads[u].pc) {
      forall i | 0 <= i < |s.c.threads[u].rs| ensures RsOk(s', s.c.threads[u].rs[i]) {
        assert RsOk(s, s.c.threads[u].rs[i]);
      }
      forall i | 0 <= i < |s.g.th[u].got| ensures ReadOk(s', u, s.g.th[u].got[i]) {
        assert ReadOk(s, u, s.g.th[u].got[i]);
      }
    }
  }

  lemma LeakRo(s: State, s': State, t: Tid, u: Tid)
    requires Leaks(s, s', t) && u < |s.c.threads| && RoOk(s, u)
    ensures RoOk(s', u)
  {
    var snap := s.c.threads[u].oldsnapshot;
    forall n, i | 0 <= n < |s.g.nodes| && 0 <= i < |s.g.nodes[n].hist| ensures Above(s', n, i) == Above(s, n, i) {}
    forall n | 0 <= n < |s.c.nodes| ensures SnapOf(s', n, snap) == SnapOf(s, n, snap) {}
  }

  lemma LeakThread(s: State, s': State, t: Tid, u: Tid)
    requires Leaks(s, s', t) && t < |s.c.threads| && u < |s.c.threads|
    requires ThreadOk(s, u) && (u == t ==> s.c.threads[t].pc == Ending && s.g.th[t].held == map[])
    ensures ThreadOk(s', u)
  {
    LeakRw(s, s', t, u);
    LeakRo(s, s', t, u);
    SameWait(s, s', u);
    forall n, i | 0 <= n < |s.g.nodes| && 0 <= i < |s.g.nodes[n].hist|
      ensures VersionIntact(s', n, i) == VersionIntact(s, n, i)
              && ValueIntact(s', s.g.nodes[n].hist[i]) == ValueIntact(s, s.g.nodes[n].hist[i])
    {}
    assert ProtectOk(s', u);
  }

  lemma AbortKeeps(s: State, t: Tid)
    requires Core(s) && Enabled(s, EndAbort(t))
    ensures Core(Aborted(s, t))
  {
    var s1, s' := Dropped(s, t), Aborted(s, t);
    assert ThreadOk(s, t);
    KeepPools(s, s1, t);
    KeepProtect(s, s1, t);
    LocalCore(s, s1, t);
    LeakCore(s1, s', t);
  }
}
