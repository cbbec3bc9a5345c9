/** What happens after a grace period: pools are refilled, deleted rows leave the index. */
module DbxReclaim {
  import opened Common
  import opened DbxModel
  import opened DbxSteps
  import opened DbxInvariant
  import opened DbxLocal
  import opened DbxShared

  // ----- DBTables::GC -----

  lemma FreedLabels(s: State, t: Tid)
    requires WfSizes(s) && t < |s.c.threads| && PoolsOk(s, t)
    ensures var s' := Freed(s, t);
            && WfSizes(s')
            && (forall p :: 0 <= p < |s.g.ptr| ==>
                  (p in s.c.threads[t].gcVals ==> s'.g.ptr[p] == Free(t) && s.g.ptr[p].Retired? && s.g.ptr[p].t == t)
                  && (p !in s.c.threads[t].gcVals ==> s'.g.ptr[p] == s.g.ptr[p]))
            && (forall v :: 0 <= v < |s.g.ver| ==>
                  (v in s.c.threads[t].gcVers ==> s'.g.ver[v] == VFree(t) && s.g.ver[v].VRetired? && s.g.ver[v].t == t)
                  && (v !in s.c.threads[t].gcVers ==> s'.g.ver[v] == s.g.ver[v]))
  {}

  lemma FreedShared(s: State, t: Tid)
    requires SharedOk(s) && t < |s.c.threads| && PoolsOk(s, t)
    ensures SharedOk(Freed(s, t))
  {
    var s' := Freed(s, t);
    FreedLabels(s, t);
    forall n | 0 <= n < |s.c.nodes| ensures NodeOk(s', n) { assert NodeOk(s, n); }
    forall n, i | 0 <= n < |s.g.nodes| && 0 <= i < |s.g.nodes[n].hist| ensures PastOk(s', n, i) {
      assert PastOk(s, n, i);
      assert VersionIntact(s', n, i) ==> VersionIntact(s, n, i);
      var h := s.g.nodes[n].hist[i];
      assert ValueIntact(s', h) ==> ValueIntact(s, h);
    }
  }

  /** No running transaction began before the wait, so none can reach what is freed. */
  lemma FreedRunning(s: State, t: Tid, u: Tid)
    requires SharedOk(s) && t < |s.c.threads| && u < |s.c.threads|
    requires s.c.threads[t].pc == Reclaiming(Gc) && ThreadOk(s, t) && ThreadOk(s, u)
    ensures HeldOk(Freed(s, t), u) && ProtectOk(Freed(s, t), u)
  {
    var s' := Freed(s, t);
    FreedLabels(s, t);
    var w := s.g.th[t].waitStart;
    if !s.c.threads[u].rcu.ended {
      assert Passed(s, t, u);
      assert s.g.th[u].begin > w;
      forall p | p in s.g.th[u].held ensures s'.g.ptr[p] == s.g.ptr[p] {
        assert p !in s.c.threads[t].gcVals;
      }
      forall n, i | 0 <= n < |s.g.nodes| && 0 <= i < |s.g.nodes[n].hist| && s.g.nodes[n].hist[i].at >= s.g.th[u].begin
        ensures VersionIntact(s', n, i) && ValueIntact(s', s.g.nodes[n].hist[i])
      {
        FreedSpares(s, t, u, n, i);
      }
    }
  }

  lemma FreedSpares(s: State, t: Tid, u: Tid, n: NodeId, i: nat)
    requires WfSizes(s) && t < |s.c.threads| && u < |s.c.threads|
    requires s.c.threads[t].pc == Reclaiming(Gc) && PoolsOk(s, t) && QueuedBefore(s, t) && ProtectOk(s, u)
    requires n < |s.g.nodes| && i < |s.g.nodes[n].hist|
    requires !s.c.threads[u].rcu.ended && s.g.th[u].begin > s.g.th[t].waitStart
    requires s.g.nodes[n].hist[i].at >= s.g.th[u].begin
    ensures VersionIntact(Freed(s, t), n, i) && ValueIntact(Freed(s, t), s.g.nodes[n].hist[i])
  {
    FreedLabels(s, t);
    var h := s.g.nodes[n].hist[i];
    assert VersionIntact(s, n, i) && ValueIntact(s, h);
    assert h.id !in s.c.threads[t].gcVers;
    assert h.value.At? ==> h.value.p !in s.c.threads[t].gcVals;
  }

  lemma DistinctConcat<T>(a: seq<T>, b: seq<T>)
    requires Distinct(a) && Distinct(b) && forall i, j :: 0 <= i < |a| && 0 <= j < |b| ==> a[i] != b[j]
    ensures Distinct(a + b)
  {}

  lemma FreedPools(s: State, t: Tid, u: Tid)
    requires WfSizes(s) && t < |s.c.threads| && u < |s.c.threads| && PoolsOk(s, t) && PoolsOk(s, u)
    ensures PoolsOk(Freed(s, t), u)
  {
    FreedLabels(s, t);
    var s' := Freed(s, t);
    if u == t {
      DistinctConcat(s.c.threads[t].gcVals, s.c.threads[t].freeVals);
      DistinctConcat(s.c.threads[t].gcVers, s.c.threads[t].freeVers);
    } else {
      assert s'.c.threads[u] == s.c.threads[u];
    }
  }

  lemma FreedRw(s: State, t: Tid, u: Tid)
    requires WfSizes(s) && t < |s.c.threads| && u < |s.c.threads| && PoolsOk(s, t)
    requires s.c.threads[t].pc == Reclaiming(Gc)
    requires RwOk(s, u) && WritesOk(s, u) && PcOk(s, u)
    ensures RwOk(Freed(s, t), u) && WritesOk(Freed(s, t), u)
  {
    FreedLabels(s, t);
    var s' := Freed(s, t);
    var ws, wlog := s.c.threads[u].ws, s.g.th[u].wlog;
    forall j | 0 <= j < |ws| ensures EntryOk(s', u, ws[j], wlog[j]) {
      assert EntryOk(s, u, ws[j], wlog[j]);
    }
    if u != t && InRw(s.c.threads[u].pc) {
      forall i | 0 <= i < |s.c.threads[u].rs| ensures RsOk(s', s.c.threads[u].rs[i]) {
        assert RsOk(s, s.c.threads[u].rs[i]);
      }
      forall i | 0 <= i < |s.g.th[u].got| ensures ReadOk(s', u, s.g.th[u].got[i]) {
        assert ReadOk(s, u, s.g.th[u].got[i]);
      }
    }
  }

  lemma FreedRo(s: State, t: Tid, u: Tid)
    requires WfSizes(s) && t < |s.c.threads| && u < |s.c.threads| && s.c.threads[t].pc == Reclaiming(Gc) && RoOk(s, u)
    ensures RoOk(Freed(s, t), u)
  {
    var s' := Freed(s, t);
    if u != t && InRo(s.c.threads[u].pc) {
      var snap := s.c.threads[u].oldsnapshot;
      forall n, i | 0 <= n < |s.g.nodes| && 0 <= i < |s.g.nodes[n].hist| ensures Above(s', n, i) == Above(s, n, i) {}
      forall n | 0 <= n < |s.c.nodes| ensures SnapOf(s', n, snap) == SnapOf(s, n, snap) {}
    }
  }

  lemma FreedWait(s: State, t: Tid, u: Tid)
    requires WfSizes(s) && t < |s.c.threads| && u < |s.c.threads| && s.c.threads[t].pc == Reclaiming(Gc)
    requires WaitOk(s, u) && QueuedBefore(s, u) && PoolsOk(s, t)
    ensures WaitOk(Freed(s, t), u) && QueuedBefore(Freed(s, t), u)
  {
    FreedLabels(s, t);
    var s' := Freed(s, t);
    if u != t {
      assert s'.c.threads[u] == s.c.threads[u];
      SameWait(s, s', u);
    }
  }

  lemma FreeKeeps(s: State, t: Tid)
    requires Core(s) && Enabled(s, FreeAll(t))
    ensures Core(Freed(s, t))
  {
    hide IndexOk, StoreOk, ChainsOk, PoolsOk, ProtectOk, HeldOk, WritesOk, RwOk, RoOk, WaitOk;
    var s' := Freed(s, t);
    assert ThreadOk(s, t);
    FreedShared(s, t);
    forall u | 0 <= u < |s'.c.threads| ensures ThreadOk(s', u) {
      assert ThreadOk(s, u);
      FreedRunning(s, t, u);
      FreedPools(s, t, u);
      FreedRw(s, t, u);
      FreedRo(s, t, u);
      FreedWait(s, t, u);
    }
  }

  // ----- RMPool::Remove -----

  /** A queued object whose number still matches names a deleted row that is in the index. */
  lemma QueuedIsDeleted(s: State, t: Tid)
    requires Core(s) && t < |s.c.threads| && s.c.threads[t].rm != []
    ensures var o := s.c.threads[t].rm[0];
            && o.node < |s.c.nodes|
            && (s.c.nodes[o.node].seqno == o.seqno ==>
                  && s.c.nodes[o.node].value == LogicalDelete
                  && s.c.nodes[o.node].counter > 0
                  && o.key in s.c.index && s.c.index[o.key] == o.node
                  && o.key !in s.g.store)
  {
    assert ThreadOk(s, t);
    var o := s.c.threads[t].rm[0];
    assert RmOk(s, o);
  }

  function Unlinked(s: State, n: NodeId): State
    requires n < |s.c.nodes|
  {
    var nd := s.c.nodes[n];
    s.(c := s.c.(nodes := s.c.nodes[n := nd.(value := HaveRemoved, seqno := nd.seqno + 1)],
                 index := s.c.index - {nd.key}))
  }

  lemma UnlinkedShared(s: State, n: NodeId)
    requires SharedOk(s) && n < |s.c.nodes| && s.c.nodes[n].value == LogicalDelete && s.c.nodes[n].counter > 0
    ensures SharedOk(Unlinked(s, n))
  {
    var s' := Unlinked(s, n);
    forall m | 0 <= m < |s.c.nodes| ensures NodeOk(s', m) { assert NodeOk(s, m); }
    forall m, i | 0 <= m < |s.g.nodes| && 0 <= i < |s.g.nodes[m].hist| ensures PastOk(s', m, i) {
      assert PastOk(s, m, i);
      assert VersionIntact(s', m, i) == VersionIntact(s, m, i);
      assert Above(s', m, i) == Above(s, m, i);
    }
  }

  lemma UnlinkedRw(s: State, n: NodeId, u: Tid)
    requires WfSizes(s) && n < |s.c.nodes| && s.c.nodes[n].value == LogicalDelete && u < |s.c.threads|
    requires RwOk(s, u) && WritesOk(s, u)
    ensures RwOk(Unlinked(s, n), u) && WritesOk(Unlinked(s, n), u)
  {
    var s' := Unlinked(s, n);
    var ws, wlog := s.c.threads[u].ws, s.g.th[u].wlog;
    forall j | 0 <= j < |ws| ensures EntryOk(s', u, ws[j], wlog[j]) {
      assert EntryOk(s, u, ws[j], wlog[j]);
    }
    if InRw(s.c.threads[u].pc) {
      forall i | 0 <= i < |s.c.threads[u].rs| ensures RsOk(s', s.c.threads[u].rs[i]) {
        assert RsOk(s, s.c.threads[u].rs[i]);
      }
      forall i | 0 <= i < |s.g.th[u].got| ensures ReadOk(s', u, s.g.th[u].got[i]) {
        assert ReadOk(s, u, s.g.th[u].got[i]);
      }
    }
  }

  lemma UnlinkedRo(s: State, n: NodeId, u: Tid)
    requires WfSizes(s) && IndexOk(s.c) && n < |s.c.nodes| && s.c.nodes[n].value == LogicalDelete
    requires u < |s.c.threads| && RoOk(s, u)
    requires InRo(s.c.threads[u].pc) ==> s.g.nodes[n].lastWrite < s.g.th[u].begin
    ensures RoOk(Unlinked(s, n), u)
  {
    var s' := Unlinked(s, n);
    if InRo(s.c.threads[u].pc) {
      var snap := s.c.threads[u].oldsnapshot;
      forall m, i | 0 <= m < |s.g.nodes| && 0 <= i < |s.g.nodes[m].hist| ensures Above(s', m, i) == Above(s, m, i) {}
      forall m | 0 <= m < |s.c.nodes| ensures SnapOf(s', m, snap) == SnapOf(s, m, snap) {}
      assert SnapOf(s, n, snap) == None;
    }
  }

  lemma UnlinkedRest(s: State, n: NodeId, u: Tid)
    requires WfSizes(s) && n < |s.c.nodes| && u < |s.c.threads|
    requires PoolsOk(s, u) && QueuedBefore(s, u) && ProtectOk(s, u) && HeldOk(s, u) && WaitOk(s, u)
    ensures var s' := Unlinked(s, n);
            PoolsOk(s', u) && QueuedBefore(s', u) && ProtectOk(s', u) && HeldOk(s', u) && WaitOk(s', u)
  {
    var s' := Unlinked(s, n);
    forall m, i | 0 <= m < |s.g.nodes| && 0 <= i < |s.g.nodes[m].hist|
      ensures VersionIntact(s', m, i) == VersionIntact(s, m, i)
    {}
    forall i | 0 <= i < |s.c.threads[u].rm| ensures RmOk(s', s.c.threads[u].rm[i]) {
      assert RmOk(s, s.c.threads[u].rm[i]);
    }
    SameWait(s, s', u);
  }

  lemma UnlinkedCore(s: State, n: NodeId)
    requires Core(s) && n < |s.c.nodes| && s.c.nodes[n].value == LogicalDelete && s.c.nodes[n].counter > 0
    requires forall u :: 0 <= u < |s.c.threads| && InRo(s.c.threads[u].pc) ==> s.g.nodes[n].lastWrite < s.g.th[u].begin
    ensures Core(Unlinked(s, n))
  {
    var s' := Unlinked(s, n);
    UnlinkedShared(s, n);
    forall u | 0 <= u < |s'.c.threads| ensures ThreadOk(s', u) {
      assert ThreadOk(s, u);
      UnlinkedRw(s, n, u);
      UnlinkedRo(s, n, u);
      UnlinkedRest(s, n, u);
      assert PcOk(s', u);
    }
  }

  /** Readers whose snapshot held the row began before the delete and have been waited for. */
  lemma RemoveKeeps(s: State, t: Tid)
    requires Core(s) && Enabled(s, RemoveOne(t))
    ensures Core(Removed(s, t))
  {
    hide StoreOk, ProtectOk, HeldOk, WritesOk, RwOk;
    var s1 := Update(s, t, s.c.threads[t].(rm := s.c.threads[t].rm[1..]), s.g.th[t]);
    var o := s.c.threads[t].rm[0];
    assert ThreadOk(s, t);
    assert s.g.th[t := s.g.th[t]] == s.g.th;
    PopKeeps(s, t);
    QueuedIsDeleted(s, t);
    if s.c.nodes[o.node].seqno == o.seqno {
      forall u | 0 <= u < |s.c.threads| && InRo(s1.c.threads[u].pc) ensures s.g.nodes[o.node].lastWrite < s.g.th[u].begin {
        assert ThreadOk(s, u);
        assert Passed(s, t, u);
      }
      UnlinkedCore(s1, o.node);
      assert RmOk(s, o);
      assert Removed(s, t) == Unlinked(s1, o.node);
    } else {
      assert Removed(s, t) == s1;
    }
  }

  lemma PopKeeps(s: State, t: Tid)
    requires Core(s) && Enabled(s, RemoveOne(t))
    ensures Core(Update(s, t, s.c.threads[t].(rm := s.c.threads[t].rm[1..]), s.g.th[t]))
  {
    hide IndexOk, StoreOk, ChainsOk, ProtectOk, HeldOk;
    var s' := Update(s, t, s.c.threads[t].(rm := s.c.threads[t].rm[1..]), s.g.th[t]);
    assert ThreadOk(s, t);
    assert PoolsOk(s', t) && QueuedBefore(s', t) by {
      forall i | 0 <= i < |s'.c.threads[t].rm| ensures s'.c.threads[t].rm[i] == s.c.threads[t].rm[i + 1] {}
    }
    KeepProtect(s, s', t);
    assert s'.c.threads[t].rcu == s.c.threads[t].rcu;
    SameWait(s, s', t);
    LocalCore(s, s', t);
  }
}
