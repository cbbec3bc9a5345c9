/** The write phase of a commit, one write-set entry at a time. */
module DbxCommit {
  import opened Common
  import opened DbxModel
  import opened DbxSteps
  import opened DbxInvariant
  import opened DbxLocal
  import opened DbxShared

  /** The node and the entry of the next write. */
  ghost predicate Writing(s: State, t: Tid) {
    && Core(s) && t < |s.c.threads| && s.c.threads[t].pc == Ready
    && s.c.threads[t].ws != []
    && CanWrite(s, t)
    && s.c.nodes[s.c.threads[t].ws[0].node].value != HaveRemoved
    && s.g.th[t].got == []
  }

  ghost predicate Pushes(s: State, n: NodeId)
    requires n < |s.c.nodes|
  {
    0 < s.c.nodes[n].counter < s.c.snapshot
  }

  /** Nodes, buffers and labels after writing entry e of thread t. */
  ghost predicate WroteNode(s: State, s': State, t: Tid, e: WsEntry) {
    && WfSizes(s) && WfSizes(s') && e.node < |s.c.nodes| == |s'.c.nodes|
    && var nd := s.c.nodes[e.node];
    && s'.c.mem == s.c.mem && s'.c.index == s.c.index && s'.c.snapshot == s.c.snapshot && !s'.c.failed
    && s'.g.time == s.g.time && s'.g.log == s.g.log && |s'.g.th| == |s.g.th|
    && (forall u :: 0 <= u < |s.g.th| ==> s'.g.th[u] == s.g.th[u].(wlog := s'.g.th[u].wlog))
    && s'.c.nodes == s.c.nodes[e.node :=
         MemNode(nd.key, e.val, nd.seqno + 1, s.c.snapshot, s'.c.nodes[e.node].prior)]
    && (forall p :: 0 <= p < |s.g.ptr| ==>
          s'.g.ptr[p] == if e.val == At(p) then Current(e.node)
                         else if nd.value == At(p) then Retired(t, s.g.time) else s.g.ptr[p])
  }

  /** The version chain after writing entry e: pushed under `id`, or left alone. */
  ghost predicate WroteChain(s: State, s': State, t: Tid, e: WsEntry, id: VerId)
    requires WroteNode(s, s', t, e)
  {
    var n, nd, hist := e.node, s.c.nodes[e.node], s.g.nodes[e.node].hist;
    if Pushes(s, n) then
      && s'.c.nodes[n].prior == Some(id)
      && |s.c.vers| <= |s'.c.vers| && id < |s'.c.vers|
      && (id < |s.c.vers| ==> s.g.ver[id] == VFree(t))
      && (forall v :: 0 <= v < |s.c.vers| && v != id ==> s'.c.vers[v] == s.c.vers[v] && s'.g.ver[v] == s.g.ver[v])
      && |s'.c.vers| <= |s.c.vers| + 1 && (|s'.c.vers| == |s.c.vers| + 1 ==> id == |s.c.vers|)
      && s'.c.vers[id] == OldVersion(nd.value, nd.counter, nd.prior)
      && s'.g.ver[id] == VRetired(t, n, |hist|)
      && s'.g.nodes == s.g.nodes[n := NodeAux(hist + [Past(id, nd.counter, nd.value, ContentOf(s.c, nd.value), s.g.time)], s.g.time)]
    else
      && s'.c.nodes[n].prior == nd.prior
      && s'.c.vers == s.c.vers && s'.g.ver == s.g.ver
      && s'.g.nodes == s.g.nodes[n := NodeAux(hist, s.g.time)]
  }

  ghost predicate WroteThread(s: State, s': State, t: Tid, e: WsEntry, id: VerId)
    requires WroteNode(s, s', t, e)
  {
    var nd := s.c.nodes[e.node];
    && t < |s.c.threads| == |s'.c.threads|
    && var th, th' := s.c.threads[t], s'.c.threads[t];
    && s'.c.threads == s.c.threads[t := th']
    && th.ws != [] && e == th.ws[0] && |s.g.th[t].wlog| > 0
    && s'.g.th == s.g.th[t := s.g.th[t].(wlog := s.g.th[t].wlog[1..])]
    && th' == th.(ws := th.ws[1..], gcVals := th'.gcVals, gcVers := th'.gcVers, freeVers := th'.freeVers, rm := th'.rm)
    && th'.gcVals == (if nd.value.At? then [nd.value.p] + th.gcVals else th.gcVals)
    && th'.rm == (if e.val == LogicalDelete && nd.value != LogicalDelete
                  then [RmObj(e.key, e.node, nd.seqno + 1)] + th.rm else th.rm)
    && (if Pushes(s, e.node)
        then th'.gcVers == [id] + th.gcVers
             && th'.freeVers == (if th.freeVers == [] then [] else th.freeVers[1..])
             && id == (if th.freeVers == [] then |s.c.vers| else th.freeVers[0])
        else th'.gcVers == th.gcVers && th'.freeVers == th.freeVers)
  }

  ghost predicate Wrote(s: State, s': State, t: Tid, e: WsEntry, id: VerId) {
    WroteNode(s, s', t, e) && WroteChain(s, s', t, e, id) && WroteThread(s, s', t, e, id)
  }

  lemma WriteNextWrites(s: State, t: Tid)
    requires CanWrite(s, t) && s.c.threads[t].ws != [] && !s.c.failed
    requires s.c.nodes[s.c.threads[t].ws[0].node].counter <= s.c.snapshot && s.c.snapshot > 0
    requires var th := s.c.threads[t]; th.freeVers != [] ==> s.g.ver[th.freeVers[0]] == VFree(t)
    ensures var th := s.c.threads[t];
            var id := if th.freeVers == [] then |s.c.vers| else th.freeVers[0];
            Wrote(s, WriteNext(s, t), t, th.ws[0], id)
  {
    var th := s.c.threads[t];
    var e := th.ws[0];
    var id := if th.freeVers == [] then |s.c.vers| else th.freeVers[0];
    var s' := WriteNext(s, t);
    assert s'.c.nodes[e.node].counter == s.c.snapshot;
    assert WroteNode(s, s', t, e);
    assert WroteChain(s, s', t, e, id);
    assert WroteThread(s, s', t, e, id);
  }

  // ----- One write keeps the shared part -----

  /** The buffer being replaced is no past version's buffer of this very instant. */
  lemma ReplacedIsNotPast(s: State, s': State, t: Tid, e: WsEntry, m: NodeId, i: nat)
    requires WroteNode(s, s', t, e) && t < |s.c.threads| && NodeOk(s, e.node)
    requires !s.c.threads[t].rcu.ended && s.g.th[t].begin <= s.g.time && ProtectOk(s, t)
    requires m < |s.g.nodes| && i < |s.g.nodes[m].hist|
    requires e.val.At? ==> e.val.p < |s.g.ptr| && s.g.ptr[e.val.p] == Pending(t)
    requires s.g.nodes[m].hist[i].value.At? ==> s.g.nodes[m].hist[i].value.p < |s.g.ptr|
    ensures s.g.nodes[m].hist[i].value.At? ==>
              ValueIntact(s', s.g.nodes[m].hist[i]) == ValueIntact(s, s.g.nodes[m].hist[i])
  {
    var h := s.g.nodes[m].hist[i];
    if h.value.At? && h.at >= s.g.th[t].begin {
      assert ValueIntact(s, h);
    }
  }

  lemma WroteOldPast(s: State, s': State, t: Tid, e: WsEntry, id: VerId, m: NodeId, i: nat)
    requires Wrote(s, s', t, e, id) && NodeOk(s, e.node)
    requires m < |s.g.nodes| && i < |s.g.nodes[m].hist| && PastOk(s, m, i)
    requires !s.c.threads[t].rcu.ended && s.g.th[t].begin <= s.g.time && ProtectOk(s, t)
    requires e.val.At? ==> e.val.p < |s.g.ptr| && s.g.ptr[e.val.p] == Pending(t)
    ensures PastOk(s', m, i) && Above(s', m, i) == Above(s, m, i)
    ensures VersionIntact(s', m, i) == VersionIntact(s, m, i)
    ensures s.g.nodes[m].hist[i].value.At? ==>
              ValueIntact(s', s.g.nodes[m].hist[i]) == ValueIntact(s, s.g.nodes[m].hist[i])
  {
    ReplacedIsNotPast(s, s', t, e, m, i);
    assert s'.g.nodes[m].hist[i] == s.g.nodes[m].hist[i];
    assert LinkTo(s'.g.nodes[m].hist, i) == LinkTo(s.g.nodes[m].hist, i);
    assert Above(s', m, i) == Above(s, m, i);
    assert VersionIntact(s', m, i) == VersionIntact(s, m, i);
  }

  lemma WroteNewPast(s: State, s': State, t: Tid, e: WsEntry, id: VerId)
    requires Wrote(s, s', t, e, id) && NodeOk(s, e.node) && Pushes(s, e.node)
    requires e.val.At? ==> e.val.p < |s.g.ptr| && s.g.ptr[e.val.p] == Pending(t)
    ensures var i := |s.g.nodes[e.node].hist|;
            && i < |s'.g.nodes[e.node].hist|
            && PastOk(s', e.node, i) && VersionIntact(s', e.node, i)
            && ValueIntact(s', s'.g.nodes[e.node].hist[i])
            && Above(s', e.node, i) == s.c.snapshot
  {
    var i := |s.g.nodes[e.node].hist|;
    var hist := s'.g.nodes[e.node].hist;
    assert hist[..i] == s.g.nodes[e.node].hist;
    assert LinkTo(hist, i) == s.c.nodes[e.node].prior;
  }

  lemma WroteStore(s: State, s': State, t: Tid, e: WsEntry, w: Write)
    requires WroteNode(s, s', t, e) && IndexOk(s.c) && StoreOk(s)
    requires s.c.nodes[e.node].value != HaveRemoved && e.val != HaveRemoved
    requires EntryOk(s, t, e, w) && s'.g.store == ApplyWrite(s.g.store, w)
    ensures IndexOk(s'.c) && StoreOk(s')
  {
    forall n | 0 <= n < |s.c.nodes| ensures s'.c.nodes[n].key == s.c.nodes[n].key {}
  }

  lemma WroteNodes(s: State, s': State, t: Tid, e: WsEntry, id: VerId)
    requires Wrote(s, s', t, e, id)
    requires forall n :: 0 <= n < |s.c.nodes| ==> NodeOk(s, n)
    requires e.val.At? ==> e.val.p < |s.g.ptr| && s.g.ptr[e.val.p] == Pending(t)
    requires s.c.snapshot > 0
    ensures forall n :: 0 <= n < |s'.c.nodes| ==> NodeOk(s', n)
  {
    forall n | 0 <= n < |s'.c.nodes| ensures NodeOk(s', n) {
      assert NodeOk(s, n) && NodeOk(s, e.node);
    }
  }

  lemma WroteOwners(s: State, s': State, t: Tid, e: WsEntry, id: VerId)
    requires Wrote(s, s', t, e, id) && ChainsOk(s)
    ensures forall v :: 0 <= v < |s'.g.ver| && s'.g.ver[v].VRetired? ==>
              && s'.g.ver[v].n < |s'.g.nodes|
              && s'.g.ver[v].i < |s'.g.nodes[s'.g.ver[v].n].hist|
              && s'.g.nodes[s'.g.ver[v].n].hist[s'.g.ver[v].i].id == v
  {
    forall v | 0 <= v < |s'.g.ver| && s'.g.ver[v].VRetired?
      ensures && s'.g.ver[v].n < |s'.g.nodes|
              && s'.g.ver[v].i < |s'.g.nodes[s'.g.ver[v].n].hist|
              && s'.g.nodes[s'.g.ver[v].n].hist[s'.g.ver[v].i].id == v
    {
      if v < |s.g.ver| && !(Pushes(s, e.node) && v == id) {
        assert s'.g.ver[v] == s.g.ver[v];
      }
    }
  }

  lemma WrotePasts(s: State, s': State, t: Tid, e: WsEntry, id: VerId)
    requires Wrote(s, s', t, e, id) && ChainsOk(s)
    requires !s.c.threads[t].rcu.ended && s.g.th[t].begin <= s.g.time && ProtectOk(s, t)
    requires e.val.At? ==> e.val.p < |s.g.ptr| && s.g.ptr[e.val.p] == Pending(t)
    ensures forall m, i :: 0 <= m < |s'.g.nodes| && 0 <= i < |s'.g.nodes[m].hist| ==> PastOk(s', m, i)
  {
    assert NodeOk(s, e.node);
    forall m, i | 0 <= m < |s'.g.nodes| && 0 <= i < |s'.g.nodes[m].hist| ensures PastOk(s', m, i) {
      if i < |s.g.nodes[m].hist| {
        assert PastOk(s, m, i);
        WroteOldPast(s, s', t, e, id, m, i);
      } else {
        WroteNewPast(s, s', t, e, id);
      }
    }
  }

  lemma WroteShared(s: State, s': State, t: Tid, e: WsEntry, id: VerId, w: Write)
    requires Wrote(s, s', t, e, id) && SharedOk(s)
    requires !s.c.threads[t].rcu.ended && s.g.th[t].begin <= s.g.time && ProtectOk(s, t)
    requires s.c.nodes[e.node].value != HaveRemoved
    requires EntryOk(s, t, e, w) && s'.g.store == ApplyWrite(s.g.store, w)
    ensures SharedOk(s')
  {
    WroteStore(s, s', t, e, w);
    WroteNodes(s, s', t, e, id);
    WroteOwners(s, s', t, e, id);
    WrotePasts(s, s', t, e, id);
  }

  // ----- One write keeps every thread -----

  lemma WroteRw(s: State, s': State, t: Tid, e: WsEntry, u: Tid)
    requires WroteNode(s, s', t, e) && u < |s.c.threads| == |s'.c.threads|
    requires s'.c.threads[u].pc == s.c.threads[u].pc && s'.c.threads[u].rs == s.c.threads[u].rs
    requires s.c.threads[u].pc == Ready || s'.c.threads[u].ws == s.c.threads[u].ws
    requires s.g.th[u].got == [] || s'.g.th[u].wlog == s.g.th[u].wlog
    requires RwOk(s, u)
    ensures RwOk(s', u)
  {
    if InRw(s.c.threads[u].pc) {
      forall i | 0 <= i < |s.c.threads[u].rs| ensures RsOk(s', s.c.threads[u].rs[i]) {
        assert RsOk(s, s.c.threads[u].rs[i]);
      }
      forall i | 0 <= i < |s.g.th[u].got| ensures ReadOk(s', u, s.g.th[u].got[i]) {
        var r := s.g.th[u].got[i];
        assert ReadOk(s, u, r);
        if r.src.Some? {
          assert r.src.value in s.c.threads[u].rs;
          var j :| 0 <= j < |s.c.threads[u].rs| && s.c.threads[u].rs[j] == r.src.value;
          assert RsOk(s, s.c.threads[u].rs[j]);
        }
      }
      var pc, rs := s.c.threads[u].pc, s.c.threads[u].rs;
      if pc.GetChecked? {
        assert RsOk(s, rs[|rs| - 1]);
      }
    }
  }

  lemma WroteWrites(s: State, s': State, t: Tid, e: WsEntry, id: VerId, u: Tid)
    requires Wrote(s, s', t, e, id) && u < |s.c.threads| && NodeOk(s, e.node) && WritesOk(s, u) && WritesOk(s, t)
    ensures WritesOk(s', u)
  {
    var ws, wlog := s.c.threads[u].ws, s.g.th[u].wlog;
    var ws', wlog' := s'.c.threads[u].ws, s'.g.th[u].wlog;
    var d := |ws| - |ws'|;
    assert EntryOk(s, t, s.c.threads[t].ws[0], s.g.th[t].wlog[0]);
    forall j | 0 <= j < |ws'| ensures ws'[j] == ws[j + d] && EntryOk(s', u, ws'[j], wlog'[j]) {
      assert ws'[j] == ws[j + d] && wlog'[j] == wlog[j + d];
      assert EntryOk(s, u, ws[j + d], wlog[j + d]);
    }
  }

  lemma WroteRo(s: State, s': State, t: Tid, e: WsEntry, id: VerId, u: Tid)
    requires Wrote(s, s', t, e, id) && u < |s.c.threads| && u != t && NodeOk(s, e.node) && RoOk(s, u) && IndexOk(s.c)
    requires s.g.th[u].begin <= s.g.time && e.val != HaveRemoved
    ensures RoOk(s', u)
  {
    assert s'.c.threads[u] == s.c.threads[u];
    if InRo(s.c.threads[u].pc) {
      var snap := s.c.threads[u].oldsnapshot;
      var hist := s.g.nodes[e.node].hist;
      forall m | 0 <= m < |s.c.nodes| ensures SnapOf(s', m, snap) == SnapOf(s, m, snap) {
        if m == e.node && Pushes(s, m) {
          assert s'.g.nodes[m].hist[..|hist|] == hist;
        }
      }
      forall m, i | 0 <= m < |s'.g.nodes| && 0 <= i < |s'.g.nodes[m].hist| && Above(s', m, i) > snap
        ensures s'.g.nodes[m].hist[i].at >= s'.g.th[u].begin
      {
        if i < |s.g.nodes[m].hist| {
          assert Above(s', m, i) == Above(s, m, i);
        }
      }
    }
  }

  lemma WroteProtect(s: State, s': State, t: Tid, e: WsEntry, id: VerId, u: Tid)
    requires Wrote(s, s', t, e, id) && u < |s.c.threads| && ProtectOk(s, u) && HeldOk(s, u) && NodeOk(s, e.node)
    requires s.g.th[u].begin <= s.g.time
    requires e.val.At? ==> e.val.p < |s.g.ptr| && s.g.ptr[e.val.p] == Pending(t)
    requires s'.c.threads[u].rcu == s.c.threads[u].rcu
    ensures ProtectOk(s', u) && HeldOk(s', u)
  {
    if !s.c.threads[u].rcu.ended {
      forall m, i | 0 <= m < |s'.g.nodes| && 0 <= i < |s'.g.nodes[m].hist| && s'.g.nodes[m].hist[i].at >= s.g.th[u].begin
        ensures VersionIntact(s', m, i) && ValueIntact(s', s'.g.nodes[m].hist[i])
      {
        if i < |s.g.nodes[m].hist| {
          assert s'.g.nodes[m].hist[i] == s.g.nodes[m].hist[i];
          assert VersionIntact(s, m, i) && ValueIntact(s, s.g.nodes[m].hist[i]);
        } else {
          WroteNewPast(s, s', t, e, id);
        }
      }
    }
  }

  lemma WrotePoolsOther(s: State, s': State, t: Tid, e: WsEntry, id: VerId, u: Tid)
    requires Wrote(s, s', t, e, id) && u < |s.c.threads| && u != t && NodeOk(s, e.node) && PoolsOk(s, u)
    requires e.val.At? ==> e.val.p < |s.g.ptr| && s.g.ptr[e.val.p] == Pending(t)
    ensures PoolsOk(s', u)
  {
    assert s'.c.threads[u] == s.c.threads[u];
    var th := s.c.threads[u];
    forall i | 0 <= i < |th.rm| ensures RmOk(s', th.rm[i]) {
      assert RmOk(s, th.rm[i]);
    }
  }

  lemma WroteQueuedOther(s: State, s': State, t: Tid, e: WsEntry, id: VerId, u: Tid)
    requires Wrote(s, s', t, e, id) && u < |s.c.threads| && u != t && ChainsOk(s)
    requires PoolsOk(s, u) && QueuedBefore(s, u)
    requires e.val.At? ==> e.val.p < |s.g.ptr| && s.g.ptr[e.val.p] == Pending(t)
    ensures QueuedBefore(s', u)
  {
    hide PastOk, Distinct;
    assert s'.c.threads[u] == s.c.threads[u] && NodeOk(s, e.node);
    var th := s.c.threads[u];
    forall i | 0 <= i < |th.gcVers|
      ensures s'.g.ver[th.gcVers[i]] == s.g.ver[th.gcVers[i]]
              && var o := s.g.ver[th.gcVers[i]]; s'.g.nodes[o.n].hist[o.i] == s.g.nodes[o.n].hist[o.i]
    {}
    forall i | 0 <= i < |th.rm| ensures s'.c.nodes[th.rm[i].node].seqno == th.rm[i].seqno ==> th.rm[i].node != e.node {
      assert RmOk(s, th.rm[i]);
    }
  }

  /** A queued removal stays good when its row is written. */
  lemma WroteRm(s: State, s': State, t: Tid, e: WsEntry, o: RmObj)
    requires WroteNode(s, s', t, e) && RmOk(s, o)
    ensures RmOk(s', o)
  {}

  lemma WroteRmOwn(s: State, s': State, t: Tid, e: WsEntry, id: VerId)
    requires Wrote(s, s', t, e, id) && s.c.snapshot > 0 && s.c.nodes[e.node].key == e.key
    requires forall i :: 0 <= i < |s.c.threads[t].rm| ==> RmOk(s, s.c.threads[t].rm[i])
    ensures forall i :: 0 <= i < |s'.c.threads[t].rm| ==> RmOk(s', s'.c.threads[t].rm[i])
  {
    var rm, rm', nd := s.c.threads[t].rm, s'.c.threads[t].rm, s.c.nodes[e.node];
    var adds, o := e.val == LogicalDelete && nd.value != LogicalDelete, RmObj(e.key, e.node, nd.seqno + 1);
    assert rm' == if adds then [o] + rm else rm;
    assert adds ==> RmOk(s', o);
    hide Wrote, RmOk, WroteChain, WroteThread;
    forall i | 0 <= i < |rm'| ensures RmOk(s', rm'[i]) {
      var j := if adds then i - 1 else i;
      if j >= 0 { WroteRm(s, s', t, e, rm[j]); }
    }
  }

  lemma DistinctCons<T>(x: T, a: seq<T>)
    requires Distinct(a) && x !in a
    ensures Distinct([x] + a)
  {}

  ghost predicate ValsOwned(ptr: seq<Owner>, time: nat, t: Tid, free: seq<Ptr>, gc: seq<Ptr>) {
    && Distinct(free) && Distinct(gc)
    && (forall i :: 0 <= i < |free| ==> free[i] < |ptr| && ptr[free[i]] == Free(t))
    && (forall i :: 0 <= i < |gc| ==>
          gc[i] < |ptr| && ptr[gc[i]].Retired? && ptr[gc[i]].t == t && ptr[gc[i]].at <= time)
  }

  /** Installing one pending buffer and retiring one current buffer leaves the others alone. */
  lemma ValsKept(ptr: seq<Owner>, ptr': seq<Owner>, time: nat, t: Tid, free: seq<Ptr>, gc: seq<Ptr>)
    requires ValsOwned(ptr, time, t, free, gc) && |ptr'| == |ptr|
    requires forall p :: 0 <= p < |ptr| && !ptr[p].Pending? && !ptr[p].Current? ==> ptr'[p] == ptr[p]
    ensures ValsOwned(ptr', time, t, free, gc)
  {}

  lemma ValsQueued(ptr: seq<Owner>, time: nat, t: Tid, free: seq<Ptr>, gc: seq<Ptr>, p: Ptr)
    requires ValsOwned(ptr, time, t, free, gc) && p < |ptr| && ptr[p] == Retired(t, time) && p !in gc
    ensures ValsOwned(ptr, time, t, free, [p] + gc)
  {
    DistinctCons(p, gc);
  }

  lemma WroteBuffers(s: State, s': State, t: Tid, e: WsEntry)
    requires WroteNode(s, s', t, e) && NodeOk(s, e.node)
    requires e.val.At? ==> e.val.p < |s.g.ptr| && s.g.ptr[e.val.p] == Pending(t)
    ensures forall p :: 0 <= p < |s.g.ptr| && !s.g.ptr[p].Pending? && !s.g.ptr[p].Current? ==> s'.g.ptr[p] == s.g.ptr[p]
    ensures s.c.nodes[e.node].value.At? ==>
              var p := s.c.nodes[e.node].value.p;
              p < |s.g.ptr| && s.g.ptr[p].Current? && s'.g.ptr[p] == Retired(t, s.g.time)
  {}

  lemma WroteValsOwn(s: State, s': State, t: Tid, e: WsEntry, id: VerId)
    requires Wrote(s, s', t, e, id) && NodeOk(s, e.node)
    requires e.val.At? ==> e.val.p < |s.g.ptr| && s.g.ptr[e.val.p] == Pending(t)
    requires ValsOwned(s.g.ptr, s.g.time, t, s.c.threads[t].freeVals, s.c.threads[t].gcVals)
    ensures ValsOwned(s'.g.ptr, s'.g.time, t, s'.c.threads[t].freeVals, s'.c.threads[t].gcVals)
  {
    var th, v := s.c.threads[t], s.c.nodes[e.node].value;
    WroteBuffers(s, s', t, e);
    assert v.At? ==> v.p !in th.gcVals;
    hide ValsOwned, WroteChain, NodeOk;
    ValsKept(s.g.ptr, s'.g.ptr, s.g.time, t, th.freeVals, th.gcVals);
    if v.At? {
      ValsQueued(s'.g.ptr, s.g.time, t, th.freeVals, th.gcVals, v.p);
    }
  }

  ghost predicate VersOwned(ver: seq<VOwner>, t: Tid, free: seq<VerId>, gc: seq<VerId>) {
    && Distinct(free) && Distinct(gc)
    && (forall i :: 0 <= i < |free| ==> free[i] < |ver| && ver[free[i]] == VFree(t))
    && (forall i :: 0 <= i < |gc| ==> gc[i] < |ver| && ver[gc[i]].VRetired? && ver[gc[i]].t == t)
  }

  /** A version taken from the free list, or a new one, goes to the queue. */
  lemma VersMoved(ver: seq<VOwner>, ver': seq<VOwner>, t: Tid, free: seq<VerId>, gc: seq<VerId>, id: VerId)
    requires VersOwned(ver, t, free, gc) && |ver| <= |ver'| && id < |ver'|
    requires if free == [] then id == |ver| else id == free[0]
    requires ver'[id].VRetired? && ver'[id].t == t
    requires forall v :: 0 <= v < |ver| && v != id ==> ver'[v] == ver[v]
    ensures VersOwned(ver', t, if free == [] then [] else free[1..], [id] + gc)
  {
    DistinctCons(id, gc);
  }

  lemma WroteVersOwn(s: State, s': State, t: Tid, e: WsEntry, id: VerId)
    requires Wrote(s, s', t, e, id) && VersOwned(s.g.ver, t, s.c.threads[t].freeVers, s.c.threads[t].gcVers)
    ensures VersOwned(s'.g.ver, t, s'.c.threads[t].freeVers, s'.c.threads[t].gcVers)
  {
    hide VersOwned;
    if Pushes(s, e.node) {
      var th := s.c.threads[t];
      FreshVersion(s, s', t, e, id);
      VersMoved(s.g.ver, s'.g.ver, t, th.freeVers, th.gcVers, id);
    }
  }

  lemma FreshVersion(s: State, s': State, t: Tid, e: WsEntry, id: VerId)
    requires Wrote(s, s', t, e, id) && Pushes(s, e.node)
    requires VersOwned(s.g.ver, t, s.c.threads[t].freeVers, s.c.threads[t].gcVers)
    ensures if s.c.threads[t].freeVers == [] then id == |s.g.ver| else id == s.c.threads[t].freeVers[0]
  {}

  /** PoolsOk by its parts. */
  lemma PoolsParts(s: State, t: Tid)
    requires WfSizes(s) && t < |s.c.threads|
    ensures var th := s.c.threads[t];
            PoolsOk(s, t) <==>
              && ValsOwned(s.g.ptr, s.g.time, t, th.freeVals, th.gcVals)
              && VersOwned(s.g.ver, t, th.freeVers, th.gcVers)
              && forall i :: 0 <= i < |th.rm| ==> RmOk(s, th.rm[i])
  {
    hide RmOk, WfSizes;
  }

  lemma WrotePoolsOwn(s: State, s': State, t: Tid, e: WsEntry, id: VerId)
    requires Wrote(s, s', t, e, id) && NodeOk(s, e.node) && s.c.snapshot > 0
    requires PoolsOk(s, t) && s.c.nodes[e.node].key == e.key && s.c.threads[t].pc == Ready
    requires e.val.At? ==> e.val.p < |s.g.ptr| && s.g.ptr[e.val.p] == Pending(t)
    ensures PoolsOk(s', t) && QueuedBefore(s', t)
  {
    hide ValsOwned, VersOwned, PoolsOk, NodeOk, WroteChain, RmOk;
    PoolsParts(s, t);
    PoolsParts(s', t);
    WroteRmOwn(s, s', t, e, id);
    WroteValsOwn(s, s', t, e, id);
    WroteVersOwn(s, s', t, e, id);
  }

  // ----- One write, then all of them -----

  lemma WriteNextKeeps(s: State, t: Tid)
    requires Writing(s, t)
    ensures Core(WriteNext(s, t))
  {
    var s' := WriteNext(s, t);
    var th := s.c.threads[t];
    var e := th.ws[0];
    var w := s.g.th[t].wlog[0];
    var id := if th.freeVers == [] then |s.c.vers| else th.freeVers[0];
    assert ThreadOk(s, t);
    assert NodeOk(s, e.node);
    assert EntryOk(s, t, e, w);
    WriteNextWrites(s, t);
    WroteShared(s, s', t, e, id, w);
    forall u | 0 <= u < |s'.c.threads| ensures ThreadOk(s', u) {
      assert ThreadOk(s, u);
      WroteAny(s, s', t, e, id, u);
    }
  }

  /** What a thread has outside its pools and sets stays as it was. */
  lemma WroteFrame(s: State, s': State, t: Tid, e: WsEntry, id: VerId, u: Tid)
    requires Wrote(s, s', t, e, id) && u < |s.c.threads| && PcOk(s, u) && WaitOk(s, u) && s.c.threads[t].pc == Ready
    ensures PcOk(s', u) && WaitOk(s', u)
    ensures s'.c.threads[u].pc == s.c.threads[u].pc && s'.c.threads[u].rs == s.c.threads[u].rs
    ensures s'.c.threads[u].rcu == s.c.threads[u].rcu && s.g.th[u].begin <= s.g.time
    ensures u != t ==> s'.c.threads[u].ws == s.c.threads[u].ws && s'.g.th[u].wlog == s.g.th[u].wlog
  {
    SameWait(s, s', u);
  }

  lemma WroteAny(s: State, s': State, t: Tid, e: WsEntry, id: VerId, u: Tid)
    requires Wrote(s, s', t, e, id) && SharedOk(s) && u < |s.c.threads| && ThreadOk(s, u) && ThreadOk(s, t)
    requires NodeOk(s, e.node)
    requires s.c.threads[t].pc == Ready && s.g.th[t].got == [] && s.c.nodes[e.node].key == e.key && e.val != HaveRemoved
    requires e.val.At? ==> e.val.p < |s.g.ptr| && s.g.ptr[e.val.p] == Pending(t)
    ensures ThreadOk(s', u)
  {
    hide NodeOk, ChainsOk, IndexOk, StoreOk, WroteChain, WroteThread;
    hide PcOk, PoolsOk, QueuedBefore, WaitOk, ProtectOk, HeldOk, WritesOk, RwOk;
    WroteFrame(s, s', t, e, id, u);
    if u == t {
      WrotePoolsOwn(s, s', t, e, id);
    } else {
      WrotePoolsOther(s, s', t, e, id, u);
      WroteQueuedOther(s, s', t, e, id, u);
      WroteRo(s, s', t, e, id, u);
    }
    WroteRw(s, s', t, e, u);
    WroteWrites(s, s', t, e, id, u);
    WroteProtect(s, s', t, e, id, u);
  }

  ghost predicate ReadyToWrite(s: State, t: Tid) {
    && Core(s) && t < |s.c.threads| && s.c.threads[t].pc == Ready && CanWrite(s, t)
    && CheckWriteSet(s.c.nodes, s.c.threads[t].ws) && s.g.th[t].got == []
  }

  /** Part of a write set has reached the store. */
  ghost predicate WrotePart(s: State, s': State, done: seq<Write>) {
    s'.g.log == s.g.log && s'.g.store == Apply(s.g.store, done)
  }

  lemma WriteNextStep(s: State, t: Tid)
    requires ReadyToWrite(s, t) && s.c.threads[t].ws != []
    ensures var s' := WriteNext(s, t);
            && ReadyToWrite(s', t)
            && WrotePart(s, s', [s.g.th[t].wlog[0]]) && s'.g.th[t].wlog == s.g.th[t].wlog[1..]
  {
    var ws, wlog := s.c.threads[t].ws, s.g.th[t].wlog;
    var s1 := WriteNext(s, t);
    assert ThreadOk(s, t);
    assert EntryOk(s, t, ws[0], wlog[0]);
    assert NodeOk(s, ws[0].node);
    WriteNextKeeps(s, t);
    WriteNextWrites(s, t);
    forall e | e in s1.c.threads[t].ws ensures e.node < |s1.c.nodes| && s1.c.nodes[e.node].value != HaveRemoved {
      assert e in ws;
    }
    var w := wlog[0];
    assert Apply(s.g.store, [w]) == ApplyWrite(s.g.store, w) by { ApplyFirst(s.g.store, w, []); }
  }

  /** All write-set nodes are present, and stay so. */
  lemma WriteAllKeeps(s: State, t: Tid)
    requires ReadyToWrite(s, t)
    ensures var s' := WriteAll(s, t);
            && ReadyToWrite(s', t)
            && WrotePart(s, s', s.g.th[t].wlog)
    decreases |s.c.threads[t].ws|
  {
    hide Core, WriteNext;
    var ws, wlog := s.c.threads[t].ws, s.g.th[t].wlog;
    if ws != [] {
      WriteNextStep(s, t);
      var s1 := WriteNext(s, t);
      WriteAllKeeps(s1, t);
      var w, rest := wlog[0], wlog[1..];
      WroteParts(s, s1, WriteAll(s1, t), w, rest);
      assert wlog == [w] + rest;
    }
  }

  lemma WroteParts(s: State, s1: State, s2: State, w: Write, rest: seq<Write>)
    requires WrotePart(s, s1, [w]) && WrotePart(s1, s2, rest)
    ensures WrotePart(s, s2, [w] + rest)
  {
    ApplyFirst(s.g.store, w, rest);
    ApplyFirst(s.g.store, w, []);
    assert [w] + [] == [w];
  }

  lemma ApplyFirst(m: map<Key, Content>, w: Write, ws: seq<Write>)
    ensures Apply(m, [w] + ws) == Apply(ApplyWrite(m, w), ws)
  {
    if |ws| == 0 {
      assert ([w] + ws)[..0] == [] && [w] + ws == [w];
    } else {
      assert ([w] + ws)[..|ws|] == [w] + ws[..|ws| - 1];
      ApplyFirst(m, w, ws[..|ws| - 1]);
    }
  }

  /** Logging the commit only advances the clock and forgets the recorded reads. */
  lemma SealedKeeps(s: State, t: Tid)
    requires Core(s) && t < |s.c.threads| && s.c.threads[t].pc == Ready
    ensures Core(Sealed(s, t))
  {
    var s' := Sealed(s, t);
    assert s.c.threads[t := s.c.threads[t]] == s.c.threads;
    assert ThreadOk(s, t);
    KeepPools(s, s', t);
    KeepProtect(s, s', t);
    KeepWrites(s, s', t);
    assert RwOk(s', t) by {
      forall i | 0 <= i < |s'.c.threads[t].rs| ensures RsOk(s', s'.c.threads[t].rs[i]) {
        assert RsOk(s, s.c.threads[t].rs[i]);
      }
    }
    LocalCore(s, s', t);
  }

  /** The overlay of own writes on the store, key by key. */
  lemma ApplyLast(m: map<Key, Content>, ws: seq<Write>, k: Key)
    ensures Find(Apply(m, ws), k) == if LastOf(ws, k).Some? then LastOf(ws, k).value else Find(m, k)
  {
    if |ws| > 0 {
      ApplyLast(m, ws[..|ws| - 1], k);
    }
  }

  /** Validation makes every recorded read the one a sequential run would make now. */
  lemma ValidatedReads(s: State, t: Tid)
    requires Core(s) && t < |s.c.threads| && s.c.threads[t].pc == Ready && Validate(s.c.nodes, s.c.threads[t].rs)
    ensures ReadsExplained(Commit(s.g.th[t].wlog, s.g.th[t].got), s.g.store)
  {
    assert ThreadOk(s, t);
    var wlog, got := s.g.th[t].wlog, s.g.th[t].got;
    forall r | r in got
      ensures r.upto <= |wlog| && r.res == Expect(Apply(s.g.store, wlog[..r.upto]), r.k)
    {
      var i :| 0 <= i < |got| && got[i] == r;
      assert ReadOk(s, t, got[i]);
      ApplyLast(s.g.store, wlog[..r.upto], r.k);
      if r.src.Some? {
        var rs := s.c.threads[t].rs;
        var j :| 0 <= j < |rs| && rs[j] == r.src.value;
        assert RsOk(s, rs[j]);
      }
    }
  }

  lemma CommitKeeps(s: State, t: Tid)
    requires Inv(s) && Enabled(s, EndCommit(t))
    ensures Inv(Committed(s, t))
  {
    var c := Commit(s.g.th[t].wlog, s.g.th[t].got);
    var s0 := Sealed(s, t);
    SealedKeeps(s, t);
    WriteAllKeeps(s0, t);
    EndKeeps(WriteAll(s0, t), Committed(s, t), t);
    ValidatedReads(s, t);
    LogGrows(s.g.log, c);
    ReplayGrows(s.g.log, c);
  }

  lemma EndKeeps(s: State, s': State, t: Tid)
    requires Core(s) && t < |s.c.threads| && s.c.threads[t].pc == Ready && s.c.threads[t].ws == [] && s.g.th[t].got == []
    requires s' == Update(s, t, s.c.threads[t].(pc := Ending, rs := []), s.g.th[t])
    ensures Core(s')
  {
    assert ThreadOk(s, t);
    KeepPools(s, s', t);
    KeepProtect(s, s', t);
    LocalCore(s, s', t);
  }

  lemma LogGrows(log: seq<Commit>, c: Commit)
    requires Serializable(log) && ReadsExplained(c, Replay(log))
    ensures Serializable(log + [c])
  {
    var log' := log + [c];
    forall i | 0 <= i < |log'| ensures ReadsExplained(log'[i], Replay(log'[..i])) {
      if i < |log| {
        assert log'[..i] == log[..i];
        assert ReadsExplained(log[i], Replay(log[..i]));
      } else {
        assert log'[..i] == log;
      }
    }
  }

  lemma ReplayGrows(log: seq<Commit>, c: Commit)
    ensures Replay(log + [c]) == Apply(Replay(log), c.writes)
  {
    assert (log + [c])[..|log|] == log;
  }
}
