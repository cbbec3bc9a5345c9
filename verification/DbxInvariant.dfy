/** What every reachable state of the DBX protocol machine satisfies. */
module DbxInvariant {
  import opened Common
  import opened DbxModel
  import opened DbxSteps

  function Find(m: map<Key, Content>, k: Key): Option<Content> {
    if k in m then Some(m[k]) else None
  }

  // ----- Index, nodes and version chains -----

  /** The index holds exactly the nodes that have not been removed, under their own keys. */
  ghost predicate IndexOk(c: Conc) {
    && (forall k :: k in c.index ==>
          c.index[k] < |c.nodes| && c.nodes[c.index[k]].key == k && c.nodes[c.index[k]].value != HaveRemoved)
    && (forall n :: 0 <= n < |c.nodes| && c.nodes[n].value != HaveRemoved ==>
          c.nodes[n].key in c.index && c.index[c.nodes[n].key] == n)
  }

  /** The abstract store is what the index and the current values say. */
  ghost predicate StoreOk(s: State) {
    && (forall k :: k in s.c.index && s.c.index[k] < |s.c.nodes| ==>
          Find(s.g.store, k) == ContentOf(s.c, s.c.nodes[s.c.index[k]].value))
    && (forall k :: k in s.g.store ==> k in s.c.index)
  }

  /** The counter of the version just above record i of node n. */
  ghost function Above(s: State, n: NodeId, i: nat): nat
    requires n < |s.c.nodes| == |s.g.nodes| && i < |s.g.nodes[n].hist|
  {
    if i + 1 < |s.g.nodes[n].hist| then s.g.nodes[n].hist[i + 1].counter else s.c.nodes[n].counter
  }

  ghost function LinkTo(hist: seq<Past>, i: nat): Option<VerId>
    requires i <= |hist|
  {
    if i == 0 then None else Some(hist[i - 1].id)
  }

  /** Record i of node n still owns its old-version node. */
  ghost predicate VersionIntact(s: State, n: NodeId, i: nat)
    requires WfSizes(s) && n < |s.g.nodes| && i < |s.g.nodes[n].hist|
  {
    var id := s.g.nodes[n].hist[i].id;
    id < |s.g.ver| && s.g.ver[id].VRetired? && s.g.ver[id].n == n && s.g.ver[id].i == i
  }

  /** The value buffer of a past version has not been handed back. */
  ghost predicate ValueIntact(s: State, h: Past)
  {
    h.value.At? ==> h.value.p < |s.g.ptr| && s.g.ptr[h.value.p].Retired? && s.g.ptr[h.value.p].at == h.at
  }

  ghost predicate PastOk(s: State, n: NodeId, i: nat)
    requires WfSizes(s) && n < |s.g.nodes| && i < |s.g.nodes[n].hist|
  {
    var h := s.g.nodes[n].hist[i];
    && 0 < h.counter < Above(s, n, i)
    && h.at <= s.g.time
    && h.id < |s.c.vers|
    && (h.value.At? ==> h.value.p < |s.c.mem|)
    && (VersionIntact(s, n, i) ==>
          s.c.vers[h.id] == OldVersion(h.value, h.counter, LinkTo(s.g.nodes[n].hist, i)))
    && (h.value.At? && ValueIntact(s, h) ==> h.content == Some(s.c.mem[h.value.p]))
    && (!h.value.At? ==> h.content == None)
  }

  ghost predicate NodeOk(s: State, n: NodeId)
    requires WfSizes(s) && n < |s.c.nodes|
  {
    var nd := s.c.nodes[n];
    var na := s.g.nodes[n];
    && nd.counter <= s.c.snapshot
    && (nd.counter == 0 ==> nd.value == LogicalDelete && na.hist == [])
    && nd.prior == LinkTo(na.hist, |na.hist|)
    && na.lastWrite <= s.g.time
    && (nd.value.At? ==> nd.value.p < |s.c.mem| && s.g.ptr[nd.value.p] == Current(n))
  }

  ghost predicate ChainsOk(s: State)
    requires WfSizes(s)
  {
    && (forall n :: 0 <= n < |s.c.nodes| ==> NodeOk(s, n))
    && (forall n, i :: 0 <= n < |s.g.nodes| && 0 <= i < |s.g.nodes[n].hist| ==> PastOk(s, n, i))
    && (forall id :: 0 <= id < |s.g.ver| && s.g.ver[id].VRetired? ==>
          && s.g.ver[id].n < |s.g.nodes|
          && s.g.ver[id].i < |s.g.nodes[s.g.ver[id].n].hist|
          && s.g.nodes[s.g.ver[id].n].hist[s.g.ver[id].i].id == id)
  }

  // ----- Pools -----

  ghost predicate Blocked(pc: Pc) { pc.Waiting? || pc.Reclaiming? }

  /** A queued removal: the node is untouched since the delete, or its number has moved on. */
  ghost predicate RmOk(s: State, o: RmObj)
  {
    && o.node < |s.c.nodes|
    && s.c.nodes[o.node].key == o.key
    && o.seqno <= s.c.nodes[o.node].seqno
    && (o.seqno == s.c.nodes[o.node].seqno ==>
          s.c.nodes[o.node].value == LogicalDelete && s.c.nodes[o.node].counter > 0)
  }

  ghost predicate PoolsOk(s: State, t: Tid)
    requires WfSizes(s) && t < |s.c.threads|
  {
    var th := s.c.threads[t];
    && Distinct(th.freeVals) && Distinct(th.gcVals) && Distinct(th.freeVers) && Distinct(th.gcVers)
    && (forall i :: 0 <= i < |th.freeVals| ==> th.freeVals[i] < |s.g.ptr| && s.g.ptr[th.freeVals[i]] == Free(t))
    && (forall i :: 0 <= i < |th.gcVals| ==>
          th.gcVals[i] < |s.g.ptr| && s.g.ptr[th.gcVals[i]].Retired? && s.g.ptr[th.gcVals[i]].t == t
          && s.g.ptr[th.gcVals[i]].at <= s.g.time)
    && (forall i :: 0 <= i < |th.freeVers| ==> th.freeVers[i] < |s.g.ver| && s.g.ver[th.freeVers[i]] == VFree(t))
    && (forall i :: 0 <= i < |th.gcVers| ==>
          th.gcVers[i] < |s.g.ver| && s.g.ver[th.gcVers[i]].VRetired? && s.g.ver[th.gcVers[i]].t == t)
    && (forall i :: 0 <= i < |th.rm| ==> RmOk(s, th.rm[i]))
  }

  /** While a thread waits for a grace period, everything it has queued was retired before. */
  ghost predicate QueuedBefore(s: State, t: Tid)
    requires WfSizes(s) && t < |s.c.threads|
  {
    var th := s.c.threads[t];
    var w := s.g.th[t].waitStart;
    Blocked(th.pc) ==>
      && w <= s.g.time
      && (forall i :: 0 <= i < |th.gcVals| && th.gcVals[i] < |s.g.ptr| && s.g.ptr[th.gcVals[i]].Retired? ==>
            s.g.ptr[th.gcVals[i]].at < w)
      && (forall i :: 0 <= i < |th.gcVers| && th.gcVers[i] < |s.g.ver| && s.g.ver[th.gcVers[i]].VRetired? ==>
            var o := s.g.ver[th.gcVers[i]];
            o.n < |s.g.nodes| && o.i < |s.g.nodes[o.n].hist| ==> s.g.nodes[o.n].hist[o.i].at < w)
      && (forall i :: 0 <= i < |th.rm| && th.rm[i].node < |s.c.nodes| ==>
            (s.c.nodes[th.rm[i].node].seqno == th.rm[i].seqno ==> s.g.nodes[th.rm[i].node].lastWrite < w))
  }

  // ----- Grace periods -----

  ghost predicate PcOk(s: State, t: Tid)
    requires WfSizes(s) && t < |s.c.threads|
  {
    var th := s.c.threads[t];
    var ta := s.g.th[t];
    && (th.rcu.ended <==> (th.pc.Idle? || th.pc.Beginning? || Blocked(th.pc)))
    && ta.begin <= s.g.time
    && (th.rcu.ended ==> ta.held == map[] && ta.got == [])
    && (!InRw(th.pc) ==> th.ws == [] && th.rs == [] && ta.wlog == [])
    && (th.pc == RoBegun ==> ta.got == [] && ta.held == map[])
  }

  ghost predicate InRw(pc: Pc) {
    pc.Ready? || pc.GetRetry? || pc.GetFound? || pc.GetAdded? || pc.GetChecked?
    || pc.AddRetry? || pc.AddFound? || pc.AddChecked?
  }

  ghost predicate InRo(pc: Pc) { pc.RoReady? || pc.RoFound? }

  /** Thread i is outside any transaction, or its transaction began after the wait of thread t. */
  ghost predicate Passed(s: State, t: Tid, i: Tid)
    requires WfSizes(s) && t < |s.c.threads| && i < |s.c.threads|
  {
    s.c.threads[i].rcu.ended || s.g.th[i].begin > s.g.th[t].waitStart
  }

  ghost predicate WaitOk(s: State, t: Tid)
    requires WfSizes(s) && t < |s.c.threads|
  {
    var pc := s.c.threads[t].pc;
    && (pc.Waiting? ==>
          && |pc.cs| <= |s.c.threads|
          && pc.checked <= |pc.cs| && pc.checked < |s.c.threads|
          && (forall i :: 0 <= i < |pc.cs| ==>
                pc.cs[i] <= s.c.threads[i].rcu.n
                && (s.c.threads[i].rcu.n > pc.cs[i] ==> Passed(s, t, i)))
          && (forall i :: 0 <= i < pc.checked && i != t ==> Passed(s, t, i)))
    && (pc.Reclaiming? ==> forall i :: 0 <= i < |s.c.threads| && i != t ==> Passed(s, t, i))
  }

  /** Nothing retired since the transaction began has been handed out again. */
  ghost predicate ProtectOk(s: State, t: Tid)
    requires WfSizes(s) && t < |s.c.threads|
  {
    !s.c.threads[t].rcu.ended ==>
      forall n, i :: 0 <= n < |s.g.nodes| && 0 <= i < |s.g.nodes[n].hist| ==>
        s.g.nodes[n].hist[i].at >= s.g.th[t].begin ==>
        VersionIntact(s, n, i) && ValueIntact(s, s.g.nodes[n].hist[i])
  }

  /** A buffer whose pointer the transaction has been given keeps its bytes. */
  ghost predicate HeldOk(s: State, t: Tid)
    requires WfSizes(s) && t < |s.c.threads|
  {
    forall p :: p in s.g.th[t].held ==>
      && p < |s.c.mem|
      && s.c.mem[p] == s.g.th[t].held[p]
      && (s.g.ptr[p].Current? || s.g.ptr[p] == Pending(t)
          || (s.g.ptr[p].Retired? && s.g.ptr[p].at >= s.g.th[t].begin))
  }

  // ----- Read-write transactions -----

  /** The last write to the key in a list, if any. */
  ghost function LastOf(ws: seq<Write>, k: Key): Option<Option<Content>> {
    if |ws| == 0 then None
    else if ws[|ws| - 1].k == k then Some(ws[|ws| - 1].w)
    else LastOf(ws[..|ws| - 1], k)
  }

  ghost function ResOf(w: Option<Content>): Res {
    if w.Some? then Hit(w.value) else Miss
  }

  ghost predicate WritesOk(s: State, t: Tid)
    requires WfSizes(s) && t < |s.c.threads|
  {
    var ws := s.c.threads[t].ws;
    var wlog := s.g.th[t].wlog;
    && |ws| == |wlog|
    && (forall j :: 0 <= j < |ws| ==> EntryOk(s, t, ws[j], wlog[j]))
    && (forall i, j :: 0 <= i < j < |ws| && ws[i].val.At? && ws[j].val.At? ==> ws[i].val.p != ws[j].val.p)
  }

  ghost predicate EntryOk(s: State, t: Tid, e: WsEntry, w: Write)
    requires WfSizes(s)
  {
    && e.node < |s.c.nodes| && s.c.nodes[e.node].key == e.key == w.k
    && e.val != HaveRemoved
    && (e.val == LogicalDelete <==> w.w == None)
    && (e.val.At? ==> e.val.p < |s.c.mem| && s.g.ptr[e.val.p] == Pending(t) && w.w == Some(s.c.mem[e.val.p]))
  }

  /** An unchanged sequence number vouches for the node's presence and its value. */
  ghost predicate ReadOk(s: State, t: Tid, r: ReadRec)
    requires WfSizes(s) && t < |s.c.threads|
  {
    var wlog := s.g.th[t].wlog;
    && r.upto <= |wlog|
    && (r.src.None? ==>
          LastOf(wlog[..r.upto], r.k).Some? && r.res == ResOf(LastOf(wlog[..r.upto], r.k).value))
    && (r.src.Some? ==>
          var e := r.src.value;
          && LastOf(wlog[..r.upto], r.k).None?
          && e in s.c.threads[t].rs
          && e.node < |s.c.nodes|
          && s.c.nodes[e.node].key == r.k
          && (s.c.nodes[e.node].seqno == e.seqno ==> r.res == ResOf(ContentOf(s.c, s.c.nodes[e.node].value))))
  }

  ghost predicate RsOk(s: State, e: RsEntry) {
    && e.node < |s.c.nodes|
    && e.seqno <= s.c.nodes[e.node].seqno
    && (e.seqno == s.c.nodes[e.node].seqno ==> s.c.nodes[e.node].value != HaveRemoved)
  }

  ghost predicate AtNode(s: State, k: Key, n: NodeId) {
    n < |s.c.nodes| && s.c.nodes[n].key == k
  }

  ghost predicate RwOk(s: State, t: Tid)
    requires WfSizes(s) && t < |s.c.threads|
  {
    var th := s.c.threads[t];
    var pc := th.pc;
    InRw(pc) ==>
      && (forall i :: 0 <= i < |th.rs| ==> RsOk(s, th.rs[i]))
      && (forall i :: 0 <= i < |s.g.th[t].got| ==> ReadOk(s, t, s.g.th[t].got[i]))
      && (pc.AddFound? || pc.AddChecked? ==> AtNode(s, pc.k, pc.n))
      && (pc.GetRetry? || pc.GetFound? || pc.GetAdded? || pc.GetChecked? ==> Lookup(th.ws, pc.k).None?)
      && (pc.GetFound? || pc.GetAdded? || pc.GetChecked? ==> AtNode(s, pc.k, pc.n))
      && (pc.GetAdded? || pc.GetChecked? ==> |th.rs| > 0 && th.rs[|th.rs| - 1].node == pc.n)
      && (pc.GetChecked? && s.c.nodes[pc.n].seqno == th.rs[|th.rs| - 1].seqno ==> s.c.nodes[pc.n].value.At?)
  }

  // ----- Read-only transactions -----

  /** The newest past version at or below the snapshot. */
  ghost function SnapIn(hist: seq<Past>, s: nat): Option<Content> {
    if |hist| == 0 then None
    else if hist[|hist| - 1].counter <= s then hist[|hist| - 1].content
    else SnapIn(hist[..|hist| - 1], s)
  }

  /** What node n held at the snapshot. */
  ghost function SnapOf(s: State, n: NodeId, snap: nat): Option<Content>
    requires n < |s.c.nodes| && n < |s.g.nodes|
  {
    if s.c.nodes[n].counter <= snap then ContentOf(s.c, s.c.nodes[n].value) else SnapIn(s.g.nodes[n].hist, snap)
  }

  ghost predicate RoOk(s: State, t: Tid)
    requires WfSizes(s) && t < |s.c.threads|
  {
    var th := s.c.threads[t];
    var ta := s.g.th[t];
    InRo(th.pc) ==>
      && th.oldsnapshot < s.c.snapshot
      && (forall n :: 0 <= n < |s.c.nodes| && s.g.nodes[n].lastWrite < ta.begin ==>
            s.c.nodes[n].counter <= th.oldsnapshot)
      && (forall n, i :: 0 <= n < |s.g.nodes| && 0 <= i < |s.g.nodes[n].hist| && Above(s, n, i) > th.oldsnapshot ==>
            s.g.nodes[n].hist[i].at >= ta.begin)
      && (forall k :: k in s.c.index && s.c.index[k] < |s.c.nodes| ==>
            SnapOf(s, s.c.index[k], th.oldsnapshot) == Find(ta.snap, k))
      && (forall k :: k in ta.snap ==> k in s.c.index)
      && (th.pc.RoFound? ==>
            if th.pc.rn.None? then th.pc.k !in ta.snap
            else th.pc.rn.value < |s.c.nodes|
                 && SnapOf(s, th.pc.rn.value, th.oldsnapshot) == Find(ta.snap, th.pc.k))
      && (forall i :: 0 <= i < |ta.got| ==> ta.got[i].res == Expect(ta.snap, ta.got[i].k))
  }

  // ----- All together -----

  ghost predicate ThreadOk(s: State, t: Tid)
    requires WfSizes(s) && t < |s.c.threads|
  {
    && PcOk(s, t) && PoolsOk(s, t) && QueuedBefore(s, t) && WaitOk(s, t)
    && ProtectOk(s, t) && HeldOk(s, t) && WritesOk(s, t) && RwOk(s, t) && RoOk(s, t)
  }

  ghost predicate SharedOk(s: State) {
    WfSizes(s) && IndexOk(s.c) && StoreOk(s) && ChainsOk(s) && !s.c.failed && s.c.snapshot > 0
  }

  /** Holds between the single writes of one commit as well. */
  ghost predicate Core(s: State) {
    SharedOk(s) && forall t :: 0 <= t < |s.c.threads| ==> ThreadOk(s, t)
  }

  ghost predicate LogOk(g: Aux) {
    g.store == Replay(g.log) && Serializable(g.log)
  }

  ghost predicate Inv(s: State) {
    Core(s) && LogOk(s.g)
  }
}
