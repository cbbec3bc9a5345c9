/** The steps of the DBX protocol machine and its runs. */
module DbxSteps {
  import opened Common
  import opened DbxModel

  datatype Step =
    | RcuBeginInc(t: Tid, readOnly: bool)
    | RcuBeginClear(t: Tid)
    | GetOwn(t: Tid, k: Key)
    | GetIndex(t: Tid, k: Key)
    | GetRegion(t: Tid)
    | GetFirstRead(t: Tid)
    | GetSecondRead(t: Tid)
    | AddIndex(t: Tid, k: Key, w: Option<Content>)
    | AddCheck(t: Tid)
    | AddInsert(t: Tid)
    | EndCommit(t: Tid)
    | EndAbort(t: Tid)
    | RoSnapshot(t: Tid)
    | RoIndex(t: Tid, k: Key)
    | RoScan(t: Tid)
    | RoEnd(t: Tid)
    | RcuEnd(t: Tid)
    | WaitStart(t: Tid, job: Job)
    | WaitCopy(t: Tid)
    | WaitCheck(t: Tid)
    | FreeAll(t: Tid)
    | RemoveOne(t: Tid)
    | RemoveDone(t: Tid)

  /** The system before any transaction: an empty store and `n` idle threads. */
  function Initial(n: nat): State {
    State(
      Conc(1, map[], [], [], [],
           seq(n, _ => Thread(Rcu(0, true), Idle, [], [], 0, [], [], [], [], [])), false),
      Aux(0, [], map[], [], [], [], seq(n, _ => ThreadAux(0, 0, map[], [], [], map[]))))
  }

  ghost predicate WfSizes(s: State) {
    && |s.g.nodes| == |s.c.nodes|
    && |s.g.ptr| == |s.c.mem|
    && |s.g.ver| == |s.c.vers|
    && |s.g.th| == |s.c.threads|
  }

  function Update(s: State, t: Tid, th: Thread, ta: ThreadAux): State
    requires t < |s.c.threads| == |s.g.th|
  {
    State(s.c.(threads := s.c.threads[t := th]), s.g.(th := s.g.th[t := ta]))
  }

  function Tick(s: State): State {
    s.(g := s.g.(time := s.g.time + 1))
  }

  function ContentOf(c: Conc, v: Val): Option<Content> {
    if v.At? && v.p < |c.mem| then Some(c.mem[v.p]) else None
  }

  /** Result of handing the pointer `v` to the caller with return value true. */
  function Returned(c: Conc, v: Val): Res {
    if v.At? && v.p < |c.mem| then Hit(c.mem[v.p]) else Garbage
  }

  function Hold(c: Conc, held: map<Ptr, Content>, v: Val): map<Ptr, Content> {
    if v.At? && v.p < |c.mem| then held[v.p := c.mem[v.p]] else held
  }

  // ----- RCU::BeginTX and RCU::EndTX -----

  function BeginInc(s: State, t: Tid, readOnly: bool): State
    requires WfSizes(s) && t < |s.c.threads|
  {
    var th := s.c.threads[t];
    Update(s, t, th.(rcu := Rcu(th.rcu.n + 1, th.rcu.ended), pc := Beginning(readOnly)), s.g.th[t])
  }

  function BeginClear(s: State, t: Tid): State
    requires WfSizes(s) && t < |s.c.threads| && s.c.threads[t].pc.Beginning?
  {
    var th := s.c.threads[t];
    var pc := if th.pc.readOnly then RoBegun else Ready;
    Update(Tick(s), t, th.(rcu := Rcu(th.rcu.n, false), pc := pc),
           s.g.th[t].(begin := s.g.time + 1))
  }

  /** RCUTXEnd; the transaction's sets are dropped. */
  function EndRcu(s: State, t: Tid): State
    requires WfSizes(s) && t < |s.c.threads|
  {
    var th := s.c.threads[t];
    Update(s, t, th.(rcu := Rcu(th.rcu.n, true), pc := Idle, rs := [], ws := []),
           s.g.th[t].(got := [], wlog := [], held := map[], snap := map[]))
  }

  // ----- DBTX::Get -----

  /** The key is in the write set: no shared memory is read. */
  function OwnRead(s: State, t: Tid, k: Key): State
    requires WfSizes(s) && t < |s.c.threads| && Lookup(s.c.threads[t].ws, k).Some?
  {
    var th := s.c.threads[t];
    var ta := s.g.th[t];
    var v := Lookup(th.ws, k).value;
    var res := if v == LogicalDelete then Miss else Returned(s.c, v);
    Update(s, t, th, ta.(got := ta.got + [ReadRec(k, |ta.wlog|, None, res)],
                         held := Hold(s.c, ta.held, v)))
  }

  /** GetWithInsert on behalf of thread t, which then stands at `pc`. */
  function IndexStep(s: State, t: Tid, k: Key, pc: Pc): State
    requires WfSizes(s) && t < |s.c.threads|
  {
    var (c, _) := IndexInsert(s.c, k);
    var nodes := if k in s.c.index then s.g.nodes else s.g.nodes + [NodeAux([], s.g.time)];
    State(c.(threads := c.threads[t := c.threads[t].(pc := pc)]), s.g.(nodes := nodes))
  }

  function GetIndexed(s: State, t: Tid, k: Key): State
    requires WfSizes(s) && t < |s.c.threads|
  {
    IndexStep(s, t, k, GetFound(k, IndexInsert(s.c, k).1))
  }

  /** The atomic region: retry on a removed node, else record its sequence number. */
  function Region(s: State, t: Tid): State
    requires WfSizes(s) && t < |s.c.threads|
    requires s.c.threads[t].pc.GetFound? && s.c.threads[t].pc.n < |s.c.nodes|
  {
    var th := s.c.threads[t];
    var nd := s.c.nodes[th.pc.n];
    if nd.value == HaveRemoved
    then Update(s, t, th.(pc := GetRetry(th.pc.k)), s.g.th[t])
    else Update(s, t, th.(pc := GetAdded(th.pc.k, th.pc.n),
                          rs := th.rs + [RsEntry(th.pc.n, nd.seqno)]), s.g.th[t])
  }

  /** ValidateValue(node->value), outside the region. */
  function FirstRead(s: State, t: Tid): State
    requires WfSizes(s) && t < |s.c.threads| && |s.c.threads[t].rs| > 0
    requires s.c.threads[t].pc.GetAdded? && s.c.threads[t].pc.n < |s.c.nodes|
  {
    var th := s.c.threads[t];
    var ta := s.g.th[t];
    if ValidateValue(s.c.nodes[th.pc.n].value)
    then Update(s, t, th.(pc := GetChecked(th.pc.k, th.pc.n)), ta)
    else Update(s, t, th.(pc := Ready),
                ta.(got := ta.got + [ReadRec(th.pc.k, |ta.wlog|, Some(th.rs[|th.rs| - 1]), Miss)]))
  }

  /** *val = node->value, a second unprotected read. */
  function SecondRead(s: State, t: Tid): State
    requires WfSizes(s) && t < |s.c.threads| && |s.c.threads[t].rs| > 0
    requires s.c.threads[t].pc.GetChecked? && s.c.threads[t].pc.n < |s.c.nodes|
  {
    var th := s.c.threads[t];
    var ta := s.g.th[t];
    var v := s.c.nodes[th.pc.n].value;
    Update(s, t, th.(pc := Ready),
           ta.(got := ta.got + [ReadRec(th.pc.k, |ta.wlog|, Some(th.rs[|th.rs| - 1]), Returned(s.c, v))],
               held := Hold(s.c, ta.held, v)))
  }

  // ----- DBTX::Add and DBTX::Delete -----

  function AddIndexed(s: State, t: Tid, k: Key, w: Option<Content>): State
    requires WfSizes(s) && t < |s.c.threads|
  {
    IndexStep(s, t, k, AddFound(k, IndexInsert(s.c, k).1, w))
  }

  function AddTested(s: State, t: Tid): State
    requires WfSizes(s) && t < |s.c.threads|
    requires s.c.threads[t].pc.AddFound? && s.c.threads[t].pc.n < |s.c.nodes|
  {
    var th := s.c.threads[t];
    var pc := if s.c.nodes[th.pc.n].value == HaveRemoved then AddRetry(th.pc.k, th.pc.w)
              else AddChecked(th.pc.k, th.pc.n, th.pc.w);
    Update(s, t, th.(pc := pc), s.g.th[t])
  }

  /** GetEmptyValue or malloc, memcpy, WriteSet::Add; a Delete needs no buffer. */
  function AddInserted(s: State, t: Tid): State
    requires WfSizes(s) && t < |s.c.threads| && s.c.threads[t].pc.AddChecked?
    requires s.c.threads[t].freeVals == [] || s.c.threads[t].freeVals[0] < |s.c.mem|
  {
    var th := s.c.threads[t];
    var ta := s.g.th[t];
    var k, n, w := th.pc.k, th.pc.n, th.pc.w;
    var ta' := ta.(wlog := ta.wlog + [Write(k, w)]);
    if w.None? then
      Update(s, t, th.(pc := Ready, ws := th.ws + [WsEntry(k, LogicalDelete, n)]), ta')
    else if th.freeVals == [] then
      var p := |s.c.mem|;
      var th' := th.(pc := Ready, ws := th.ws + [WsEntry(k, At(p), n)]);
      State(s.c.(mem := s.c.mem + [w.value], threads := s.c.threads[t := th']),
            s.g.(ptr := s.g.ptr + [Pending(t)], th := s.g.th[t := ta']))
    else
      var p := th.freeVals[0];
      var th' := th.(pc := Ready, ws := th.ws + [WsEntry(k, At(p), n)], freeVals := th.freeVals[1..]);
      State(s.c.(mem := s.c.mem[p := w.value], threads := s.c.threads[t := th']),
            s.g.(ptr := s.g.ptr[p := Pending(t)], th := s.g.th[t := ta']))
  }

  // ----- DBTX::End -----

  ghost predicate CanWrite(s: State, t: Tid) {
    && WfSizes(s) && t < |s.c.threads|
    && (forall e :: e in s.c.threads[t].ws ==>
          e.node < |s.c.nodes| && (e.val.At? ==> e.val.p < |s.c.mem|))
    && (forall i :: 0 <= i < |s.c.nodes| && s.c.nodes[i].value.At? ==> s.c.nodes[i].value.p < |s.c.mem|)
    && (forall i :: 0 <= i < |s.c.threads[t].freeVers| ==> s.c.threads[t].freeVers[i] < |s.c.vers|)
    && |s.c.threads[t].ws| == |s.g.th[t].wlog|
  }

  /** The first entry of the write set is written and leaves the set. */
  function WriteNext(s: State, t: Tid): (s': State)
    requires CanWrite(s, t) && s.c.threads[t].ws != []
    ensures CanWrite(s', t) && s'.c.threads[t].ws == s.c.threads[t].ws[1..]
  {
    var th := s.c.threads[t];
    var e := th.ws[0];
    var nd := s.c.nodes[e.node];
    var na := s.g.nodes[e.node];
    var ta := s.g.th[t];
    var c := WriteOne(s.c.(threads := s.c.threads[t := th.(ws := th.ws[1..])]), t, e);
    var push := nd.counter != 0 && nd.counter < s.c.snapshot;
    var id := if th.freeVers == [] then |s.c.vers| else th.freeVers[0];
    var past := Past(id, nd.counter, nd.value, ContentOf(s.c, nd.value), s.g.time);
    var hist := if push then na.hist + [past] else na.hist;
    var owner := VRetired(t, e.node, |na.hist|);
    var ver := if !push then s.g.ver
               else if th.freeVers == [] then s.g.ver + [owner] else s.g.ver[id := owner];
    var ptr0 := if nd.value.At? then s.g.ptr[nd.value.p := Retired(t, s.g.time)] else s.g.ptr;
    var ptr := if e.val.At? then ptr0[e.val.p := Current(e.node)] else ptr0;
    State(c, s.g.(store := ApplyWrite(s.g.store, ta.wlog[0]),
                  th := s.g.th[t := ta.(wlog := ta.wlog[1..])],
                  nodes := s.g.nodes[e.node := NodeAux(hist, s.g.time)],
                  ptr := ptr, ver := ver))
  }

  function WriteAll(s: State, t: Tid): (s': State)
    requires CanWrite(s, t)
    ensures CanWrite(s', t) && s'.c.threads[t].ws == []
    decreases |s.c.threads[t].ws|
  {
    if s.c.threads[t].ws == [] then s else WriteAll(WriteNext(s, t), t)
  }

  /** The commit is logged as of now; its writes follow. */
  function Sealed(s: State, t: Tid): State
    requires WfSizes(s) && t < |s.c.threads|
  {
    var ta := s.g.th[t];
    s.(g := s.g.(time := s.g.time + 1, log := s.g.log + [Commit(ta.wlog, ta.got)],
                 th := s.g.th[t := ta.(got := [])]))
  }

  /** Validation succeeded: write every entry, go on to RCUTXEnd. */
  function Committed(s: State, t: Tid): State
    requires CanWrite(s, t)
  {
    var s1 := WriteAll(Sealed(s, t), t);
    Update(s1, t, s1.c.threads[t].(pc := Ending, rs := []), s1.g.th[t])
  }

  /** Validation failed, or the caller gave up: buffers of the write set are lost. */
  function Aborted(s: State, t: Tid): State
    requires WfSizes(s) && t < |s.c.threads|
  {
    var th := s.c.threads[t];
    var ptr := seq(|s.g.ptr|, i requires 0 <= i < |s.g.ptr| =>
                     if s.g.ptr[i] == Pending(t) then Leaked else s.g.ptr[i]);
    State(s.c.(threads := s.c.threads[t := th.(pc := Ending, rs := [], ws := [])]),
          s.g.(ptr := ptr, th := s.g.th[t := s.g.th[t].(got := [], wlog := [], held := map[])]))
  }

  // ----- DBROTX -----

  function SnapshotTaken(s: State, t: Tid): State
    requires WfSizes(s) && t < |s.c.threads|
  {
    var th := s.c.threads[t];
    var s1 := Update(s, t, th.(pc := RoReady, oldsnapshot := s.c.snapshot),
                     s.g.th[t].(snap := s.g.store));
    s1.(c := s1.c.(snapshot := s.c.snapshot + 1))
  }

  function RoIndexed(s: State, t: Tid, k: Key): State
    requires WfSizes(s) && t < |s.c.threads|
  {
    var n := if k in s.c.index then Some(s.c.index[k]) else None;
    Update(s, t, s.c.threads[t].(pc := RoFound(k, n)), s.g.th[t])
  }

  function RoScanned(s: State, t: Tid): State
    requires WfSizes(s) && t < |s.c.threads| && s.c.threads[t].pc.RoFound?
    requires s.c.threads[t].pc.rn.Some? ==> s.c.threads[t].pc.rn.value < |s.c.nodes|
  {
    var th := s.c.threads[t];
    var ta := s.g.th[t];
    var v := if th.pc.rn.None? then LogicalDelete
             else ScanMemNode(s.c, th.pc.rn.value, th.oldsnapshot);
    var res := if ValidateValue(v) then Returned(s.c, v) else Miss;
    Update(s, t, th.(pc := RoReady),
           ta.(got := ta.got + [ReadRec(th.pc.k, 0, None, res)], held := Hold(s.c, ta.held, v)))
  }

  // ----- DBTables::GC and DBTables::DelayRemove -----

  function WaitStarted(s: State, t: Tid, job: Job): State
    requires WfSizes(s) && t < |s.c.threads|
  {
    Update(Tick(s), t, s.c.threads[t].(pc := Waiting(job, [], 0)),
           s.g.th[t].(waitStart := s.g.time + 1))
  }

  /** GetStatesCopy, one thread's state at a time. */
  function WaitCopied(s: State, t: Tid): State
    requires WfSizes(s) && t < |s.c.threads|
    requires s.c.threads[t].pc.Waiting? && |s.c.threads[t].pc.cs| < |s.c.threads|
  {
    var pc := s.c.threads[t].pc;
    var cs := pc.cs + [s.c.threads[|pc.cs|].rcu.n];
    Update(s, t, s.c.threads[t].(pc := Waiting(pc.job, cs, pc.checked)), s.g.th[t])
  }

  /** The spin loop has seen the next thread safe. */
  function WaitChecked(s: State, t: Tid): State
    requires WfSizes(s) && t < |s.c.threads| && s.c.threads[t].pc.Waiting?
  {
    var pc := s.c.threads[t].pc;
    var pc' := if pc.checked + 1 == |s.c.threads| then Reclaiming(pc.job)
               else Waiting(pc.job, pc.cs, pc.checked + 1);
    Update(s, t, s.c.threads[t].(pc := pc'), s.g.th[t])
  }

  /** OBJPool::GC on both pools: the GC lists go in front of the free lists. */
  function Freed(s: State, t: Tid): State
    requires WfSizes(s) && t < |s.c.threads|
  {
    var th := s.c.threads[t];
    var th' := th.(pc := Idle,
                   freeVals := th.gcVals + th.freeVals, gcVals := [],
                   freeVers := th.gcVers + th.freeVers, gcVers := []);
    State(s.c.(threads := s.c.threads[t := th']),
          s.g.(ptr := seq(|s.g.ptr|, i requires 0 <= i < |s.g.ptr| =>
                            if i in th.gcVals then Free(t) else s.g.ptr[i]),
               ver := seq(|s.g.ver|, i requires 0 <= i < |s.g.ver| =>
                            if i in th.gcVers then VFree(t) else s.g.ver[i])))
  }

  /** RMPool::Remove on the first queued object; both its asserts feed `failed`. */
  function Removed(s: State, t: Tid): State
    requires WfSizes(s) && t < |s.c.threads| && s.c.threads[t].rm != []
    requires s.c.threads[t].rm[0].node < |s.c.nodes|
  {
    var th := s.c.threads[t];
    var o := th.rm[0];
    var nd := s.c.nodes[o.node];
    var c := s.c.(threads := s.c.threads[t := th.(rm := th.rm[1..])]);
    if nd.seqno != o.seqno then s.(c := c)
    else
      var ok := nd.value == LogicalDelete && o.key in c.index && c.index[o.key] == o.node;
      s.(c := c.(nodes := c.nodes[o.node := nd.(value := HaveRemoved, seqno := nd.seqno + 1)],
                 index := c.index - {o.key},
                 failed := c.failed || !ok))
  }

  function RemoveFinished(s: State, t: Tid): State
    requires WfSizes(s) && t < |s.c.threads|
  {
    Update(s, t, s.c.threads[t].(pc := Idle), s.g.th[t])
  }

  // ----- Runs -----

  ghost predicate Enabled(s: State, a: Step) {
    && WfSizes(s)
    && a.t < |s.c.threads|
    && var th := s.c.threads[a.t];
    match a {
      case RcuBeginInc(_, _) => th.pc == Idle
      case RcuBeginClear(_) => th.pc.Beginning?
      case GetOwn(_, k) => th.pc == Ready && Lookup(th.ws, k).Some?
      case GetIndex(_, k) => (th.pc == Ready && Lookup(th.ws, k).None?) || th.pc == GetRetry(k)
      case GetRegion(_) => th.pc.GetFound? && th.pc.n < |s.c.nodes|
      case GetFirstRead(_) => th.pc.GetAdded? && th.pc.n < |s.c.nodes| && |th.rs| > 0
      case GetSecondRead(_) => th.pc.GetChecked? && th.pc.n < |s.c.nodes| && |th.rs| > 0
      case AddIndex(_, k, w) => th.pc == Ready || th.pc == AddRetry(k, w)
      case AddCheck(_) => th.pc.AddFound? && th.pc.n < |s.c.nodes|
      case AddInsert(_) => th.pc.AddChecked? && (th.freeVals == [] || th.freeVals[0] < |s.c.mem|)
      case EndCommit(_) =>
        && th.pc == Ready && CanWrite(s, a.t)
        && Validate(s.c.nodes, th.rs) && CheckWriteSet(s.c.nodes, th.ws)
      case EndAbort(_) => th.pc == Ready
      case RoSnapshot(_) => th.pc == RoBegun
      case RoIndex(_, _) => th.pc == RoReady
      case RoScan(_) => th.pc.RoFound? && (th.pc.rn.Some? ==> th.pc.rn.value < |s.c.nodes|)
      case RoEnd(_) => th.pc == RoReady
      case RcuEnd(_) => th.pc == Ending
      case WaitStart(_, _) => th.pc == Idle
      case WaitCopy(_) => th.pc.Waiting? && |th.pc.cs| < |s.c.threads|
      case WaitCheck(_) =>
        && th.pc.Waiting? && |th.pc.cs| == |s.c.threads| && th.pc.checked < |s.c.threads|
        && (th.pc.checked == a.t || Safe(s.c.threads[th.pc.checked].rcu, th.pc.cs[th.pc.checked]))
      case FreeAll(_) => th.pc == Reclaiming(Gc)
      case RemoveOne(_) => th.pc == Reclaiming(DelayRemove) && th.rm != [] && th.rm[0].node < |s.c.nodes|
      case RemoveDone(_) => th.pc == Reclaiming(DelayRemove) && th.rm == []
    }
  }

  ghost function Next(s: State, a: Step): State
    requires Enabled(s, a)
  {
    match a {
      case RcuBeginInc(t, ro) => BeginInc(s, t, ro)
      case RcuBeginClear(t) => BeginClear(s, t)
      case GetOwn(t, k) => OwnRead(s, t, k)
      case GetIndex(t, k) => GetIndexed(s, t, k)
      case GetRegion(t) => Region(s, t)
      case GetFirstRead(t) => FirstRead(s, t)
      case GetSecondRead(t) => SecondRead(s, t)
      case AddIndex(t, k, w) => AddIndexed(s, t, k, w)
      case AddCheck(t) => AddTested(s, t)
      case AddInsert(t) => AddInserted(s, t)
      case EndCommit(t) => Committed(s, t)
      case EndAbort(t) => Aborted(s, t)
      case RoSnapshot(t) => SnapshotTaken(s, t)
      case RoIndex(t, k) => RoIndexed(s, t, k)
      case RoScan(t) => RoScanned(s, t)
      case RoEnd(t) => Update(s, t, s.c.threads[t].(pc := Ending), s.g.th[t])
      case RcuEnd(t) => EndRcu(s, t)
      case WaitStart(t, job) => WaitStarted(s, t, job)
      case WaitCopy(t) => WaitCopied(s, t)
      case WaitCheck(t) => WaitChecked(s, t)
      case FreeAll(t) => Freed(s, t)
      case RemoveOne(t) => Removed(s, t)
      case RemoveDone(t) => RemoveFinished(s, t)
    }
  }

  /** A run: every state follows from the one before by an enabled step. */
  ghost predicate IsRun(run: seq<State>, acts: seq<Step>, threads: nat) {
    && |run| == |acts| + 1
    && run[0] == Initial(threads)
    && forall i :: 0 <= i < |acts| ==> Enabled(run[i], acts[i]) && run[i + 1] == Next(run[i], acts[i])
  }
}
