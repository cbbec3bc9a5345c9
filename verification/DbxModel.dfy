/**
  The DBX transaction protocol: optimistic read-write transactions, snapshot
  read-only transactions, RCU reclamation of retired values and old versions,
  and delayed physical removal of deleted rows.

  The protocol is a step machine.  A step is one atomic region of the source
  (an RTMScope, an index operation) or one access to shared memory outside any
  region.  `Conc` is the memory the program works on; `Aux` is a record of what
  happened, which no step of the program reads.
*/
module DbxModel {
  import opened Common

  /** A row is named by its table and its key inside that table. */
  datatype Key = Key(tableid: nat, key: nat)

  type Tid = nat
  type NodeId = nat   // address of a MemNode held by an index
  type VerId = nat    // address of a MemNode used as an old version
  type Ptr = nat      // address of a value buffer
  type Content = int  // the bytes in a value buffer; only compared for equality

  /** A value pointer: NULL, -1, or the address of a buffer. */
  datatype Val = LogicalDelete | HaveRemoved | At(p: Ptr)

  datatype MemNode = MemNode(key: Key, value: Val, seqno: nat, counter: nat, prior: Option<VerId>)
  datatype OldVersion = OldVersion(value: Val, counter: nat, next: Option<VerId>)

  /** RCU::State: the transaction number, and the ENDMASK bit. */
  datatype Rcu = Rcu(n: nat, ended: bool)

  datatype RsEntry = RsEntry(node: NodeId, seqno: nat)
  datatype WsEntry = WsEntry(key: Key, val: Val, node: NodeId)
  datatype RmObj = RmObj(key: Key, node: NodeId, seqno: nat)

  datatype Job = Gc | DelayRemove

  /** Where a thread stands between two steps. */
  datatype Pc =
    | Idle
    | Beginning(readOnly: bool)                              // counter++ done, ENDMASK still set
    | Ready                                                  // read-write, between two calls
    | GetRetry(k: Key)                                       // Get: index lookup next
    | GetFound(k: Key, n: NodeId)                            // Get: atomic region next
    | GetAdded(k: Key, n: NodeId)                            // Get: first read of node->value next
    | GetChecked(k: Key, n: NodeId)                          // Get: second read of node->value next
    | AddRetry(k: Key, w: Option<Content>)                   // Add: index lookup next
    | AddFound(k: Key, n: NodeId, w: Option<Content>)        // Add: HAVEREMOVED test next
    | AddChecked(k: Key, n: NodeId, w: Option<Content>)      // Add: write set insertion next
    | RoBegun                                                // read-only, snapshot not taken
    | RoReady
    | RoFound(k: Key, rn: Option<NodeId>)                    // read-only Get: scan next
    | Ending                                                 // RCUTXEnd next
    | Waiting(job: Job, cs: seq<nat>, checked: nat)          // inside WaitForGracePeriod
    | Reclaiming(job: Job)                                   // after WaitForGracePeriod

  datatype Thread = Thread(
    rcu: Rcu, pc: Pc,
    rs: seq<RsEntry>, ws: seq<WsEntry>, oldsnapshot: nat,
    freeVals: seq<Ptr>, gcVals: seq<Ptr>,
    freeVers: seq<VerId>, gcVers: seq<VerId>,
    rm: seq<RmObj>)

  /** Shared and thread-local memory.  `failed` records a violated assert of the source. */
  datatype Conc = Conc(
    snapshot: nat,
    index: map<Key, NodeId>,
    nodes: seq<MemNode>,
    vers: seq<OldVersion>,
    mem: seq<Content>,
    threads: seq<Thread>,
    failed: bool)

  // ----- Thread-local helpers of DBTX -----

  predicate ValidateValue(v: Val) { v.At? }

  /** WriteSet::Lookup: the last entry for the key, if any. */
  function Lookup(ws: seq<WsEntry>, k: Key): Option<Val> {
    if |ws| == 0 then None
    else if ws[|ws| - 1].key == k then Some(ws[|ws| - 1].val)
    else Lookup(ws[..|ws| - 1], k)
  }

  /** ReadSet::Validate: no node read has changed its sequence number. */
  predicate Validate(nodes: seq<MemNode>, rs: seq<RsEntry>) {
    forall e :: e in rs ==> e.node < |nodes| && nodes[e.node].seqno == e.seqno
  }

  /** WriteSet::CheckWriteSet: no node to be written has been removed. */
  predicate CheckWriteSet(nodes: seq<MemNode>, ws: seq<WsEntry>) {
    forall e :: e in ws ==> e.node < |nodes| && nodes[e.node].value != HaveRemoved
  }

  /** GetWithInsert: the node of the key, created with counter 0 if there is none. */
  function IndexInsert(c: Conc, k: Key): (Conc, NodeId) {
    if k in c.index then (c, c.index[k])
    else (c.(index := c.index[k := |c.nodes|],
             nodes := c.nodes + [MemNode(k, LogicalDelete, 0, 0, None)]), |c.nodes|)
  }

  /**
    One round of the loop in WriteSet::Write, together with the entry's share of
    CollectOldVersions and GCRMNodes, which only touch pools of the same thread.
  */
  function WriteOne(c: Conc, t: Tid, e: WsEntry): Conc
    requires t < |c.threads| && e.node < |c.nodes|
    requires c.threads[t].freeVers == [] || c.threads[t].freeVers[0] < |c.vers|
  {
    var th := c.threads[t];
    var nd := c.nodes[e.node];
    var counter := if nd.counter == 0 then c.snapshot else nd.counter;
    var rm := if e.val == LogicalDelete && nd.value != LogicalDelete
              then [RmObj(e.key, e.node, nd.seqno + 1)] + th.rm else th.rm;
    var gcVals := if ValidateValue(nd.value) then [nd.value.p] + th.gcVals else th.gcVals;
    if counter == c.snapshot then
      var nd' := nd.(counter := counter, value := e.val, seqno := nd.seqno + 1);
      c.(nodes := c.nodes[e.node := nd'], threads := c.threads[t := th.(rm := rm, gcVals := gcVals)])
    else if counter < c.snapshot then
      var dummy := OldVersion(nd.value, nd.counter, nd.prior);
      var id := if th.freeVers == [] then |c.vers| else th.freeVers[0];
      var vers := if th.freeVers == [] then c.vers + [dummy] else c.vers[id := dummy];
      var freeVers := if th.freeVers == [] then [] else th.freeVers[1..];
      var nd' := nd.(counter := c.snapshot, value := e.val, seqno := nd.seqno + 1, prior := Some(id));
      c.(nodes := c.nodes[e.node := nd'], vers := vers,
         threads := c.threads[t := th.(rm := rm, gcVals := gcVals, freeVers := freeVers,
                                       gcVers := [id] + th.gcVers)])
    else
      c.(failed := true)
  }

  /** ScanMemNode's walk along oldVersions; a link that does not lead to a smaller counter ends it. */
  function Walk(vers: seq<OldVersion>, v: Option<VerId>, s: nat): Val
    decreases if v.Some? && v.value < |vers| then vers[v.value].counter + 1 else 0
  {
    if v.None? || v.value >= |vers| then LogicalDelete
    else
      var e := vers[v.value];
      if e.counter <= s then e.value
      else if e.next.Some? && e.next.value < |vers| && vers[e.next.value].counter < e.counter
      then Walk(vers, e.next, s)
      else LogicalDelete
  }

  /** DBROTX::ScanMemNode: the value pointer a snapshot reader finds. */
  function ScanMemNode(c: Conc, n: NodeId, s: nat): Val
    requires n < |c.nodes|
  {
    if c.nodes[n].counter <= s then c.nodes[n].value else Walk(c.vers, c.nodes[n].prior, s)
  }

  /** RCU::State::Safe against a copied transaction number. */
  predicate Safe(r: Rcu, c: nat) { r.ended || r.n > c }

  // ----- What happened -----

  /** Outcome of a point read as the caller sees it. */
  datatype Res = Hit(content: Content) | Miss | Garbage

  datatype Write = Write(k: Key, w: Option<Content>)

  /** A read: the key, the number of own writes before it, where it read, what it returned. */
  datatype ReadRec = ReadRec(k: Key, upto: nat, src: Option<RsEntry>, res: Res)

  datatype Commit = Commit(writes: seq<Write>, got: seq<ReadRec>)

  /** Who may use a value buffer. */
  datatype Owner =
    | Free(t: Tid)            // on a free list
    | Pending(t: Tid)         // in a write set
    | Current(n: NodeId)      // the value of a node
    | Retired(t: Tid, at: nat)
    | Leaked                  // belonged to an aborted transaction

  /** Who may use an old-version node: record i of node n's history, until it is freed. */
  datatype VOwner = VFree(t: Tid) | VRetired(t: Tid, n: NodeId, i: nat)

  /** A version pushed off a node at time `at`. */
  datatype Past = Past(id: VerId, counter: nat, value: Val, content: Option<Content>, at: nat)

  datatype NodeAux = NodeAux(hist: seq<Past>, lastWrite: nat)

  datatype ThreadAux = ThreadAux(
    begin: nat, waitStart: nat,
    snap: map<Key, Content>,
    got: seq<ReadRec>, wlog: seq<Write>,
    held: map<Ptr, Content>)

  datatype Aux = Aux(
    time: nat,
    log: seq<Commit>,
    store: map<Key, Content>,
    nodes: seq<NodeAux>,
    ptr: seq<Owner>,
    ver: seq<VOwner>,
    th: seq<ThreadAux>)

  datatype State = State(c: Conc, g: Aux)

  // ----- The specification: a map and a log of commits -----

  function ApplyWrite(m: map<Key, Content>, w: Write): map<Key, Content> {
    if w.w.Some? then m[w.k := w.w.value] else m - {w.k}
  }

  function Apply(m: map<Key, Content>, ws: seq<Write>): map<Key, Content> {
    if |ws| == 0 then m else ApplyWrite(Apply(m, ws[..|ws| - 1]), ws[|ws| - 1])
  }

  /** The store after the commits of a log, in order. */
  function Replay(log: seq<Commit>): map<Key, Content> {
    if |log| == 0 then map[] else Apply(Replay(log[..|log| - 1]), log[|log| - 1].writes)
  }

  function Expect(m: map<Key, Content>, k: Key): Res {
    if k in m then Hit(m[k]) else Miss
  }

  /** Every read returned what a sequential run in commit order would have returned. */
  ghost predicate ReadsExplained(c: Commit, before: map<Key, Content>) {
    forall r :: r in c.got ==>
      r.upto <= |c.writes| && r.res == Expect(Apply(before, c.writes[..r.upto]), r.k)
  }

  ghost predicate Serializable(log: seq<Commit>) {
    forall i :: 0 <= i < |log| ==> ReadsExplained(log[i], Replay(log[..i]))
  }
}
