/** Steps that change one thread's own state and nothing shared. */
module DbxLocal {
  import opened Common
  import opened DbxModel
  import opened DbxSteps
  import opened DbxInvariant

  /** Only thread t, the clock and the log differ. */
  ghost predicate Local(s: State, s': State, t: Tid) {
    && WfSizes(s) && WfSizes(s') && t < |s.c.threads|
    && |s'.c.threads| == |s.c.threads|
    && s.g.time <= s'.g.time
    && s'.c == s.c.(threads := s.c.threads[t := s'.c.threads[t]])
    && s'.g == s.g.(time := s'.g.time, log := s'.g.log, th := s.g.th[t := s'.g.th[t]])
  }

  lemma LocalShared(s: State, s': State, t: Tid)
    requires Local(s, s', t) && SharedOk(s)
    ensures SharedOk(s')
  {
    forall n, i | 0 <= n < |s'.g.nodes| && 0 <= i < |s'.g.nodes[n].hist| ensures PastOk(s', n, i) {
      assert PastOk(s, n, i);
      assert VersionIntact(s', n, i) == VersionIntact(s, n, i);
    }
    forall n | 0 <= n < |s'.c.nodes| ensures NodeOk(s', n) {
      assert NodeOk(s, n);
    }
  }

  /** A state change of thread t's RCU counter that no waiting thread can mistake. */
  ghost predicate RcuMoves(s: State, s': State, t: Tid)
    requires Local(s, s', t)
  {
    var r, r' := s.c.threads[t].rcu, s'.c.threads[t].rcu;
    && r.n <= r'.n
    && (r'.ended || (r == r' && s.g.th[t].begin == s'.g.th[t].begin)
        || (s.g.time < s'.g.time == s'.g.th[t].begin))
  }

  lemma LocalRo(s: State, s': State, t: Tid, u: Tid)
    requires Local(s, s', t) && u < |s.c.threads| && u != t && RoOk(s, u)
    ensures RoOk(s', u)
  {
    var th, ta := s.c.threads[u], s.g.th[u];
    assert s'.c.threads[u] == th && s'.g.th[u] == ta;
    if InRo(th.pc) {
      forall n, i | 0 <= n < |s'.g.nodes| && 0 <= i < |s'.g.nodes[n].hist| && Above(s', n, i) > th.oldsnapshot
        ensures s'.g.nodes[n].hist[i].at >= ta.begin
      {
        assert Above(s, n, i) == Above(s', n, i);
      }
    }
  }

  lemma LocalRw(s: State, s': State, t: Tid, u: Tid)
    requires Local(s, s', t) && u < |s.c.threads| && u != t && RwOk(s, u)
    ensures RwOk(s', u)
  {
    assert s'.c.threads[u] == s.c.threads[u] && s'.g.th[u] == s.g.th[u];
    assert s'.c.nodes == s.c.nodes && s'.c.mem == s.c.mem;
    if InRw(s.c.threads[u].pc) {
      forall i | 0 <= i < |s'.c.threads[u].rs| ensures RsOk(s', s'.c.threads[u].rs[i]) {
        assert RsOk(s, s.c.threads[u].rs[i]);
      }
      forall i | 0 <= i < |s'.g.th[u].got| ensures ReadOk(s', u, s'.g.th[u].got[i]) {
        assert ReadOk(s, u, s.g.th[u].got[i]);
      }
    }
  }

  lemma LocalWrites(s: State, s': State, t: Tid, u: Tid)
    requires Local(s, s', t) && u < |s.c.threads| && u != t && WritesOk(s, u)
    ensures WritesOk(s', u)
  {
    var ws, wlog := s.c.threads[u].ws, s.g.th[u].wlog;
    assert s'.c.threads[u] == s.c.threads[u] && s'.g.th[u] == s.g.th[u];
    forall j | 0 <= j < |ws| ensures EntryOk(s', u, ws[j], wlog[j]) {
      assert EntryOk(s, u, ws[j], wlog[j]);
    }
  }

  lemma LocalPools(s: State, s': State, t: Tid, u: Tid)
    requires Local(s, s', t) && u < |s.c.threads| && u != t
    requires PoolsOk(s, u) && QueuedBefore(s, u) && HeldOk(s, u) && PcOk(s, u)
    ensures PoolsOk(s', u) && QueuedBefore(s', u) && HeldOk(s', u) && PcOk(s', u)
  {
    assert s'.c.threads[u] == s.c.threads[u] && s'.g.th[u] == s.g.th[u];
  }

  lemma LocalWait(s: State, s': State, t: Tid, u: Tid)
    requires Local(s, s', t) && u < |s.c.threads| && u != t
    requires WaitOk(s, u) && QueuedBefore(s, u) && ProtectOk(s, u) && RcuMoves(s, s', t)
    ensures WaitOk(s', u) && ProtectOk(s', u)
  {
    assert s'.c.threads[u] == s.c.threads[u] && s'.g.th[u] == s.g.th[u];
    assert forall i :: 0 <= i < |s.c.threads| && Blocked(s.c.threads[u].pc) && Passed(s, u, i) ==> Passed(s', u, i);
    forall n, i | 0 <= n < |s'.g.nodes| && 0 <= i < |s'.g.nodes[n].hist|
      ensures VersionIntact(s', n, i) == VersionIntact(s, n, i)
    {}
  }

  /** The other threads' part of the invariant. */
  lemma LocalOthers(s: State, s': State, t: Tid, u: Tid)
    requires Local(s, s', t) && u < |s.c.threads| && u != t
    requires ThreadOk(s, u) && RcuMoves(s, s', t)
    ensures ThreadOk(s', u)
  {
    LocalRo(s, s', t, u);
    LocalRw(s, s', t, u);
    LocalWrites(s, s', t, u);
    LocalPools(s, s', t, u);
    LocalWait(s, s', t, u);
  }

  lemma LocalCore(s: State, s': State, t: Tid)
    requires Core(s) && Local(s, s', t) && RcuMoves(s, s', t) && ThreadOk(s', t)
    ensures Core(s')
  {
    LocalShared(s, s', t);
    forall u | 0 <= u < |s'.c.threads| ensures ThreadOk(s', u) {
      if u != t {
        assert ThreadOk(s, u);
        LocalOthers(s, s', t, u);
      }
    }
  }

  // ----- The moving thread itself: parts its step leaves alone -----

  lemma KeepPools(s: State, s': State, t: Tid)
    requires Local(s, s', t) && PoolsOk(s, t)
    requires var th, th' := s.c.threads[t], s'.c.threads[t];
             th'.freeVals == th.freeVals && th'.gcVals == th.gcVals && th'.freeVers == th.freeVers
             && th'.gcVers == th.gcVers && th'.rm == th.rm
    ensures PoolsOk(s', t)
  {}

  lemma KeepProtect(s: State, s': State, t: Tid)
    requires Local(s, s', t) && ProtectOk(s, t)
    requires s'.c.threads[t].rcu.ended || (s'.c.threads[t].rcu == s.c.threads[t].rcu && s'.g.th[t].begin == s.g.th[t].begin)
    ensures ProtectOk(s', t)
  {
    forall n, i | 0 <= n < |s'.g.nodes| && 0 <= i < |s'.g.nodes[n].hist|
      ensures VersionIntact(s', n, i) == VersionIntact(s, n, i)
    {}
  }

  lemma KeepWrites(s: State, s': State, t: Tid)
    requires Local(s, s', t) && WritesOk(s, t)
    requires s'.c.threads[t].ws == s.c.threads[t].ws && s'.g.th[t].wlog == s.g.th[t].wlog
    ensures WritesOk(s', t)
  {
    var ws, wlog := s.c.threads[t].ws, s.g.th[t].wlog;
    forall j | 0 <= j < |ws| ensures EntryOk(s', t, ws[j], wlog[j]) {
      assert EntryOk(s, t, ws[j], wlog[j]);
    }
  }

  /** Read set and recorded reads are as before. */
  lemma KeepReads(s: State, s': State, t: Tid)
    requires Local(s, s', t)
    requires s'.g.th[t].got == s.g.th[t].got && s'.g.th[t].wlog == s.g.th[t].wlog
    requires s.c.threads[t].rs <= s'.c.threads[t].rs
    requires forall i :: 0 <= i < |s.g.th[t].got| ==> ReadOk(s, t, s.g.th[t].got[i])
    ensures forall i :: 0 <= i < |s'.g.th[t].got| ==> ReadOk(s', t, s'.g.th[t].got[i])
  {
    forall i | 0 <= i < |s'.g.th[t].got| ensures ReadOk(s', t, s'.g.th[t].got[i]) {
      assert ReadOk(s, t, s.g.th[t].got[i]);
    }
  }

  /** One more pointer in the caller's hands. */
  lemma KeepHeld(s: State, s': State, t: Tid, v: Val)
    requires Local(s, s', t) && HeldOk(s, t)
    requires s'.g.th[t].held == Hold(s.c, s.g.th[t].held, v) && s'.g.th[t].begin == s.g.th[t].begin
    requires v.At? && v.p < |s.c.mem| ==>
               s.g.ptr[v.p].Current? || s.g.ptr[v.p] == Pending(t)
               || (s.g.ptr[v.p].Retired? && s.g.ptr[v.p].at >= s.g.th[t].begin)
    ensures HeldOk(s', t)
  {}

  /** A read-write thread moves to another point of Get or Add, reading nothing new. */
  lemma PcMove(s: State, s': State, t: Tid)
    requires Local(s, s', t) && ThreadOk(s, t) && InRw(s.c.threads[t].pc)
    requires s' == s.(c := s'.c) && s'.c.threads[t] == s.c.threads[t].(pc := s'.c.threads[t].pc)
    requires var pc := s'.c.threads[t].pc;
             || ((pc.GetRetry? || (pc.GetFound? && AtNode(s, pc.k, pc.n))) && Lookup(s.c.threads[t].ws, pc.k).None?)
             || pc.AddRetry?
             || ((pc.AddFound? || pc.AddChecked?) && AtNode(s, pc.k, pc.n))
    ensures ThreadOk(s', t)
  {
    KeepPools(s, s', t);
    KeepProtect(s, s', t);
    KeepWrites(s, s', t);
    KeepReads(s, s', t);
    assert RwOk(s', t) by {
      forall i | 0 <= i < |s'.c.threads[t].rs| ensures RsOk(s', s'.c.threads[t].rs[i]) {
        assert RsOk(s, s.c.threads[t].rs[i]);
      }
    }
  }

  // ----- RCU counters -----

  lemma BeginIncKeeps(s: State, t: Tid)
    requires Core(s) && t < |s.c.threads| && s.c.threads[t].pc == Idle
    ensures Core(BeginInc(s, t, true)) && Core(BeginInc(s, t, false))
  {
    assert ThreadOk(s, t);
    forall ro: bool ensures Core(BeginInc(s, t, ro)) {
      var s' := BeginInc(s, t, ro);
      KeepPools(s, s', t);
      KeepProtect(s, s', t);
      LocalCore(s, s', t);
    }
  }

  lemma BeginClearKeeps(s: State, t: Tid)
    requires Core(s) && t < |s.c.threads| && s.c.threads[t].pc.Beginning?
    ensures Core(BeginClear(s, t))
  {
    assert ThreadOk(s, t);
    var s' := BeginClear(s, t);
    KeepPools(s, s', t);
    forall n, i | 0 <= n < |s'.g.nodes| && 0 <= i < |s'.g.nodes[n].hist|
      ensures s'.g.nodes[n].hist[i].at < s'.g.th[t].begin
    {
      assert PastOk(s, n, i);
    }
    LocalCore(s, s', t);
  }

  lemma EndRcuKeeps(s: State, t: Tid)
    requires Core(s) && t < |s.c.threads| && s.c.threads[t].pc == Ending
    ensures Core(EndRcu(s, t))
  {
    assert ThreadOk(s, t);
    var s' := EndRcu(s, t);
    KeepPools(s, s', t);
    KeepProtect(s, s', t);
    LocalCore(s, s', t);
  }

  // ----- WaitForGracePeriod -----

  lemma WaitStartKeeps(s: State, t: Tid, job: Job)
    requires Core(s) && t < |s.c.threads| && s.c.threads[t].pc == Idle
    ensures Core(WaitStarted(s, t, job))
  {
    assert ThreadOk(s, t);
    var s' := WaitStarted(s, t, job);
    KeepPools(s, s', t);
    KeepProtect(s, s', t);
    assert QueuedBefore(s', t) by {
      var th := s'.c.threads[t];
      forall i | 0 <= i < |th.gcVers|
        ensures var o := s'.g.ver[th.gcVers[i]]; s'.g.nodes[o.n].hist[o.i].at < s'.g.time
      {
        var o := s.g.ver[th.gcVers[i]];
        assert PastOk(s, o.n, o.i);
      }
      forall i | 0 <= i < |th.rm| ensures s'.g.nodes[th.rm[i].node].lastWrite < s'.g.time {
        assert RmOk(s, th.rm[i]);
        assert NodeOk(s, th.rm[i].node);
      }
    }
    LocalCore(s, s', t);
  }

  lemma WaitCopyKeeps(s: State, t: Tid)
    requires Core(s) && t < |s.c.threads|
    requires s.c.threads[t].pc.Waiting? && |s.c.threads[t].pc.cs| < |s.c.threads|
    ensures Core(WaitCopied(s, t))
  {
    assert ThreadOk(s, t);
    var s' := WaitCopied(s, t);
    KeepPools(s, s', t);
    KeepProtect(s, s', t);
    assert WaitOk(s', t) by {
      var pc, pc' := s.c.threads[t].pc, s'.c.threads[t].pc;
      forall i | 0 <= i < |pc'.cs|
        ensures pc'.cs[i] <= s'.c.threads[i].rcu.n && (s'.c.threads[i].rcu.n > pc'.cs[i] ==> Passed(s', t, i))
      {
        assert s'.c.threads[i].rcu == s.c.threads[i].rcu && s'.g.th[i] == s.g.th[i];
        if i < |pc.cs| { assert pc'.cs[i] == pc.cs[i]; }
      }
      forall i | 0 <= i < pc'.checked && i != t ensures Passed(s', t, i) {
        assert Passed(s, t, i);
      }
    }
    LocalCore(s, s', t);
  }

  lemma WaitCheckKeeps(s: State, t: Tid)
    requires Core(s) && Enabled(s, WaitCheck(t))
    ensures Core(WaitChecked(s, t))
  {
    hide IndexOk, StoreOk, ChainsOk, ProtectOk;
    assert ThreadOk(s, t);
    var s' := WaitChecked(s, t);
    KeepPools(s, s', t);
    KeepProtect(s, s', t);
    assert WaitOk(s', t) by {
      forall i | 0 <= i <= s.c.threads[t].pc.checked && i != t ensures Passed(s', t, i) {
        assert Passed(s, t, i);
        assert s'.c.threads[i] == s.c.threads[i] && s'.g.th[i] == s.g.th[i];
      }
      forall i | 0 <= i < |s.c.threads|
        ensures s'.c.threads[i].rcu == s.c.threads[i].rcu && Passed(s', t, i) == Passed(s, t, i)
      {}
    }
    LocalCore(s, s', t);
  }

  lemma RemoveDoneKeeps(s: State, t: Tid)
    requires Core(s) && t < |s.c.threads| && s.c.threads[t].pc.Reclaiming?
    ensures Core(RemoveFinished(s, t))
  {
    assert ThreadOk(s, t);
    var s' := RemoveFinished(s, t);
    KeepPools(s, s', t);
    KeepProtect(s, s', t);
    LocalCore(s, s', t);
  }

  // ----- Get -----

  /** The write set and the recorded writes tell the same story. */
  lemma LookupIsLast(s: State, t: Tid, ws: seq<WsEntry>, wlog: seq<Write>, k: Key)
    requires WfSizes(s) && |ws| == |wlog|
    requires forall j :: 0 <= j < |ws| ==> EntryOk(s, t, ws[j], wlog[j])
    ensures Lookup(ws, k).Some? <==> LastOf(wlog, k).Some?
    ensures Lookup(ws, k).Some? ==>
              var v := Lookup(ws, k).value;
              && v != HaveRemoved
              && (v == LogicalDelete <==> LastOf(wlog, k).value == None)
              && (v.At? ==> v.p < |s.c.mem| && s.g.ptr[v.p] == Pending(t)
                            && LastOf(wlog, k).value == Some(s.c.mem[v.p]))
  {
    if |ws| > 0 {
      assert EntryOk(s, t, ws[|ws| - 1], wlog[|ws| - 1]);
      LookupIsLast(s, t, ws[..|ws| - 1], wlog[..|ws| - 1], k);
    }
  }

  lemma OwnReadRw(s: State, s': State, t: Tid, r: ReadRec)
    requires Local(s, s', t) && RwOk(s, t) && s.c.threads[t].pc == Ready
    requires s'.c == s.c && s'.g.th[t].wlog == s.g.th[t].wlog && s'.g.th[t].got == s.g.th[t].got + [r]
    requires r.upto == |s.g.th[t].wlog| && r.src == None
    requires LastOf(s.g.th[t].wlog, r.k).Some? && r.res == ResOf(LastOf(s.g.th[t].wlog, r.k).value)
    ensures RwOk(s', t)
  {
    var wlog := s.g.th[t].wlog;
    assert wlog[..|wlog|] == wlog;
    forall i | 0 <= i < |s'.g.th[t].got| ensures ReadOk(s', t, s'.g.th[t].got[i]) {
      if i < |s.g.th[t].got| { assert ReadOk(s, t, s.g.th[t].got[i]); }
    }
    forall i | 0 <= i < |s'.c.threads[t].rs| ensures RsOk(s', s'.c.threads[t].rs[i]) {
      assert RsOk(s, s.c.threads[t].rs[i]);
    }
  }

  /** WriteSet::Lookup in a running transaction finds the last write the caller made. */
  lemma OwnLookup(s: State, t: Tid, k: Key)
    requires WfSizes(s) && t < |s.c.threads| && WritesOk(s, t) && Lookup(s.c.threads[t].ws, k).Some?
    ensures var v := Lookup(s.c.threads[t].ws, k).value;
            && LastOf(s.g.th[t].wlog, k).Some?
            && ResOf(LastOf(s.g.th[t].wlog, k).value) == (if v == LogicalDelete then Miss else Returned(s.c, v))
            && (v.At? ==> v.p < |s.c.mem| && s.g.ptr[v.p] == Pending(t))
  {
    LookupIsLast(s, t, s.c.threads[t].ws, s.g.th[t].wlog, k);
  }

  lemma OwnReadKeeps(s: State, t: Tid, k: Key)
    requires Core(s) && t < |s.c.threads| && s.c.threads[t].pc == Ready && Lookup(s.c.threads[t].ws, k).Some?
    ensures Core(OwnRead(s, t, k))
  {
    assert ThreadOk(s, t);
    var s' := OwnRead(s, t, k);
    OwnLookup(s, t, k);
    OwnReadRw(s, s', t, s'.g.th[t].got[|s.g.th[t].got|]);
    KeepHeld(s, s', t, Lookup(s.c.threads[t].ws, k).value);
    KeepPools(s, s', t);
    KeepProtect(s, s', t);
    KeepWrites(s, s', t);
    LocalCore(s, s', t);
  }

  lemma RegionKeeps(s: State, t: Tid)
    requires Core(s) && Enabled(s, GetRegion(t))
    ensures Core(Region(s, t))
  {
    hide IndexOk, StoreOk, ChainsOk, PoolsOk, QueuedBefore, ProtectOk;
    assert ThreadOk(s, t);
    var s' := Region(s, t);
    KeepPools(s, s', t);
    KeepProtect(s, s', t);
    KeepWrites(s, s', t);
    KeepReads(s, s', t);
    assert RwOk(s', t) by {
      forall i | 0 <= i < |s'.c.threads[t].rs| ensures RsOk(s', s'.c.threads[t].rs[i]) {
        if i < |s.c.threads[t].rs| { assert RsOk(s, s.c.threads[t].rs[i]); }
      }
    }
    LocalCore(s, s', t);
  }

  /** Extending the recorded reads by one that an unchanged number vouches for. */
  lemma ReadAdded(s: State, s': State, t: Tid, r: ReadRec)
    requires Core(s) && Local(s, s', t)
    requires s.c.threads[t].pc.GetAdded? || s.c.threads[t].pc.GetChecked?
    requires s'.c.threads[t] == s.c.threads[t].(pc := Ready)
    requires s'.g.th[t].got == s.g.th[t].got + [r] && s'.g.th[t].wlog == s.g.th[t].wlog
    requires |s.c.threads[t].rs| > 0
    requires var e := s.c.threads[t].rs[|s.c.threads[t].rs| - 1];
             && r.k == s.c.threads[t].pc.k && r.upto == |s.g.th[t].wlog| && r.src == Some(e)
             && (e.node < |s.c.nodes| && s.c.nodes[e.node].seqno == e.seqno ==>
                   r.res == ResOf(ContentOf(s.c, s.c.nodes[e.node].value)))
    ensures RwOk(s', t)
  {
    assert ThreadOk(s, t);
    var wlog := s.g.th[t].wlog;
    assert wlog[..|wlog|] == wlog;
    LookupIsLast(s, t, s.c.threads[t].ws, wlog, r.k);
    forall i | 0 <= i < |s'.g.th[t].got| ensures ReadOk(s', t, s'.g.th[t].got[i]) {
      if i < |s.g.th[t].got| { assert ReadOk(s, t, s.g.th[t].got[i]); }
    }
    forall i | 0 <= i < |s'.c.threads[t].rs| ensures RsOk(s', s'.c.threads[t].rs[i]) {
      assert RsOk(s, s.c.threads[t].rs[i]);
    }
  }

  /** The first look at the value found a buffer. */
  lemma FirstReadPasses(s: State, s': State, t: Tid)
    requires Local(s, s', t) && ThreadOk(s, t) && s.c.threads[t].pc.GetAdded?
    requires var pc := s.c.threads[t].pc;
             && s' == s.(c := s'.c) && s'.c.threads[t] == s.c.threads[t].(pc := GetChecked(pc.k, pc.n))
             && pc.n < |s.c.nodes| && s.c.nodes[pc.n].value.At?
    ensures ThreadOk(s', t)
  {
    KeepPools(s, s', t);
    KeepProtect(s, s', t);
    KeepWrites(s, s', t);
    KeepReads(s, s', t);
    assert RwOk(s', t) by {
      forall i | 0 <= i < |s'.c.threads[t].rs| ensures RsOk(s', s'.c.threads[t].rs[i]) {
        assert RsOk(s, s.c.threads[t].rs[i]);
      }
    }
  }

  lemma FirstReadMisses(s: State, t: Tid)
    requires Core(s) && Enabled(s, GetFirstRead(t))
    requires !ValidateValue(s.c.nodes[s.c.threads[t].pc.n].value)
    ensures ThreadOk(FirstRead(s, t), t)
  {
    assert ThreadOk(s, t);
    var s' := FirstRead(s, t);
    var th := s.c.threads[t];
    KeepPools(s, s', t);
    KeepProtect(s, s', t);
    KeepWrites(s, s', t);
    assert RsOk(s, th.rs[|th.rs| - 1]);
    ReadAdded(s, s', t, ReadRec(th.pc.k, |s.g.th[t].wlog|, Some(th.rs[|th.rs| - 1]), Miss));
  }

  lemma FirstReadKeeps(s: State, t: Tid)
    requires Core(s) && Enabled(s, GetFirstRead(t))
    ensures Core(FirstRead(s, t))
  {
    assert ThreadOk(s, t);
    var s' := FirstRead(s, t);
    if ValidateValue(s.c.nodes[s.c.threads[t].pc.n].value) {
      assert s.g.th[t := s.g.th[t]] == s.g.th;
      FirstReadPasses(s, s', t);
    } else {
      FirstReadMisses(s, t);
    }
    LocalCore(s, s', t);
  }

  lemma SecondReadKeeps(s: State, t: Tid)
    requires Core(s) && Enabled(s, GetSecondRead(t))
    ensures Core(SecondRead(s, t))
  {
    hide IndexOk, StoreOk, PoolsOk, QueuedBefore, ProtectOk;
    assert ThreadOk(s, t);
    var s' := SecondRead(s, t);
    var th := s.c.threads[t];
    var v := s.c.nodes[th.pc.n].value;
    assert NodeOk(s, th.pc.n);
    KeepPools(s, s', t);
    KeepProtect(s, s', t);
    KeepWrites(s, s', t);
    ReadAdded(s, s', t, ReadRec(th.pc.k, |s.g.th[t].wlog|, Some(th.rs[|th.rs| - 1]), Returned(s.c, v)));
    LocalCore(s, s', t);
  }

  lemma AddTestKeeps(s: State, t: Tid)
    requires Core(s) && Enabled(s, AddCheck(t))
    ensures Core(AddTested(s, t))
  {
    assert ThreadOk(s, t);
    var s' := AddTested(s, t);
    PcMove(s, s', t);
    LocalCore(s, s', t);
  }

  // ----- Read-only transactions -----

  /** Everything the walk can reach is intact, so it ends at the version the history names. */
  lemma WalkFollowsHistory(s: State, n: NodeId, snap: nat, j: nat)
    requires SharedOk(s) && n < |s.c.nodes| && j <= |s.g.nodes[n].hist|
    requires j > 0 ==> Above(s, n, j - 1) > snap
    requires forall i :: 0 <= i < |s.g.nodes[n].hist| && Above(s, n, i) > snap ==>
               VersionIntact(s, n, i) && ValueIntact(s, s.g.nodes[n].hist[i])
    ensures var hist := s.g.nodes[n].hist;
            var v := Walk(s.c.vers, LinkTo(hist, j), snap);
            && ContentOf(s.c, v) == SnapIn(hist[..j], snap)
            && (v.At? ==> exists i :: 0 <= i < j && hist[i].value == v && Above(s, n, i) > snap)
  {
    hide IndexOk, StoreOk;
    var hist := s.g.nodes[n].hist;
    if j > 0 {
      var h := hist[j - 1];
      assert PastOk(s, n, j - 1);
      assert hist[..j][..j - 1] == hist[..j - 1];
      if h.counter > snap && j > 1 {
        assert PastOk(s, n, j - 2);
        assert Above(s, n, j - 2) == h.counter;
        WalkFollowsHistory(s, n, snap, j - 1);
      }
    }
  }

  /** ScanMemNode returns the bytes committed when the transaction took its snapshot. */
  lemma ScanReadsSnapshot(s: State, t: Tid, n: NodeId)
    requires Core(s) && t < |s.c.threads| && InRo(s.c.threads[t].pc) && n < |s.c.nodes|
    ensures var snap := s.c.threads[t].oldsnapshot;
            var v := ScanMemNode(s.c, n, snap);
            && ContentOf(s.c, v) == SnapOf(s, n, snap)
            && (v.At? ==> v.p < |s.g.ptr| && (s.g.ptr[v.p].Current? ||
                            (s.g.ptr[v.p].Retired? && s.g.ptr[v.p].at >= s.g.th[t].begin)))
  {
    assert ThreadOk(s, t);
    assert NodeOk(s, n);
    var snap := s.c.threads[t].oldsnapshot;
    var hist := s.g.nodes[n].hist;
    if s.c.nodes[n].counter > snap {
      assert hist[..|hist|] == hist;
      WalkFollowsHistory(s, n, snap, |hist|);
      var v := ScanMemNode(s.c, n, snap);
      if v.At? {
        var i :| 0 <= i < |hist| && hist[i].value == v && Above(s, n, i) > snap;
        assert ValueIntact(s, hist[i]);
      }
    }
  }

  lemma KeepRo(s: State, s': State, t: Tid)
    requires Local(s, s', t) && RoOk(s, t) && InRo(s.c.threads[t].pc)
    requires s'.c.threads[t] == s.c.threads[t].(pc := s'.c.threads[t].pc)
    requires s'.g.th[t].begin == s.g.th[t].begin && s'.g.th[t].snap == s.g.th[t].snap
    requires forall i :: 0 <= i < |s'.g.th[t].got| ==>
               s'.g.th[t].got[i].res == Expect(s.g.th[t].snap, s'.g.th[t].got[i].k)
    requires s'.c.threads[t].pc.RoFound? ==>
               var pc := s'.c.threads[t].pc;
               if pc.rn.None? then pc.k !in s.g.th[t].snap
               else pc.rn.value < |s.c.nodes| && SnapOf(s, pc.rn.value, s.c.threads[t].oldsnapshot) == Find(s.g.th[t].snap, pc.k)
    ensures RoOk(s', t)
  {
    var th, ta := s.c.threads[t], s.g.th[t];
    forall n, i | 0 <= n < |s'.g.nodes| && 0 <= i < |s'.g.nodes[n].hist| && Above(s', n, i) > th.oldsnapshot
      ensures s'.g.nodes[n].hist[i].at >= ta.begin
    {
      assert Above(s, n, i) == Above(s', n, i);
    }
  }

  lemma RoIndexKeeps(s: State, t: Tid, k: Key)
    requires Core(s) && Enabled(s, RoIndex(t, k))
    ensures Core(RoIndexed(s, t, k))
  {
    assert ThreadOk(s, t);
    var s' := RoIndexed(s, t, k);
    KeepPools(s, s', t);
    KeepProtect(s, s', t);
    KeepRo(s, s', t);
    LocalCore(s, s', t);
  }

  lemma RoScanKeeps(s: State, t: Tid)
    requires Core(s) && Enabled(s, RoScan(t))
    ensures Core(RoScanned(s, t))
  {
    hide IndexOk, StoreOk, ChainsOk, PoolsOk, QueuedBefore, ProtectOk;
    assert ThreadOk(s, t);
    var s' := RoScanned(s, t);
    var v := if s.c.threads[t].pc.rn.None? then LogicalDelete
             else ScanMemNode(s.c, s.c.threads[t].pc.rn.value, s.c.threads[t].oldsnapshot);
    if s.c.threads[t].pc.rn.Some? {
      ScanReadsSnapshot(s, t, s.c.threads[t].pc.rn.value);
    }
    KeepHeld(s, s', t, v);
    KeepPools(s, s', t);
    KeepProtect(s, s', t);
    KeepRo(s, s', t);
    LocalCore(s, s', t);
  }

  lemma RoEndKeeps(s: State, t: Tid)
    requires Core(s) && Enabled(s, RoEnd(t))
    ensures Core(Next(s, RoEnd(t)))
  {
    assert ThreadOk(s, t);
    var s' := Next(s, RoEnd(t));
    KeepPools(s, s', t);
    KeepProtect(s, s', t);
    LocalCore(s, s', t);
  }
}
