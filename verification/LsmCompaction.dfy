/** The drop filter of DoCompactionWork. */
module LsmCompaction {
  import opened Common
  import opened Lsm

  /** A merged input key, or one that ParseInternalKey rejects. */
  datatype Item = Good(e: Entry) | Corrupt(raw: nat)

  function GoodOnes(items: seq<Item>): seq<Entry> {
    if items == [] then []
    else if items[|items| - 1].Good? then GoodOnes(items[..|items| - 1]) + [items[|items| - 1].e]
    else GoodOnes(items[..|items| - 1])
  }

  // ----- IsBaseLevelForKey -----

  datatype FileRange = FileRange(smallest: UserKey, largest: UserKey)

  predicate Covers(f: FileRange, k: UserKey) { f.smallest <= k <= f.largest }

  ghost predicate FilesOk(files: seq<FileRange>) {
    && (forall i :: 0 <= i < |files| ==> files[i].smallest <= files[i].largest)
    && (forall i, j :: 0 <= i < j < |files| ==> files[i].largest <= files[j].smallest)
  }

  ghost predicate Covered(levels: seq<seq<FileRange>>, k: UserKey) {
    exists l, i :: 0 <= l < |levels| && 0 <= i < |levels[l]| && Covers(levels[l][i], k)
  }

  /** The files below the two input levels, and one cursor per level that only moves forward. */
  class Compaction {
    const levels: seq<seq<FileRange>>
    var levelPtrs: seq<nat>

    /** Everything before a cursor lies before key k. */
    ghost predicate Valid(k: UserKey)
      reads this
    {
      && |levelPtrs| == |levels|
      && (forall l :: 0 <= l < |levels| ==> FilesOk(levels[l]) && PtrOk(levels[l], levelPtrs[l], k))
    }

    constructor (files: seq<seq<FileRange>>)
      requires forall l :: 0 <= l < |files| ==> FilesOk(files[l])
      ensures levels == files && forall k :: Valid(k)
    {
      levels, levelPtrs := files, seq(|files|, _ => 0);
    }

    /** Exact, as long as the keys asked for do not go down. */
    method IsBaseLevelForKey(k: UserKey) returns (base: bool)
      requires Valid(k)
      modifies this`levelPtrs
      ensures Valid(k) && base == !Covered(levels, k)
    {
      var lvl := 0;
      while lvl < |levels|
        invariant 0 <= lvl <= |levels| && Valid(k)
        invariant forall l, i :: 0 <= l < lvl && 0 <= i < |levels[l]| ==> !Covers(levels[l][i], k)
      {
        var files := levels[lvl];
        var p := levelPtrs[lvl];
        while p < |files| && k > files[p].largest
          invariant PtrOk(files, p, k)
        {
          p := p + 1;
        }
        levelPtrs := levelPtrs[lvl := p];
        if p < |files| && k >= files[p].smallest {
          assert Covers(levels[lvl][p], k);
          return false;
        }
        forall i | 0 <= i < |files| ensures !Covers(levels[lvl][i], k) {
          if p < i { assert files[p].largest <= files[i].smallest; }
        }
        lvl := lvl + 1;
      }
      base := true;
    }
  }

  ghost predicate PtrOk(files: seq<FileRange>, p: nat, k: UserKey) {
    p <= |files| && forall i :: 0 <= i < p ==> files[i].largest < k
  }

  /** Cursors that are right for a key are right for every later key. */
  lemma PtrLater(files: seq<FileRange>, p: nat, k: UserKey, k': UserKey)
    requires PtrOk(files, p, k) && k <= k'
    ensures PtrOk(files, p, k')
  {}

  // ----- The drop rule -----

  /** Item i is hidden by a newer version that every snapshot sees, or is a deletion with nothing left to delete. */
  ghost predicate Drop(items: seq<Item>, i: nat, smallest: nat, levels: seq<seq<FileRange>>)
    requires i < |items|
  {
    && items[i].Good?
    && (Hidden(items, i, smallest)
        || (items[i].e.kind == Deletion && items[i].e.seqno <= smallest && !Covered(levels, items[i].e.key)))
  }

  predicate Hidden(items: seq<Item>, i: nat, smallest: nat)
    requires i < |items| && items[i].Good?
  {
    i > 0 && items[i - 1].Good? && items[i - 1].e.key == items[i].e.key && items[i - 1].e.seqno <= smallest
  }

  ghost function Kept(items: seq<Item>, n: nat, smallest: nat, levels: seq<seq<FileRange>>): seq<Item>
    requires n <= |items|
  {
    if n == 0 then []
    else Kept(items, n - 1, smallest, levels) + (if Drop(items, n - 1, smallest, levels) then [] else [items[n - 1]])
  }

  /** Merged input: user keys never go down. */
  ghost predicate Ascending(items: seq<Item>) {
    forall i, j :: 0 <= i < j < |items| && items[i].Good? && items[j].Good? ==> items[i].e.key <= items[j].e.key
  }

  lemma ValidLater(c: Compaction, k: UserKey, k': UserKey)
    requires c.Valid(k) && k <= k'
    ensures c.Valid(k')
  {
    forall l | 0 <= l < |c.levels| ensures PtrOk(c.levels[l], c.levelPtrs[l], k') {
      PtrLater(c.levels[l], c.levelPtrs[l], k, k');
    }
  }

  /** The loop of DoCompactionWork keeps exactly the items the rule keeps. */
  method DropFilter(items: seq<Item>, smallest: nat, c: Compaction) returns (out: seq<Item>)
    requires smallest < MAX_SEQUENCE && Ascending(items) && forall k :: c.Valid(k)
    modifies c`levelPtrs
    ensures out == Kept(items, |items|, smallest, c.levels)
  {
    hide Covered;
    var has, current, last := false, 0.0, MAX_SEQUENCE;
    ghost var asked: Option<UserKey> := None;
    out := [];
    var i := 0;
    while i < |items|
      invariant 0 <= i <= |items| && out == Kept(items, i, smallest, c.levels)
      invariant has <==> i > 0 && items[i - 1].Good?
      invariant has ==> current == items[i - 1].e.key && last == items[i - 1].e.seqno
      invariant asked.Some? ==> c.Valid(asked.value) && forall j :: i <= j < |items| && items[j].Good? ==> asked.value <= items[j].e.key
      invariant asked.None? ==> forall k :: c.Valid(k)
    {
      var drop := false;
      match items[i] {
        case Corrupt(_) =>
          has, last := false, MAX_SEQUENCE;
        case Good(e) =>
          if !has || e.key != current {
            current, has, last := e.key, true, MAX_SEQUENCE;
          }
          if last <= smallest {
            drop := true;
          } else if e.kind == Deletion && e.seqno <= smallest {
            if asked.Some? { ValidLater(c, asked.value, e.key); }
            drop := c.IsBaseLevelForKey(e.key);
            asked := Some(e.key);
          }
          last := e.seqno;
      }
      assert drop == Drop(items, i, smallest, c.levels);
      if !drop { out := out + [items[i]]; }
      i := i + 1;
    }
  }

  // ----- Compaction preserves reads -----

  /** Versions of a user key come newest first. */
  ghost predicate NewestFirst(items: seq<Item>) {
    forall i, j :: 0 <= i < j < |items| && items[i].Good? && items[j].Good? && items[i].e.key == items[j].e.key ==>
      items[i].e.seqno > items[j].e.seqno
  }

  /**
    Item j is a deletion that every reader from `smallest` on may need and that
    is dropped; item i is an older value of the same key, and a rejected key
    right before it keeps the filter from seeing that it is hidden.
  */
  ghost predicate RevivedAt(newer: seq<Entry>, items: seq<Item>, smallest: nat, levels: seq<seq<FileRange>>, k: UserKey,
                            j: int, i: int)
  {
    && 0 <= j < i < |items| && IsVersion(items, j, k) && items[j].e.kind == Deletion && items[j].e.seqno <= smallest
    && (forall x :: 0 <= x < j && IsVersion(items, x, k) ==> items[x].e.seqno > smallest)
    && (forall y :: y in newer && y.key == k ==> y.seqno > smallest) && !Covered(levels, k)
    && IsVersion(items, i, k) && items[i].e.kind.Put? && items[i - 1].Corrupt?
  }

  ghost predicate Revived(newer: seq<Entry>, items: seq<Item>, smallest: nat, levels: seq<seq<FileRange>>, k: UserKey) {
    exists j, i :: RevivedAt(newer, items, smallest, levels, k, j, i)
  }

  predicate IsVersion(items: seq<Item>, i: int, k: UserKey)
    requires 0 <= i < |items|
  {
    items[i].Good? && items[i].e.key == k
  }

  lemma {:induction false} GoodHas(items: seq<Item>, e: Entry)
    ensures e in GoodOnes(items) <==> Good(e) in items
  {
    if items != [] {
      var rest, x := items[..|items| - 1], items[|items| - 1];
      GoodHas(rest, e);
      assert items == rest + [x];
    }
  }

  lemma {:induction false} KeptHas(items: seq<Item>, n: nat, smallest: nat, levels: seq<seq<FileRange>>, x: Item)
    requires n <= |items|
    ensures x in Kept(items, n, smallest, levels) <==> exists i :: 0 <= i < n && items[i] == x && !Drop(items, i, smallest, levels)
  {
    hide Drop;
    if n > 0 {
      KeptHas(items, n - 1, smallest, levels, x);
    }
  }

  /** The entry a reader wants is dropped only as a deletion that nothing older outlives. */
  lemma DroppedNewest(newer: seq<Entry>, items: seq<Item>, older: seq<Entry>, smallest: nat, levels: seq<seq<FileRange>>,
                      k: UserKey, snapshot: nat, j: nat)
    requires NewestFirst(items) && Ascending(items) && !Revived(newer, items, smallest, levels, k) && smallest <= snapshot
    requires j < |items| && Drop(items, j, smallest, levels)
    requires Newest(newer + GoodOnes(items) + older, k, snapshot, items[j].e)
    requires Layered(newer, GoodOnes(items), k)
    requires forall y :: y in older && y.key == k ==> Covered(levels, k)
    ensures items[j].e.kind == Deletion
    ensures Nothing(newer + GoodOnes(Kept(items, |items|, smallest, levels)) + older, k, snapshot)
  {
    var e, all := items[j].e, newer + GoodOnes(items) + older;
    hide Covered, Kept, GoodOnes, Ascending;
    forall x | 0 <= x < |items| && items[x].Good? ensures items[x].e in all { GoodHas(items, items[x].e); }
    assert !Hidden(items, j, smallest);
    GoodHas(items, e);
    assert forall y :: y in newer && y.key == k ==> y in all && y.seqno > e.seqno;
    var out := Kept(items, |items|, smallest, levels);
    forall x | x in newer + GoodOnes(out) + older ensures !Matches(x, k, snapshot) {
      if x in GoodOnes(out) && x.key == k {
        GoodHas(out, x);
        KeptHas(items, |items|, smallest, levels, Good(x));
        var i :| 0 <= i < |items| && items[i] == Good(x) && !Drop(items, i, smallest, levels);
        assert IsVersion(items, i, k) && IsVersion(items, j, k) && items[i].e in all;
        if j < i {
          KeptLater(newer, items, smallest, levels, k, j, i);
        }
      }
    }
  }

  /** What is kept of k after a dropped deletion is a value that follows a rejected key. */
  lemma KeptLater(newer: seq<Entry>, items: seq<Item>, smallest: nat, levels: seq<seq<FileRange>>, k: UserKey, j: nat, i: nat)
    requires NewestFirst(items) && Ascending(items) && j < i < |items| && IsVersion(items, j, k) && IsVersion(items, i, k)
    requires items[j].e.kind == Deletion && items[j].e.seqno <= smallest && !Covered(levels, k)
    requires forall x :: 0 <= x < j && IsVersion(items, x, k) ==> items[x].e.seqno > smallest
    requires forall y :: y in newer && y.key == k ==> y.seqno > smallest
    requires !Drop(items, i, smallest, levels)
    ensures RevivedAt(newer, items, smallest, levels, k, j, i)
  {
    hide Covered;
  }

  lemma KeptSubset(items: seq<Item>, smallest: nat, levels: seq<seq<FileRange>>, x: Entry)
    requires x in GoodOnes(Kept(items, |items|, smallest, levels))
    ensures x in GoodOnes(items)
  {
    hide Drop;
    GoodHas(Kept(items, |items|, smallest, levels), x);
    KeptHas(items, |items|, smallest, levels, Good(x));
    GoodHas(items, x);
  }

  lemma KeptOrDropped(items: seq<Item>, smallest: nat, levels: seq<seq<FileRange>>, x: Entry)
    requires x in GoodOnes(items)
    ensures x in GoodOnes(Kept(items, |items|, smallest, levels))
            || exists j :: 0 <= j < |items| && items[j] == Good(x) && Drop(items, j, smallest, levels)
  {
    hide Drop;
    GoodHas(items, x);
    var j :| 0 <= j < |items| && items[j] == Good(x);
    KeptHas(items, |items|, smallest, levels, Good(x));
    GoodHas(Kept(items, |items|, smallest, levels), x);
  }

  /** A read before the compaction gives the same after it. */
  lemma ReadsAfter(newer: seq<Entry>, items: seq<Item>, older: seq<Entry>, smallest: nat, levels: seq<seq<FileRange>>,
                   k: UserKey, snapshot: nat, r: Option<Value>)
    requires NewestFirst(items) && Ascending(items) && !Revived(newer, items, smallest, levels, k) && smallest <= snapshot
    requires Layered(newer, GoodOnes(items), k)
    requires forall y :: y in older && y.key == k ==> Covered(levels, k)
    requires Reads(newer + GoodOnes(items) + older, k, snapshot, r)
    ensures Reads(newer + GoodOnes(Kept(items, |items|, smallest, levels)) + older, k, snapshot, r)
  {
    hide Covered, Kept, GoodOnes, Revived, NewestFirst, Ascending;
    var ins, outs := GoodOnes(items), GoodOnes(Kept(items, |items|, smallest, levels));
    var before, after := newer + ins + older, newer + outs + older;
    forall x | x in after ensures x in before {
      if x in outs { KeptSubset(items, smallest, levels, x); }
    }
    if !Nothing(before, k, snapshot) {
      var e :| Newest(before, k, snapshot, e) && r == Answer(e);
      if e in after {
        assert Newest(after, k, snapshot, e);
      } else {
        KeptOrDropped(items, smallest, levels, e);
        var j :| 0 <= j < |items| && items[j] == Good(e) && Drop(items, j, smallest, levels);
        DroppedNewest(newer, items, older, smallest, levels, k, snapshot, j);
      }
    }
  }

  /**
    For every snapshot at or above the smallest one in use, and whatever lies in
    the levels above and below, a key reads the same before and after.
  */
  lemma CompactionPreservesReads(newer: seq<Entry>, items: seq<Item>, older: seq<Entry>, smallest: nat,
                                 levels: seq<seq<FileRange>>, k: UserKey, snapshot: nat, r: Option<Value>)
    requires NewestFirst(items) && Ascending(items) && !Revived(newer, items, smallest, levels, k) && smallest <= snapshot
    requires Layered(newer, GoodOnes(items), k)
    requires forall y :: y in older && y.key == k ==> Covered(levels, k)
    requires OnePerVersion(newer + GoodOnes(items) + older, k)
    ensures Reads(newer + GoodOnes(items) + older, k, snapshot, r)
            <==> Reads(newer + GoodOnes(Kept(items, |items|, smallest, levels)) + older, k, snapshot, r)
  {
    hide Covered, Kept, GoodOnes, Revived, NewestFirst, Ascending, Layered;
    var ins, outs := GoodOnes(items), GoodOnes(Kept(items, |items|, smallest, levels));
    var before, after := newer + ins + older, newer + outs + older;
    var r0 := ReadsSomething(before, k, snapshot);
    ReadsAfter(newer, items, older, smallest, levels, k, snapshot, r0);
    assert OnePerVersion(after, k) by {
      forall x | x in after ensures x in before {
        if x in outs { KeptSubset(items, smallest, levels, x); }
      }
    }
    hide Reads, OnePerVersion;
    if Reads(before, k, snapshot, r) { ReadsOnce(before, k, snapshot, r, r0); }
    if Reads(after, k, snapshot, r) { ReadsOnce(after, k, snapshot, r, r0); }
  }

  /** Without rejected keys nothing is revived. */
  lemma AllGoodNotRevived(newer: seq<Entry>, items: seq<Item>, smallest: nat, levels: seq<seq<FileRange>>, k: UserKey)
    requires forall i :: 0 <= i < |items| ==> items[i].Good?
    ensures !Revived(newer, items, smallest, levels, k)
  {}

  /** Otherwise the reader at the smallest snapshot gets a value in place of nothing. */
  lemma RevivedReads(newer: seq<Entry>, items: seq<Item>, older: seq<Entry>, smallest: nat, levels: seq<seq<FileRange>>, k: UserKey)
    returns (v: Value)
    requires NewestFirst(items) && Ascending(items) && Revived(newer, items, smallest, levels, k)
    requires forall y :: y in older && y.key == k ==> Covered(levels, k)
    ensures Reads(newer + GoodOnes(items) + older, k, smallest, None)
    ensures Reads(newer + GoodOnes(Kept(items, |items|, smallest, levels)) + older, k, smallest, Some(v))
  {
    var j, i :| RevivedAt(newer, items, smallest, levels, k, j, i);
    var ins, out := GoodOnes(items), Kept(items, |items|, smallest, levels);
    var before, after := newer + ins + older, newer + GoodOnes(out) + older;
    hide Covered, Kept, GoodOnes, Ascending, Revived;
    GoodHas(items, items[j].e);
    forall x | x in before && Matches(x, k, smallest) ensures x.seqno <= items[j].e.seqno {
      GoodHas(items, x);
      var n :| 0 <= n < |items| && items[n] == Good(x);
    }
    assert Newest(before, k, smallest, items[j].e);
    var r := ReadsSomething(after, k, smallest);
    assert Good(items[i].e) in out by { KeptHas(items, |items|, smallest, levels, items[i]); }
    GoodHas(out, items[i].e);
    assert items[i].e in after && Matches(items[i].e, k, smallest);
    var e :| Newest(after, k, smallest, e) && r == Answer(e);
    KeptIsValue(newer, items, older, smallest, levels, k, j, i, e);
    v := e.kind.value;
  }

  lemma KeptIsValue(newer: seq<Entry>, items: seq<Item>, older: seq<Entry>, smallest: nat, levels: seq<seq<FileRange>>, k: UserKey,
                    j: int, i: int, e: Entry)
    requires NewestFirst(items) && Ascending(items) && RevivedAt(newer, items, smallest, levels, k, j, i)
    requires forall y :: y in older && y.key == k ==> Covered(levels, k)
    requires e in newer + GoodOnes(Kept(items, |items|, smallest, levels)) + older && Matches(e, k, smallest)
    ensures e.kind.Put?
  {
    var out := Kept(items, |items|, smallest, levels);
    hide Covered, Kept, GoodOnes, Ascending;
    assert e in GoodOnes(out);
    GoodHas(out, e);
    KeptHas(items, |items|, smallest, levels, Good(e));
    var n :| 0 <= n < |items| && items[n] == Good(e) && !Drop(items, n, smallest, levels);
    assert IsVersion(items, n, k);
    if j < n { KeptLater(newer, items, smallest, levels, k, j, n); }
  }

  /** Every reader from the smallest snapshot on reads as before, exactly when nothing is revived. */
  lemma CompactionExact(newer: seq<Entry>, items: seq<Item>, older: seq<Entry>, smallest: nat, levels: seq<seq<FileRange>>, k: UserKey)
    requires NewestFirst(items) && Ascending(items) && Layered(newer, GoodOnes(items), k)
    requires forall y :: y in older && y.key == k ==> Covered(levels, k)
    requires OnePerVersion(newer + GoodOnes(items) + older, k)
    ensures (forall snapshot, r :: smallest <= snapshot ==>
              (Reads(newer + GoodOnes(items) + older, k, snapshot, r)
               <==> Reads(newer + GoodOnes(Kept(items, |items|, smallest, levels)) + older, k, snapshot, r)))
            <==> !Revived(newer, items, smallest, levels, k)
  {
    hide Covered, Kept, GoodOnes, Revived, NewestFirst, Ascending, Layered, Reads, OnePerVersion;
    if !Revived(newer, items, smallest, levels, k) {
      forall snapshot: nat, r | smallest <= snapshot
        ensures Reads(newer + GoodOnes(items) + older, k, snapshot, r)
                <==> Reads(newer + GoodOnes(Kept(items, |items|, smallest, levels)) + older, k, snapshot, r)
      {
        CompactionPreservesReads(newer, items, older, smallest, levels, k, snapshot, r);
      }
    } else {
      var v := RevivedReads(newer, items, older, smallest, levels, k);
      if Reads(newer + GoodOnes(items) + older, k, smallest, Some(v)) {
        ReadsOnce(newer + GoodOnes(items) + older, k, smallest, None, Some(v));
      }
    }
  }

  // ----- Nothing is kept without a reason -----

  /** Some reader from the smallest snapshot on gets this entry. */
  ghost predicate ReadBySomeone(es: seq<Entry>, e: Entry, smallest: nat) {
    exists snapshot :: smallest <= snapshot && Newest(es, e.key, snapshot, e)
  }

  /** A deletion that every such reader may see and that has nothing below it to hide. */
  ghost predicate Obsolete(e: Entry, smallest: nat, levels: seq<seq<FileRange>>) {
    e.kind == Deletion && e.seqno <= smallest && !Covered(levels, e.key)
  }

  /** What the output holds of item i: some reader needs it, or a rejected key hides from the filter that nobody does. */
  ghost predicate Worth(items: seq<Item>, i: nat, smallest: nat, levels: seq<seq<FileRange>>)
    requires i < |items|
  {
    items[i].Good? ==>
      && !Obsolete(items[i].e, smallest, levels)
      && (ReadBySomeone(GoodOnes(items), items[i].e, smallest) || (i > 0 && items[i - 1].Corrupt?))
  }

  /**
    The output is, in the order of the input, the rejected keys and the entries
    that some reader needs, without the obsolete deletions; besides, only an
    entry right after a rejected key is kept.
  */
  lemma KeptExactly(items: seq<Item>, smallest: nat, levels: seq<seq<FileRange>>) returns (idx: seq<nat>)
    requires NewestFirst(items) && Ascending(items)
    ensures Picks(items, Kept(items, |items|, smallest, levels), idx)
    ensures forall i :: 0 <= i < |items| ==> (i in idx <==> Worth(items, i, smallest, levels))
  {
    hide Kept, Drop, Worth, Picks;
    idx := KeptPicks(items, |items|, smallest, levels);
    forall i | 0 <= i < |items| ensures i in idx <==> Worth(items, i, smallest, levels) { KeptWhenRead(items, smallest, levels, i); }
  }

  lemma {:induction false} KeptPicks(items: seq<Item>, n: nat, smallest: nat, levels: seq<seq<FileRange>>) returns (idx: seq<nat>)
    requires n <= |items|
    ensures Picks(items, Kept(items, n, smallest, levels), idx)
    ensures forall i :: i in idx <==> 0 <= i < n && !Drop(items, i, smallest, levels)
  {
    hide Drop, Picks;
    if n == 0 {
      idx := [];
      PicksNone(items);
    } else {
      var out := Kept(items, n - 1, smallest, levels);
      idx := KeptPicks(items, n - 1, smallest, levels);
      if Drop(items, n - 1, smallest, levels) {
        assert Kept(items, n, smallest, levels) == out;
      } else {
        assert forall j :: 0 <= j < |idx| ==> idx[j] in idx;
        PicksMore(items, out, idx, n - 1);
        idx := idx + [n - 1];
      }
    }
  }

  lemma KeptWhenRead(items: seq<Item>, smallest: nat, levels: seq<seq<FileRange>>, i: nat)
    requires NewestFirst(items) && Ascending(items) && i < |items|
    ensures !Drop(items, i, smallest, levels) <==> Worth(items, i, smallest, levels)
  {
    hide Covered, GoodOnes;
    if items[i].Good? {
      if Hidden(items, i, smallest) {
        HiddenNotRead(items, smallest, i);
      } else if i == 0 || items[i - 1].Good? {
        NotHiddenRead(items, smallest, i);
      }
    }
  }

  lemma HiddenNotRead(items: seq<Item>, smallest: nat, i: nat)
    requires NewestFirst(items) && i < |items| && items[i].Good? && Hidden(items, i, smallest)
    ensures !ReadBySomeone(GoodOnes(items), items[i].e, smallest)
  {
    var x, e := items[i - 1].e, items[i].e;
    GoodHas(items, x);
    assert x.seqno > e.seqno;
    hide GoodOnes, NewestFirst;
    forall snapshot: nat | smallest <= snapshot ensures !Newest(GoodOnes(items), e.key, snapshot, e) {
      assert Matches(x, e.key, snapshot) && x in GoodOnes(items);
    }
  }

  lemma NotHiddenRead(items: seq<Item>, smallest: nat, i: nat)
    requires NewestFirst(items) && Ascending(items) && i < |items| && items[i].Good? && (i == 0 || items[i - 1].Good?)
    requires !Hidden(items, i, smallest)
    ensures ReadBySomeone(GoodOnes(items), items[i].e, smallest)
  {
    var e := items[i].e;
    var snapshot := if e.seqno > smallest then e.seqno else smallest;
    GoodHas(items, e);
    hide GoodOnes;
    forall x | x in GoodOnes(items) && Matches(x, e.key, snapshot) ensures x.seqno <= e.seqno {
      GoodHas(items, x);
      var j :| 0 <= j < |items| && items[j] == Good(x);
    }
    assert Newest(GoodOnes(items), e.key, snapshot, e);
  }

  /** A rejected key between a deletion and an older value brings the value back. */
  lemma CorruptKeyRevives(k: UserKey, v: Value)
    ensures var items := [Good(Entry(k, 2, Deletion)), Corrupt(0), Good(Entry(k, 1, Put(v)))];
            && NewestFirst(items) && Ascending(items)
            && Reads(GoodOnes(items), k, 5, None)
            && Reads(GoodOnes(Kept(items, 3, 5, [])), k, 5, Some(v))
  {
    var d, w := Entry(k, 2, Deletion), Entry(k, 1, Put(v));
    var items := [Good(d), Corrupt(0), Good(w)];
    assert Drop(items, 0, 5, []) && !Drop(items, 2, 5, []);
    hide GoodOnes, Kept, Drop;
    var ins, out := GoodOnes(items), Kept(items, 3, 5, []);
    forall x ensures x in ins <==> x == d || x == w {
      GoodHas(items, x);
    }
    assert Newest(ins, k, 5, d);
    forall x ensures x in GoodOnes(out) <==> x == w {
      GoodHas(out, x);
      KeptHas(items, 3, 5, [], Good(x));
      assert items[2] == Good(w);
    }
    assert Newest(GoodOnes(out), k, 5, w);
  }
}
