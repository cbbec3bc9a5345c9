/**
  DBIter: the user's view of a stream of internal entries at a snapshot.  The
  internal iterator is a list of entries in internal order and a position; -1
  and the length are its two invalid positions.
*/
module DbIter {
  import opened Common
  import opened Lsm

  /** One internal entry: user key, sequence number, type byte and value. */
  datatype Item = Item(key: UserKey, seqno: nat, code: Byte, value: Value)

  /** ParseInternalKey accepts the two type bytes for deletions and values only. */
  predicate Parses(x: Item) { x.code <= 1 }

  function ItemTag(x: Item): nat { x.seqno * 256 + x.code }

  /** Internal order; one entry for each version of a key. */
  ghost predicate Stream(items: seq<Item>) {
    && (forall i, j :: 0 <= i < j < |items| ==> Before(items[i].key, ItemTag(items[i]), items[j].key, ItemTag(items[j])))
    && (forall i, j :: 0 <= i < j < |items| && items[i].key == items[j].key && Parses(items[i]) && Parses(items[j]) ==>
          items[i].seqno != items[j].seqno)
  }

  lemma StreamOrder(items: seq<Item>, i: nat, j: nat)
    requires Stream(items) && i < j < |items|
    ensures items[i].key <= items[j].key && (items[i].key == items[j].key ==> items[i].seqno >= items[j].seqno)
  {
    assert Before(items[i].key, ItemTag(items[i]), items[j].key, ItemTag(items[j]));
  }

  predicate Seen(x: Item, s: nat) { Parses(x) && x.seqno <= s }

  /** Entry i is what the user gets for its key: a value, and no entry before it is seen for that key. */
  ghost predicate Shown(items: seq<Item>, s: nat, i: int) {
    && 0 <= i < |items| && Seen(items[i], s) && items[i].code == 1
    && forall j :: 0 <= j < i && items[j].key == items[i].key ==> !Seen(items[j], s)
  }

  ghost predicate NoneShown(items: seq<Item>, s: nat, lo: int, hi: int) {
    forall i :: lo <= i < hi ==> !Shown(items, s, i)
  }

  /** Shown entries have growing keys. */
  lemma ShownGrow(items: seq<Item>, s: nat, i: nat, j: nat)
    requires Stream(items) && i < j && Shown(items, s, i) && Shown(items, s, j)
    ensures items[i].key < items[j].key
  {
    StreamOrder(items, i, j);
  }

  /** What FindNextUserEntry looks for when the keys up to `skip` are to be hidden. */
  ghost predicate Wanted(items: seq<Item>, s: nat, skipping: bool, skip: UserKey, i: int) {
    Shown(items, s, i) && (skipping ==> items[i].key > skip)
  }

  /** Entries from p on whose key was already seen before p are to be hidden. */
  ghost predicate Hiding(items: seq<Item>, s: nat, p: int, skipping: bool, skip: UserKey) {
    forall j, i :: 0 <= j < p <= i < |items| && items[j].key == items[i].key && Seen(items[j], s) ==>
      skipping && items[i].key <= skip
  }

  /** Keys hidden from p on are not wanted. */
  ghost predicate HidesOnly(items: seq<Item>, s: nat, p: int, skipping: bool, skip: UserKey, skipping0: bool, skip0: UserKey) {
    skipping ==> forall i :: 0 <= p <= i < |items| && items[i].key <= skip ==> !Wanted(items, s, skipping0, skip0, i)
  }

  ghost predicate NoneWanted(items: seq<Item>, s: nat, skipping: bool, skip: UserKey, lo: int, hi: int) {
    forall i :: lo <= i < hi ==> !Wanted(items, s, skipping, skip, i)
  }

  /** Some entry from lo up to hi does not parse. */
  ghost predicate Tainted(items: seq<Item>, lo: int, hi: int) {
    exists i :: 0 <= i < |items| && lo <= i < hi && !Parses(items[i])
  }

  const EMPTY: UserKey := 0.0
  const BLANK: Value := 0

  class DBIter {
    const items: seq<Item>
    const s: nat
    var pos: int
    var savedKey: UserKey
    var savedValue: Value
    var forward: bool
    var valid: bool
    var corrupt: bool
    /** The index of the entry the user is at. */
    ghost var at: int

    function Key(): UserKey
      requires forward ==> 0 <= pos < |items|
      reads this
    {
      if forward then items[pos].key else savedKey
    }

    function Val(): Value
      requires forward ==> 0 <= pos < |items|
      reads this
    {
      if forward then items[pos].value else savedValue
    }

    ghost predicate Inv()
      reads this
    {
      Stream(items) && -1 <= pos <= |items| && (valid ==> Shown(items, s, at) && if forward then pos == at else Behind())
    }

    /** Moving backwards, the position is the last seen entry before the user's key. */
    ghost predicate Behind()
      requires Shown(items, s, at)
      reads this
    {
      && savedKey == items[at].key && savedValue == items[at].value && -1 <= pos < at
      && (pos >= 0 ==> items[pos].key < savedKey && Seen(items[pos], s))
      && (forall j :: pos < j < |items| && items[j].key < savedKey ==> !Seen(items[j], s))
    }

    constructor (items: seq<Item>, s: nat)
      requires Stream(items)
      ensures Inv() && !valid && this.items == items && this.s == s && !corrupt
    {
      this.items, this.s := items, s;
      pos, forward, valid, corrupt := -1, true, false, false;
      savedKey, savedValue := EMPTY, BLANK;
    }

    method ParseKey() returns (ok: bool)
      requires 0 <= pos < |items|
      modifies this`corrupt
      ensures ok == Parses(items[pos])
      ensures corrupt == (old(corrupt) || !ok)
    {
      ok := Parses(items[pos]);
      if !ok { corrupt := true; }
    }

    /** The first entry to show from the position on, past the keys to skip. */
    method FindNextUserEntry(skipping0: bool)
      requires Stream(items) && forward && 0 <= pos < |items|
      requires Hiding(items, s, pos, skipping0, savedKey) && (skipping0 ==> savedKey <= items[pos].key)
      modifies this
      ensures Inv() && forward && old(pos) <= pos
      ensures valid ==> Wanted(items, s, skipping0, old(savedKey), pos)
      ensures NoneWanted(items, s, skipping0, old(savedKey), old(pos), if valid then pos else |items|)
      ensures corrupt == (old(corrupt) || Tainted(items, old(pos), if valid then pos + 1 else |items|))
    {
      hide Hiding, HidesOnly, Stream, Shown, Wanted, Tainted, NoneWanted;
      FirstHidden(items, s, pos, skipping0, savedKey);
      NotTainted(items, pos);
      var skipping := skipping0;
      ghost var skip0, p0 := savedKey, pos;
      while true
        invariant p0 <= pos < |items| && forward
        invariant skipping0 ==> skipping && skip0 <= savedKey
        invariant skipping ==> savedKey <= items[pos].key
        invariant Hiding(items, s, pos, skipping, savedKey)
        invariant HidesOnly(items, s, pos, skipping, savedKey, skipping0, skip0)
        invariant NoneWanted(items, s, skipping0, skip0, p0, pos)
        invariant corrupt == (old(corrupt) || Tainted(items, p0, pos))
        decreases |items| - pos
      {
        var ok := ParseKey();
        TaintedUp(items, p0, pos);
        ghost var wasSkipping, wasSkip := skipping, savedKey;
        if ok && items[pos].seqno <= s {
          if items[pos].code == 0 {
            savedKey := items[pos].key;
            skipping := true;
          } else if skipping && items[pos].key <= savedKey {
          } else {
            StopsHere(items, s, pos, skipping, savedKey, skipping0, skip0);
            valid := true;
            savedKey := EMPTY;
            at := pos;
            return;
          }
        }
        PassedBy(items, s, p0, pos, wasSkipping, wasSkip, skipping, savedKey, skipping0, skip0);
        pos := pos + 1;
        if pos == |items| { break; }
      }
      savedKey := EMPTY;
      valid := false;
    }

    /** The last entry to show up to the position. */
    method FindPrevUserEntry()
      requires Stream(items) && !forward && -1 <= pos < |items|
      modifies this
      ensures Inv()
      ensures valid ==> !forward && at <= old(pos) && NoneShown(items, s, at + 1, old(pos) + 1)
      ensures !valid ==> NoneShown(items, s, 0, old(pos) + 1) && pos == -1
      ensures corrupt == (old(corrupt) || Tainted(items, pos + 1, old(pos) + 1))
    {
      hide Tainted;
      NotTainted(items, pos + 1);
      var isValue := false;
      ghost var p0, c := pos, -1;
      while pos >= 0
        invariant -1 <= pos <= p0 && !forward
        invariant !isValue ==> NoneShown(items, s, pos + 1, p0 + 1)
        invariant isValue ==> Candidate(items, s, pos, c, p0) && savedKey == items[c].key && savedValue == items[c].value
        invariant corrupt == (old(corrupt) || Tainted(items, pos + 1, p0 + 1))
      {
        var ok := ParseKey();
        TaintedDown(items, pos, p0 + 1);
        if ok && items[pos].seqno <= s {
          if isValue && items[pos].key < savedKey {
            break;
          }
          if isValue { StreamOrder(items, pos, c); }
          SeenBefore(items, s, pos, p0, isValue, c);
          isValue := items[pos].code == 1;
          if !isValue {
            savedKey := EMPTY;
            savedValue := BLANK;
          } else {
            savedKey := items[pos].key;
            savedValue := items[pos].value;
            c := pos;
          }
        }
        pos := pos - 1;
      }
      if !isValue {
        valid := false;
        savedKey := EMPTY;
        savedValue := BLANK;
        forward := true;
      } else {
        valid := true;
        at := c;
        CandidateShown(items, s, pos, c, p0);
      }
    }

    method SeekToFirst()
      requires Inv()
      modifies this
      ensures Inv()
      ensures valid ==> forward && NoneShown(items, s, 0, at)
      ensures !valid ==> NoneShown(items, s, 0, |items|)
      ensures corrupt == (old(corrupt) || Tainted(items, 0, if valid then at + 1 else |items|))
    {
      forward := true;
      savedValue := BLANK;
      pos := 0;
      if pos < |items| {
        ShownWanted(items, s, savedKey);
        FindNextUserEntry(false);
      } else {
        valid := false;
      }
    }

    method SeekToLast()
      requires Inv()
      modifies this
      ensures Inv()
      ensures valid ==> !forward && NoneShown(items, s, at + 1, |items|)
      ensures !valid ==> NoneShown(items, s, 0, |items|) && pos == -1
      ensures corrupt == (old(corrupt) || Tainted(items, pos + 1, |items|))
    {
      forward := false;
      savedValue := BLANK;
      pos := |items| - 1;
      FindPrevUserEntry();
    }

    /** Seek: the first shown key at or after the target. */
    method Seek(target: UserKey)
      requires Inv()
      modifies this
      ensures Inv()
      ensures valid ==> forward && items[at].key >= target
      ensures forall i :: 0 <= i < (if valid then at else |items|) && Shown(items, s, i) ==> items[i].key < target
    {
      forward := true;
      savedValue := BLANK;
      savedKey := target;
      SeekInternal(target);
      if pos < |items| {
        BeforeTarget(items, s, pos, target);
        ShownWanted(items, s, savedKey);
        FindNextUserEntry(false);
      } else {
        valid := false;
      }
    }

    /** The internal iterator's Seek to the key (target, s, kValueTypeForSeek). */
    method SeekInternal(target: UserKey)
      requires Stream(items)
      modifies this`pos
      ensures Located(items, s, pos, target)
    {
      pos := 0;
      while pos < |items| && Before(items[pos].key, ItemTag(items[pos]), target, Pack(s, true))
        invariant 0 <= pos <= |items|
        invariant forall i :: 0 <= i < pos ==> Before(items[i].key, ItemTag(items[i]), target, Pack(s, true))
      {
        pos := pos + 1;
      }
    }

    /**
      Next: the next shown entry.  After a backward move this holds exactly when
      the entry behind the internal position already has the user's key;
      otherwise the user's entry comes once more.
    */
    method Next()
      requires Inv() && valid
      modifies this
      ensures Inv() && (valid ==> forward)
      ensures old(forward || items[pos + 1].key == savedKey) ==> NextShown(items, s, old(at), valid, at)
      ensures !old(forward || items[pos + 1].key == savedKey) ==> valid && at == old(at)
      ensures corrupt == (old(corrupt) || Tainted(items, if old(forward) then old(at) else old(pos) + 1, if valid then at + 1 else |items|))
    {
      hide Tainted;
      if !forward {
        BackOver(items, s, pos, at);
        forward := true;
        if pos < 0 {
          pos := 0;
        } else {
          pos := pos + 1;
        }
        // The user's entry lies ahead, so the internal iterator is valid here.
        assert pos < |items|;
      }
      savedKey := items[pos].key;
      ghost var p, k := pos, savedKey;
      assert Hiding(items, s, pos, true, k);
      FindNextUserEntry(true);
      NextIs(items, s, old(at), p, k, valid, at);
    }

    /** Prev: the shown entry before, also right after a forward move. */
    method Prev()
      requires Inv() && valid
      modifies this
      ensures Inv()
      ensures valid ==> !forward && at < old(at) && NoneShown(items, s, at + 1, old(at))
      ensures !valid ==> NoneShown(items, s, 0, old(at))
      ensures !old(forward) ==> corrupt == (old(corrupt) || Tainted(items, pos + 1, old(pos) + 1)) && (!valid ==> pos == -1)
    {
      if forward {
        savedKey := items[pos].key;
        pos := pos - 1;
        while pos >= 0 && items[pos].key >= savedKey
          invariant -1 <= pos < at == old(at) && savedKey == items[at].key
          invariant NoneShown(items, s, pos + 1, at)
        {
          StreamOrder(items, pos, at);
          pos := pos - 1;
        }
        if pos < 0 {
          valid := false;
          savedKey := EMPTY;
          savedValue := BLANK;
          return;
        }
        forward := false;
      } else {
        BackOver(items, s, pos, at);
      }
      FindPrevUserEntry();
    }
  }

  /** The invariants of the forward scan survive stepping over entry p. */
  lemma PassedBy(items: seq<Item>, s: nat, p0: nat, p: nat, wasSkipping: bool, wasSkip: UserKey, skipping: bool, skip: UserKey,
                 skipping0: bool, skip0: UserKey)
    requires Stream(items) && p < |items|
    requires Hiding(items, s, p, wasSkipping, wasSkip) && (wasSkipping ==> wasSkip <= items[p].key)
    requires HidesOnly(items, s, p, wasSkipping, wasSkip, skipping0, skip0) && NoneWanted(items, s, skipping0, skip0, p0, p)
    requires if Seen(items[p], s) && items[p].code == 0 then skipping && skip == items[p].key
             else skipping == wasSkipping && skip == wasSkip && (Seen(items[p], s) ==> skipping && items[p].key <= skip)
    ensures Hiding(items, s, p + 1, skipping, skip) && HidesOnly(items, s, p + 1, skipping, skip, skipping0, skip0)
    ensures NoneWanted(items, s, skipping0, skip0, p0, p + 1)
    ensures p + 1 < |items| && skipping ==> skip <= items[p + 1].key
  {
    forall i | p < i < |items| ensures items[p].key <= items[i].key { StreamOrder(items, p, i); }
  }

  lemma NotTainted(items: seq<Item>, p: int)
    ensures !Tainted(items, p, p)
  {}

  lemma TaintedUp(items: seq<Item>, lo: int, p: int)
    requires 0 <= lo <= p < |items|
    ensures Tainted(items, lo, p + 1) <==> Tainted(items, lo, p) || !Parses(items[p])
  {}

  lemma TaintedDown(items: seq<Item>, p: int, hi: int)
    requires 0 <= p < |items| && p < hi
    ensures Tainted(items, p, hi) <==> Tainted(items, p + 1, hi) || !Parses(items[p])
  {}

  lemma TaintedBoth(items: seq<Item>, lo: int, mid: int, hi: int)
    requires lo <= mid <= hi
    ensures Tainted(items, lo, hi) <==> Tainted(items, lo, mid) || Tainted(items, mid, hi)
  {}

  lemma FirstHidden(items: seq<Item>, s: nat, p: nat, skipping: bool, skip: UserKey)
    ensures HidesOnly(items, s, p, skipping, skip, skipping, skip) && NoneWanted(items, s, skipping, skip, p, p)
  {}

  lemma StopsHere(items: seq<Item>, s: nat, p: nat, skipping: bool, skip: UserKey, skipping0: bool, skip0: UserKey)
    requires p < |items| && Seen(items[p], s) && items[p].code == 1 && Hiding(items, s, p, skipping, skip)
    requires !(skipping && items[p].key <= skip) && (skipping0 ==> skipping && skip0 <= skip)
    ensures Wanted(items, s, skipping0, skip0, p)
  {}

  lemma ShownWanted(items: seq<Item>, s: nat, skip: UserKey)
    ensures forall i :: Wanted(items, s, false, skip, i) <==> Shown(items, s, i)
  {}

  /** Entry c is the first one seen in (p, p0], a value, and nothing after it is shown. */
  ghost predicate Candidate(items: seq<Item>, s: nat, p: int, c: int, p0: int) {
    && -1 <= p < c <= p0 < |items| && Seen(items[c], s) && items[c].code == 1
    && (forall j :: p < j < c ==> !Seen(items[j], s)) && NoneShown(items, s, c + 1, p0 + 1)
  }

  /** A seen entry takes over from the candidate of its own key. */
  lemma SeenBefore(items: seq<Item>, s: nat, p: nat, p0: nat, isValue: bool, c: int)
    requires Stream(items) && p <= p0 < |items| && Seen(items[p], s)
    requires if isValue then Candidate(items, s, p, c, p0) && items[p].key == items[c].key else NoneShown(items, s, p + 1, p0 + 1)
    ensures NoneShown(items, s, p + 1, p0 + 1)
    ensures if items[p].code == 1 then Candidate(items, s, p - 1, p, p0) else NoneShown(items, s, p, p0 + 1)
  {}

  lemma CandidateShown(items: seq<Item>, s: nat, p: int, c: int, p0: int)
    requires Stream(items) && Candidate(items, s, p, c, p0) && (p >= 0 ==> items[p].key < items[c].key)
    ensures Shown(items, s, c)
    ensures forall j :: p < j < |items| && items[j].key < items[c].key ==> !Seen(items[j], s)
  {
    forall j | 0 <= j <= p ensures items[j].key < items[c].key {
      if j < p { StreamOrder(items, j, p); }
    }
    forall j | c < j < |items| ensures items[c].key <= items[j].key { StreamOrder(items, c, j); }
  }

  // ----- Moving from one shown entry to the next -----

  /** Where Seek leaves the internal iterator. */
  ghost predicate Located(items: seq<Item>, s: nat, p: int, target: UserKey) {
    && 0 <= p <= |items|
    && (forall i :: 0 <= i < p ==> Before(items[i].key, ItemTag(items[i]), target, Pack(s, true)))
    && (p < |items| ==> !Before(items[p].key, ItemTag(items[p]), target, Pack(s, true)))
  }

  /** Nothing before that position is seen at the target or shown past it. */
  lemma BeforeTarget(items: seq<Item>, s: nat, p: nat, target: UserKey)
    requires Stream(items) && Located(items, s, p, target) && p < |items|
    ensures Hiding(items, s, p, false, target)
    ensures forall i :: p <= i < |items| ==> items[i].key >= target
    ensures forall i :: 0 <= i < p && Shown(items, s, i) ==> items[i].key < target
  {
    forall i | p <= i < |items| ensures items[i].key >= target {
      if p < i { StreamOrder(items, p, i); }
    }
    forall i | 0 <= i < p && items[i].key >= target ensures !Seen(items[i], s) {
      assert Before(items[i].key, ItemTag(items[i]), target, Pack(s, true));
    }
  }

  ghost predicate NextShown(items: seq<Item>, s: nat, a: int, more: bool, b: int) {
    if more then a < b && Shown(items, s, b) && NoneShown(items, s, a + 1, b) else NoneShown(items, s, a + 1, |items|)
  }

  /** Behind the user's entry nothing is seen. */
  lemma BackOver(items: seq<Item>, s: nat, p: int, a: int)
    requires Stream(items) && Shown(items, s, a) && -1 <= p < a && (p >= 0 ==> items[p].key < items[a].key)
    requires forall j :: p < j < |items| && items[j].key < items[a].key ==> !Seen(items[j], s)
    ensures forall j :: p < j < a ==> !Seen(items[j], s)
    ensures Hiding(items, s, p + 1, true, items[p + 1].key) && items[p + 1].key <= items[a].key
  {
    forall j | p < j < a ensures !Seen(items[j], s) { StreamOrder(items, j, a); }
    if p + 1 < a { StreamOrder(items, p + 1, a); }
    forall j, i | 0 <= j < p + 1 <= i < |items| && items[j].key == items[i].key && Seen(items[j], s)
      ensures items[i].key <= items[p + 1].key
    {
      if j < p { StreamOrder(items, j, p); }
      StreamOrder(items, p, i);
      if p + 1 < i { StreamOrder(items, p + 1, i); }
    }
  }

  /** What the forward scan from p finds, when p is the user's entry or one behind it. */
  lemma NextIs(items: seq<Item>, s: nat, a: int, p: int, k: UserKey, more: bool, b: int)
    requires Stream(items) && Shown(items, s, a) && 0 <= p <= a && items[p].key == k
    requires forall j :: p <= j < a ==> !Seen(items[j], s)
    requires more ==> p <= b && Wanted(items, s, true, k, b)
    requires NoneWanted(items, s, true, k, p, if more then b else |items|)
    ensures k == items[a].key ==> NextShown(items, s, a, more, b)
    ensures k != items[a].key ==> more && b == a
  {
    if p < a { StreamOrder(items, p, a); }
    if k == items[a].key {
      forall i | a < i < |items| && Shown(items, s, i) ensures Wanted(items, s, true, k, i) { ShownGrow(items, s, a, i); }
    } else {
      assert Wanted(items, s, true, k, a);
    }
  }

  // ----- Whole scans -----

  /** The pairs shown by the entries lo to hi - 1, in key order. */
  ghost function Pairs(items: seq<Item>, s: nat, lo: int, hi: int): seq<(UserKey, Value)>
    requires 0 <= lo <= hi <= |items|
    decreases hi - lo
  {
    if lo == hi then []
    else if Shown(items, s, lo) then [(items[lo].key, items[lo].value)] + Pairs(items, s, lo + 1, hi)
    else Pairs(items, s, lo + 1, hi)
  }

  lemma {:induction false} PairsSplit(items: seq<Item>, s: nat, lo: int, mid: int, hi: int)
    requires 0 <= lo <= mid <= hi <= |items|
    ensures Pairs(items, s, lo, hi) == Pairs(items, s, lo, mid) + Pairs(items, s, mid, hi)
    decreases mid - lo
  {
    if lo < mid { PairsSplit(items, s, lo + 1, mid, hi); }
  }

  lemma {:induction false} PairsNone(items: seq<Item>, s: nat, lo: int, hi: int)
    requires 0 <= lo <= hi <= |items| && NoneShown(items, s, lo, hi)
    ensures Pairs(items, s, lo, hi) == []
    decreases hi - lo
  {
    if lo < hi { PairsNone(items, s, lo + 1, hi); }
  }

  /** Appending the next shown pair. */
  lemma PairsNext(items: seq<Item>, s: nat, lo: int, a: int)
    requires 0 <= lo <= a < |items| && Shown(items, s, a) && NoneShown(items, s, lo, a)
    ensures Pairs(items, s, lo, a + 1) == [(items[a].key, items[a].value)]
  {
    PairsSplit(items, s, lo, a, a + 1);
    PairsNone(items, s, lo, a);
    assert Pairs(items, s, a + 1, a + 1) == [];
  }

  /** Putting the shown pair before in front. */
  lemma PairsPrev(items: seq<Item>, s: nat, a: int, hi: int)
    requires 0 <= a < hi <= |items| && Shown(items, s, a) && NoneShown(items, s, a + 1, hi)
    ensures Pairs(items, s, a, hi) == [(items[a].key, items[a].value)]
  {
    PairsNone(items, s, a + 1, hi);
  }

  /** SeekToFirst and Next to the end: every shown pair once, in ascending key order. */
  method ScanForward(it: DBIter) returns (out: seq<(UserKey, Value)>)
    requires it.Inv()
    modifies it
    ensures out == Pairs(it.items, it.s, 0, |it.items|)
    ensures it.corrupt == (old(it.corrupt) || Tainted(it.items, 0, |it.items|))
  {
    hide Tainted;
    ghost var n := |it.items|;
    ghost var lo := 0;
    it.SeekToFirst();
    out := [];
    while it.valid
      invariant it.Inv() && 0 <= lo <= n && (it.valid ==> it.forward && lo <= it.at)
      invariant out == Pairs(it.items, it.s, 0, lo)
      invariant NoneShown(it.items, it.s, lo, if it.valid then it.at else n)
      invariant it.corrupt == (old(it.corrupt) || Tainted(it.items, 0, if it.valid then it.at + 1 else n))
      decreases n - lo
    {
      ghost var a := it.at;
      PairsNext(it.items, it.s, lo, it.at);
      PairsSplit(it.items, it.s, 0, lo, it.at + 1);
      out := out + [(it.Key(), it.Val())];
      lo := it.at + 1;
      it.Next();
      TaintedNext(it.items, a, if it.valid then it.at + 1 else n);
    }
    PairsNone(it.items, it.s, lo, n);
    PairsSplit(it.items, it.s, 0, lo, n);
  }

  /** SeekToLast and Prev to the front: the same pairs, in descending key order. */
  method ScanBackward(it: DBIter) returns (out: seq<(UserKey, Value)>)
    requires it.Inv()
    modifies it
    ensures Reversed(out) == Pairs(it.items, it.s, 0, |it.items|)
    ensures it.corrupt == (old(it.corrupt) || Tainted(it.items, 0, |it.items|))
  {
    hide Tainted, Pairs, Reversed;
    ghost var n := |it.items|;
    ghost var hi := n;
    it.SeekToLast();
    out := [];
    NothingYet(it.items, it.s, n);
    while it.valid
      invariant it.Inv() && 0 <= hi <= n && (it.valid ==> !it.forward && it.at < hi)
      invariant Reversed(out) == Pairs(it.items, it.s, hi, n)
      invariant NoneShown(it.items, it.s, if it.valid then it.at + 1 else 0, hi)
      invariant it.corrupt == (old(it.corrupt) || Tainted(it.items, it.pos + 1, n)) && (!it.valid ==> it.pos == -1)
      decreases hi
    {
      ghost var p := it.pos;
      PairsPrev(it.items, it.s, it.at, hi);
      PairsSplit(it.items, it.s, it.at, hi, n);
      ghost var was := out;
      out := out + [(it.Key(), it.Val())];
      ReversedSnoc(was, (it.Key(), it.Val()));
      hi := it.at;
      it.Prev();
      TaintedBoth(it.items, it.pos + 1, p + 1, n);
    }
    PairsNone(it.items, it.s, 0, hi);
    PairsSplit(it.items, it.s, 0, hi, n);
  }

  lemma NothingYet(items: seq<Item>, s: nat, n: nat)
    requires n == |items|
    ensures Pairs(items, s, n, n) == [] && Reversed<(UserKey, Value)>([]) == []
  {}

  lemma TaintedNext(items: seq<Item>, a: int, hi: int)
    requires 0 <= a < hi
    ensures Tainted(items, 0, hi) <==> Tainted(items, 0, a + 1) || Tainted(items, a, hi)
  {}

  ghost function Reversed<T>(xs: seq<T>): seq<T> { seq(|xs|, i requires 0 <= i < |xs| => xs[|xs| - 1 - i]) }

  lemma ReversedSnoc<T>(xs: seq<T>, x: T)
    ensures Reversed(xs + [x]) == [x] + Reversed(xs)
  {}

  // ----- What is shown is what a read returns -----

  ghost function Entries(items: seq<Item>): seq<Entry> {
    if items == [] then []
    else
      var rest := Entries(items[..|items| - 1]);
      var x := items[|items| - 1];
      if Parses(x) then rest + [ToEntry(x)] else rest
  }

  function ToEntry(x: Item): Entry
    requires Parses(x)
  {
    Entry(x.key, x.seqno, if x.code == 1 then Put(x.value) else Deletion)
  }

  lemma {:induction false} EntriesHas(items: seq<Item>, e: Entry)
    ensures e in Entries(items) <==> exists i :: 0 <= i < |items| && Parses(items[i]) && e == ToEntry(items[i])
  {
    if items != [] {
      var rest := items[..|items| - 1];
      EntriesHas(rest, e);
      assert items == rest + [items[|items| - 1]];
    }
  }

  /** A pair is shown exactly when reading its key at the snapshot returns its value. */
  lemma ShownIsRead(items: seq<Item>, s: nat, k: UserKey, v: Value)
    requires Stream(items)
    ensures (exists i :: Shown(items, s, i) && items[i].key == k && items[i].value == v) <==> Reads(Entries(items), k, s, Some(v))
  {
    if i :| Shown(items, s, i) && items[i].key == k && items[i].value == v { ShownReads(items, s, i); }
    if Reads(Entries(items), k, s, Some(v)) {
      var i := ReadShown(items, s, k, v);
    }
  }

  lemma ShownReads(items: seq<Item>, s: nat, i: nat)
    requires Stream(items) && Shown(items, s, i)
    ensures Reads(Entries(items), items[i].key, s, Some(items[i].value))
  {
    var e, es, k := ToEntry(items[i]), Entries(items), items[i].key;
    EntriesHas(items, e);
    forall x | x in es && Matches(x, k, s) ensures x.seqno <= e.seqno {
      EntriesHas(items, x);
      var j :| 0 <= j < |items| && Parses(items[j]) && x == ToEntry(items[j]);
      if i < j { StreamOrder(items, i, j); }
    }
    assert Newest(es, k, s, e);
  }

  lemma ReadShown(items: seq<Item>, s: nat, k: UserKey, v: Value) returns (i: nat)
    requires Stream(items) && Reads(Entries(items), k, s, Some(v))
    ensures Shown(items, s, i) && items[i].key == k && items[i].value == v
  {
    var es := Entries(items);
    var e :| Newest(es, k, s, e) && Some(v) == Answer(e);
    EntriesHas(items, e);
    i :| 0 <= i < |items| && Parses(items[i]) && e == ToEntry(items[i]);
    forall j | 0 <= j < i && items[j].key == items[i].key ensures !Seen(items[j], s) {
      if Seen(items[j], s) {
        StreamOrder(items, j, i);
        EntriesHas(items, ToEntry(items[j]));
        assert false;
      }
    }
  }

  // ----- A backward scan turned around -----

  /**
    Keys 1, 2 and 3 with the entry of 2 newer than the snapshot: after
    SeekToLast the user is at 3, and Next leaves the user at 3.
  */
  method TurnRepeats() returns (first: UserKey, second: UserKey)
    ensures first == second == 3.0
  {
    var items := [Item(1.0, 5, 1, 10), Item(2.0, 100, 1, 20), Item(3.0, 7, 1, 30)];
    var it := new DBIter(items, 10);
    assert Shown(items, 10, 2) && Seen(items[0], 10);
    it.SeekToLast();
    first := it.Key();
    it.Next();
    second := it.Key();
  }
}
