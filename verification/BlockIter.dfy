/** Block::Iter: walking and searching a finished block. */
module BlockIter {
  import opened Common
  import opened Coding
  import opened BlockFormat
  import BlockBuilder

  class Iter {
    const data: Bytes
    const rank: Bytes -> real
    const limit: nat
    const num: nat
    var current: nat
    var restartIndex: nat
    var key: Bytes
    var valueStart: nat
    var valueLen: nat
    ghost const es: seq<Pair>
    ghost const offs: seq<nat>
    ghost const sh: seq<nat>
    ghost const ri: seq<nat>
    ghost const gap: nat

    predicate IsValid()
      reads this
    {
      current < limit
    }

    /** The block is the one built from es. */
    ghost predicate Sound() {
      Built(data, limit, es, offs, sh, ri, gap) && num == |ri| && BlockBuilder.Ascending(rank, es)
    }

    /** The iterator stands at entry i, or at no entry when i is their number. */
    ghost predicate At(i: nat)
      reads this
    {
      && Sound() && i <= |es|
      && if i == |es| then current == limit && restartIndex == num
         else
           && current == offs[i] < limit && key == es[i].key && valueStart + valueLen == offs[i + 1] <= |data|
           && data[valueStart..valueStart + valueLen] == es[i].value
           && restartIndex < num && ri[restartIndex] <= i && (restartIndex + 1 < num ==> i <= ri[restartIndex + 1])
    }

    /** Entry i is the next to parse. */
    ghost predicate Ready(i: nat)
      reads this
    {
      && Sound() && i <= |es| && valueStart + valueLen == offs[i]
      && (i < |es| ==> sh[i] <= |key| && sh[i] <= |es[i].key| && key[..sh[i]] == es[i].key[..sh[i]])
      && restartIndex < num && ri[restartIndex] <= i
    }

    constructor (data: Bytes, rank: Bytes -> real, ghost limit0: nat, ghost es: seq<Pair>, ghost offs: seq<nat>,
                 ghost sh: seq<nat>, ghost ri: seq<nat>, ghost gap: nat)
      requires Built(data, limit0, es, offs, sh, ri, gap) && BlockBuilder.Ascending(rank, es)
      ensures At(|es|) && this.data == data && this.es == es && this.rank == rank && fresh(this)
    {
      this.data, this.rank := data, rank;
      var n := DecodeFixed32(data[|data| - 4..]);
      num := n;
      limit := |data| - (1 + n) * 4;
      current, restartIndex := |data| - (1 + n) * 4, n;
      key, valueStart, valueLen := [], 0, 0;
      this.es, this.offs, this.sh, this.ri, this.gap := es, offs, sh, ri, gap;
    }

    method GetRestartPoint(index: nat) returns (off: nat)
      requires Sound() && index < num
      ensures ri[index] <= |es| && off == offs[ri[index]]
    {
      assert RestartAt(data, limit, offs, ri, index);
      off := DecodeFixed32(data[limit + index * 4..]);
    }

    method SeekToRestartPoint(index: nat)
      requires Sound() && index < num
      modifies this
      ensures Ready(ri[index]) && restartIndex == index
    {
      key := [];
      restartIndex := index;
      var offset := GetRestartPoint(index);
      valueStart, valueLen := offset, 0;
    }

    method ParseNextKey(ghost i: nat) returns (ok: bool)
      requires Ready(i)
      modifies this
      ensures At(i) && ok == (i < |es|)
    {
      hide Built, DecodeEntry;
      OffsetOf(this, i);
      current := valueStart + valueLen;
      if current >= limit {
        current := limit;
        restartIndex := num;
        return false;
      }
      Parsed(this, i, key);
      var h := DecodeEntry(data[current..limit]);
      // The length of the header is what the rest of the block is shorter by.
      var p := limit - |h.value.rest|;
      key := key[..h.value.shared] + data[p..p + h.value.nonShared];
      valueStart, valueLen := p + h.value.nonShared, h.value.valueLength;
      assert valueStart + valueLen == offs[i + 1] && key == es[i].key && data[valueStart..valueStart + valueLen] == es[i].value;
      AdvanceRestart(i);
      ok := true;
    }

    /** The restart index follows the current entry. */
    method AdvanceRestart(ghost i: nat)
      requires Sound() && i < |es| && current == offs[i] && restartIndex < num && ri[restartIndex] <= i
      modifies this`restartIndex
      ensures restartIndex < num && ri[restartIndex] <= i && (restartIndex + 1 < num ==> i <= ri[restartIndex + 1])
    {
      hide Built;
      while restartIndex + 1 < num
        invariant restartIndex < num && ri[restartIndex] <= i
        decreases num - restartIndex
      {
        var off := GetRestartPoint(restartIndex + 1);
        OffsetOrder(this, ri[restartIndex + 1], i);
        if off >= current { break; }
        restartIndex := restartIndex + 1;
      }
    }

    method SeekToFirst()
      requires Sound()
      modifies this
      ensures At(0)
    {
      FirstRestart(this);
      SeekToRestartPoint(0);
      var ok := ParseNextKey(0);
    }

    method SeekToLast()
      requires Sound()
      modifies this
      ensures At(if es == [] then 0 else |es| - 1)
    {
      FirstRestart(this);
      SeekToRestartPoint(num - 1);
      ghost var i := ri[num - 1];
      var ok := ParseNextKey(i);
      while ok && valueStart + valueLen < limit
        invariant i <= |es| && At(i) && ok == (i < |es|) && (i == |es| ==> es == [])
        decreases |es| - i
      {
        StepOn(this, i);
        i := i + 1;
        ok := ParseNextKey(i);
      }
      if ok { StepOn(this, i); }
    }

    method Next(ghost i: nat)
      requires At(i) && i < |es|
      modifies this
      ensures At(i + 1)
    {
      StepOn(this, i);
      var ok := ParseNextKey(i + 1);
    }

    /** Prev undoes Next; before the first entry there is none. */
    method Prev(ghost i: nat)
      requires At(i) && i < |es|
      modifies this
      ensures At(if i == 0 then |es| else i - 1)
    {
      hide Built;
      var original := current;
      FirstRestart(this);
      var off := GetRestartPoint(restartIndex);
      OffsetOrder(this, ri[restartIndex], i);
      while off >= original
        invariant restartIndex < num && ri[restartIndex] <= i && off == offs[ri[restartIndex]] && (off >= original <==> ri[restartIndex] == i)
        decreases restartIndex
      {
        if restartIndex == 0 {
          current := limit;
          restartIndex := num;
          return;
        }
        restartIndex := restartIndex - 1;
        RestartBelow(this, restartIndex);
        off := GetRestartPoint(restartIndex);
        OffsetOrder(this, ri[restartIndex], i);
      }
      SeekToRestartPoint(restartIndex);
      ghost var j := ri[restartIndex];
      var ok := ParseNextKey(j);
      StepOn(this, j);
      OffsetOrder(this, j + 1, i);
      while ok && valueStart + valueLen < original
        invariant j < i && At(j) && ok && (valueStart + valueLen < original <==> j + 1 < i)
        decreases i - j
      {
        StepOn(this, j);
        j := j + 1;
        ok := ParseNextKey(j);
        StepOn(this, j);
        OffsetOrder(this, j + 1, i);
      }
    }

    /** Seek: the first key at or after the target. */
    method Seek(target: Bytes) returns (ghost i: nat)
      requires Sound()
      modifies this
      ensures At(i) && (i < |es| ==> rank(es[i].key) >= rank(target))
      ensures forall j :: 0 <= j < i ==> rank(es[j].key) < rank(target)
    {
      hide Built;
      FirstRestart(this);
      var left, right := 0, num - 1;
      while left < right
        invariant 0 <= left <= right < num && (left > 0 ==> ri[left] < |es| && rank(es[ri[left]].key) < rank(target))
      {
        var mid := (left + right + 1) / 2;
        var regionOffset := GetRestartPoint(mid);
        RestartEntry(this, mid);
        var h := DecodeEntry(data[regionOffset..limit]);
        var midKey := h.value.rest[..h.value.nonShared];
        if rank(midKey) < rank(target) {
          left := mid;
        } else {
          right := mid - 1;
        }
      }
      SeekToRestartPoint(left);
      i := ri[left];
      BelowRestart(this, left, target);
      var ok := ParseNextKey(i);
      while ok && rank(key) < rank(target)
        invariant At(i) && ok == (i < |es|) && forall j :: 0 <= j < i ==> rank(es[j].key) < rank(target)
        decreases |es| - i
      {
        StepOn(this, i);
        i := i + 1;
        ok := ParseNextKey(i);
      }
    }
  }

  // ----- Facts about a built block -----

  lemma OffsetOf(it: Iter, i: nat)
    requires it.Sound() && i <= |it.es|
    ensures |it.offs| == |it.es| + 1 == |it.sh| + 1 && it.offs[i] <= it.limit <= |it.data| && (it.offs[i] == it.limit <==> i == |it.es|)
  {
    if i < |it.es| { OffsetsGrow(it.data, it.limit, it.es, it.offs, it.sh, i, |it.es|); }
  }

  lemma OffsetOrder(it: Iter, i: nat, j: nat)
    requires it.Sound() && i <= |it.es| && j <= |it.es|
    ensures |it.offs| == |it.es| + 1 && (it.offs[i] < it.offs[j] <==> i < j)
  {
    if i < j { OffsetsGrow(it.data, it.limit, it.es, it.offs, it.sh, i, j); }
    if j < i { OffsetsGrow(it.data, it.limit, it.es, it.offs, it.sh, j, i); }
  }

  lemma FirstRestart(it: Iter)
    requires it.Sound()
    ensures it.num == |it.ri| > 0 && it.ri[0] == 0 && it.ri[it.num - 1] <= |it.es|
    ensures it.es != [] ==> it.ri[it.num - 1] < |it.es|
    ensures forall r :: 0 < r < it.num ==> it.ri[r] < |it.es|
  {}

  lemma RestartBelow(it: Iter, r: nat)
    requires it.Sound() && r + 1 < it.num
    ensures it.ri[r] < it.ri[r + 1]
  {
    RestartsGrow(it.es, it.sh, it.ri, it.gap, r, r + 1);
  }

  /** After entry i comes entry i + 1. */
  lemma StepOn(it: Iter, i: nat)
    requires it.At(i) && i < |it.es|
    ensures it.Ready(i + 1) && it.valueStart + it.valueLen == it.offs[i + 1] && (it.offs[i + 1] < it.limit <==> i + 1 < |it.es|)
  {
    OffsetOf(it, i + 1);
    if i + 1 < |it.es| { assert EntryAt(it.data, it.es, it.offs, it.sh, i + 1); }
  }

  /** Decoding at entry i yields its key, from the shared prefix, and its value. */
  lemma Parsed(it: Iter, i: nat, key: Bytes)
    requires it.Sound() && i < |it.es| && it.sh[i] <= |key| && it.sh[i] <= |it.es[i].key| && key[..it.sh[i]] == it.es[i].key[..it.sh[i]]
    ensures |it.offs| == |it.es| + 1 && it.offs[i] <= it.offs[i + 1] <= it.limit <= |it.data|
    ensures var d := DecodeEntry(it.data[it.offs[i]..it.limit]);
            && d.Some? && d.value.shared == it.sh[i] && |d.value.rest| <= it.limit
            && var p := it.limit - |d.value.rest|;
            && p + d.value.nonShared + d.value.valueLength == it.offs[i + 1]
            && d.value.rest == it.data[p..it.limit]
            && key[..d.value.shared] + it.data[p..p + d.value.nonShared] == it.es[i].key
            && it.data[p + d.value.nonShared..it.offs[i + 1]] == it.es[i].value
  {
    hide DecodeEntry, Encode;
    var e, s := it.es[i], it.sh[i];
    assert EntryAt(it.data, it.es, it.offs, it.sh, i);
    OffsetOf(it, i + 1);
    KeyFits(it.data, it.limit, it.es, it.offs, it.sh, i);
    EntryBytes(it.data, it.limit, it.offs[i], it.offs[i + 1], s, e);
  }

  lemma EntryBytes(data: Bytes, limit: nat, from: nat, to: nat, s: nat, e: Pair)
    requires s <= |e.key| && from <= to <= limit <= |data| < LIMIT32 && s < LIMIT32 && data[from..to] == Encode(s, e)
    ensures var d := DecodeEntry(data[from..limit]);
            && d.Some? && d.value.shared == s && |d.value.rest| <= limit
            && var p := limit - |d.value.rest|;
            && p + d.value.nonShared + d.value.valueLength == to
            && d.value.rest == data[p..limit]
            && data[p..p + d.value.nonShared] == e.key[s..]
            && data[p + d.value.nonShared..to] == e.value
  {
    hide DecodeEntry, Encode;
    var tail := data[to..limit];
    assert data[from..limit] == Encode(s, e) + tail;
    EncodeDecodes(s, e, tail);
    var rest := e.key[s..] + e.value + tail;
    var p := limit - |rest|;
    assert p >= from by { assert |Encode(s, e)| >= |e.key| - s + |e.value|; }
    EncodeEnds(s, e);
    assert data[p..to] == Encode(s, e)[p - from..];
    assert data[p..limit] == data[p..to] + tail;
    assert data[p..p + |e.key| - s] == data[p..to][..|e.key| - s];
    assert data[p + |e.key| - s..to] == data[p..to][|e.key| - s..];
  }

  lemma EncodeEnds(s: nat, e: Pair)
    requires s <= |e.key|
    ensures var b := Encode(s, e); b[|b| - (|e.key| - s) - |e.value|..] == e.key[s..] + e.value
  {}

  /** A restart entry carries its whole key. */
  lemma RestartEntry(it: Iter, r: nat)
    requires it.Sound() && 0 < r < it.num
    ensures it.ri[r] < |it.es| && |it.offs| == |it.es| + 1 && it.offs[it.ri[r]] <= it.limit <= |it.data|
    ensures var d := DecodeEntry(it.data[it.offs[it.ri[r]]..it.limit]);
            d.Some? && d.value.shared == 0 && d.value.nonShared <= |d.value.rest| && d.value.rest[..d.value.nonShared] == it.es[it.ri[r]].key
  {
    hide DecodeEntry;
    var i := it.ri[r];
    Parsed(it, i, []);
    var d := DecodeEntry(it.data[it.offs[i]..it.limit]);
    var p := it.limit - |d.value.rest|;
    assert d.value.rest[..d.value.nonShared] == it.data[p..p + d.value.nonShared];
  }

  lemma BelowRestart(it: Iter, left: nat, target: Bytes)
    requires it.Sound() && left < it.num && (left > 0 ==> it.ri[left] < |it.es| && it.rank(it.es[it.ri[left]].key) < it.rank(target))
    ensures it.ri[left] <= |it.es|
    ensures forall j :: 0 <= j < it.ri[left] ==> it.rank(it.es[j].key) < it.rank(target)
  {
    forall j | 0 <= j < it.ri[left] ensures it.rank(it.es[j].key) < it.rank(target) {
      assert it.rank(it.es[j].key) < it.rank(it.es[it.ri[left]].key);
    }
  }

  // ----- Round trip -----

  lemma Small(b: BlockBuilder.Builder)
    requires b.Inv() && Weight(b.es) < LIMIT32
    ensures |b.buffer| + 4 * |b.restarts| + 4 < LIMIT32
  {
    var n, last := |b.es|, |b.ri| - 1;
    OffsetBound(b.buffer, |b.buffer|, b.es, b.offs, b.sh, n);
    assert b.es[..n] == b.es;
    RestartCount(b.es, b.sh, b.ri, b.interval, last);
    assert last > 0 ==> b.ri[last] < n;
  }

  method Fill(pairs: seq<Pair>, interval: nat, rank: Bytes -> real) returns (b: BlockBuilder.Builder)
    requires interval >= 1 && BlockBuilder.Ascending(rank, pairs)
    ensures fresh(b) && b.Inv() && !b.finished && b.es == pairs && b.rank == rank && b.interval == interval
  {
    b := new BlockBuilder.Builder(interval, rank);
    var k := 0;
    while k < |pairs|
      invariant 0 <= k <= |pairs| && fresh(b) && b.Inv() && !b.finished && b.es == pairs[..k]
    {
      assert k > 0 ==> b.lastKey == pairs[k - 1].key;
      b.Add(pairs[k].key, pairs[k].value);
      k := k + 1;
    }
    assert pairs[..k] == pairs;
  }

  /** SeekToFirst and Next to the end return the entries. */
  method Scan(it: Iter) returns (out: seq<Pair>)
    requires it.Sound()
    modifies it
    ensures out == it.es
  {
    it.SeekToFirst();
    out := [];
    while it.IsValid()
      invariant |out| <= |it.es| && it.At(|out|) && out == it.es[..|out|]
      decreases |it.es| - |out|
    {
      ghost var i := |out|;
      out := out + [Pair(it.key, it.data[it.valueStart..it.valueStart + it.valueLen])];
      it.Next(i);
    }
  }

  /** What goes into a block in key order comes out of it, whatever the restart interval. */
  method RoundTrip(pairs: seq<Pair>, interval: nat, rank: Bytes -> real) returns (out: seq<Pair>)
    requires interval >= 1 && BlockBuilder.Ascending(rank, pairs) && Weight(pairs) < LIMIT32
    ensures out == pairs
  {
    hide Built, Weight;
    var b := Fill(pairs, interval, rank);
    Small(b);
    ghost var limit := |b.buffer|;
    var data := b.Finish();
    var it := new Iter(data, rank, limit, pairs, b.offs, b.sh, b.ri, b.interval);
    out := Scan(it);
  }
}
