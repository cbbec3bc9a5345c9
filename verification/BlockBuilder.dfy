/** BlockBuilder: entries added in key order become one block. */
module BlockBuilder {
  import opened Common
  import opened Coding
  import opened BlockFormat

  class Builder {
    const interval: nat
    /** The comparator, as the place of a key in its order. */
    const rank: Bytes -> real
    var buffer: Bytes
    var restarts: seq<nat>
    var counter: nat
    var lastKey: Bytes
    var finished: bool
    ghost var es: seq<Pair>
    ghost var offs: seq<nat>
    ghost var sh: seq<nat>
    ghost var ri: seq<nat>

    ghost predicate Inv()
      reads this
    {
      State(interval, rank, buffer, restarts, counter, lastKey, es, offs, sh, ri)
    }

    constructor (interval: nat, rank: Bytes -> real)
      requires interval >= 1
      ensures Inv() && !finished && es == [] && this.interval == interval && this.rank == rank && fresh(this)
    {
      this.interval, this.rank := interval, rank;
      buffer, restarts, counter, lastKey, finished := [], [0], 0, [], false;
      es, offs, sh, ri := [], [0], [], [0];
    }

    method Add(key: Bytes, value: Bytes)
      requires Inv() && !finished && (es != [] ==> rank(lastKey) < rank(key))
      modifies this
      ensures Inv() && !finished && es == old(es) + [Pair(key, value)]
    {
      hide Layout, Restarts, Ascending, Offsets, Encode, Compressed;
      var shared := 0;
      ghost var k := Pair(key, value);
      if counter < interval {
        shared := SharedPrefix(lastKey, key);
        AddedPlain(interval, rank, buffer, restarts, counter, lastKey, es, offs, sh, ri, shared, k);
      } else {
        AddedRestart(interval, rank, buffer, restarts, counter, lastKey, es, offs, sh, ri, k);
        restarts := restarts + [|buffer|];
        counter := 0;
        ri := ri + [|es|];
      }
      AppendEntry(shared, key, value);
      lastKey := lastKey[..shared];
      lastKey := lastKey + key[shared..];
      assert lastKey == key;
      es, offs, sh := es + [k], offs + [|buffer|], sh + [shared];
      counter := counter + 1;
    }

    method AppendEntry(shared: nat, key: Bytes, value: Bytes)
      requires shared <= |key|
      modifies this`buffer
      ensures buffer == old(buffer) + Encode(shared, Pair(key, value))
    {
      var nonShared := |key| - shared;
      buffer := buffer + PutVarint(shared);
      buffer := buffer + PutVarint(nonShared);
      buffer := buffer + PutVarint(|value|);
      buffer := buffer + key[shared..];
      buffer := buffer + value;
      assert buffer == old(buffer) + Encode(shared, Pair(key, value));
    }

    /** The finished block holds the entries added. */
    method Finish() returns (block: Bytes)
      requires Inv() && !finished && |buffer| + 4 * |restarts| + 4 < LIMIT32
      modifies this`buffer, this`finished
      ensures finished && Built(block, |old(buffer)|, es, offs, sh, ri, interval) && block == buffer
      ensures Compressed(es, sh, ri) && |es| - ri[|ri| - 1] <= interval
    {
      hide Layout, Restarts, Ascending, Offsets, Compressed, Built, EncodeFixed32, FixedAll;
      OffsetsSmall(buffer, es, offs, sh, ri, restarts);
      var i := 0;
      FixedNone();
      while i < |restarts|
        invariant 0 <= i <= |restarts| && buffer == old(buffer) + FixedAll(restarts[..i])
      {
        FixedSnoc(restarts, i);
        Assoc(old(buffer), FixedAll(restarts[..i]), EncodeFixed32(restarts[i]));
        buffer := buffer + EncodeFixed32(restarts[i]);
        i := i + 1;
      }
      assert restarts[..i] == restarts;
      buffer := buffer + EncodeFixed32(|restarts|);
      Assoc(old(buffer), FixedAll(restarts), EncodeFixed32(|restarts|));
      finished := true;
      block := buffer;
      BuiltBlock(old(buffer), es, offs, sh, ri, interval, restarts);
    }
  }

  lemma FixedNone()
    ensures FixedAll([]) == []
  {}

  lemma FixedSnoc(xs: seq<nat>, i: nat)
    requires i < |xs| && forall r :: 0 <= r < |xs| ==> xs[r] < LIMIT32
    ensures FixedAll(xs[..i + 1]) == FixedAll(xs[..i]) + EncodeFixed32(xs[i])
  {
    assert xs[..i + 1][..i] == xs[..i];
  }

  /** The builder's fields hold es; the newest restart entry may still be to come. */
  ghost predicate State(interval: nat, rank: Bytes -> real, buffer: Bytes, restarts: seq<nat>, counter: nat, lastKey: Bytes,
                        es: seq<Pair>, offs: seq<nat>, sh: seq<nat>, ri: seq<nat>)
  {
    && interval > 0 && Layout(buffer, |buffer|, es, offs, sh) && Restarts(es, sh, ri, interval)
    && Compressed(es, sh, ri) && lastKey == KeyBefore(es, |es|) && Ascending(rank, es)
    && Offsets(restarts, offs, ri) && ri != [] && ri[|ri| - 1] <= |es| && counter == |es| - ri[|ri| - 1] <= interval
  }

  /** The entry shares a prefix with the last key. */
  lemma AddedPlain(interval: nat, rank: Bytes -> real, buffer: Bytes, restarts: seq<nat>, counter: nat, lastKey: Bytes,
                   es: seq<Pair>, offs: seq<nat>, sh: seq<nat>, ri: seq<nat>, shared: nat, k: Pair)
    requires State(interval, rank, buffer, restarts, counter, lastKey, es, offs, sh, ri) && counter < interval
    requires es != [] ==> rank(lastKey) < rank(k.key)
    requires Longest(lastKey, k.key, shared)
    ensures var b := buffer + Encode(shared, k);
            State(interval, rank, b, restarts, counter + 1, k.key, es + [k], offs + [|b|], sh + [shared], ri)
  {
    hide Layout, Restarts, Ascending, Offsets, Encode, Compressed;
    RestartKept(es, sh, ri, interval, k, shared, lastKey);
    CompressedMore(es, sh, ri, ri, k, shared);
    LayoutSnoc(buffer, es, offs, sh, shared, k);
    AscendingSnoc(rank, es, k);
    OffsetsSnoc(restarts, offs, ri, |buffer + Encode(shared, k)|);
  }

  /** The entry is a restart. */
  lemma AddedRestart(interval: nat, rank: Bytes -> real, buffer: Bytes, restarts: seq<nat>, counter: nat, lastKey: Bytes,
                     es: seq<Pair>, offs: seq<nat>, sh: seq<nat>, ri: seq<nat>, k: Pair)
    requires State(interval, rank, buffer, restarts, counter, lastKey, es, offs, sh, ri) && counter >= interval
    requires es != [] ==> rank(lastKey) < rank(k.key)
    ensures var b := buffer + Encode(0, k);
            State(interval, rank, b, restarts + [|buffer|], 1, k.key, es + [k], offs + [|b|], sh + [0], ri + [|es|])
  {
    hide Layout, Restarts, Ascending, Offsets, Encode, Compressed;
    RestartNew(es, sh, ri, interval, k);
    CompressedMore(es, sh, ri, ri + [|es|], k, 0);
    RestartOffset(restarts, buffer, es, offs, sh, ri);
    LayoutSnoc(buffer, es, offs, sh, 0, k);
    AscendingSnoc(rank, es, k);
    OffsetsSnoc(restarts + [|buffer|], offs, ri + [|es|], |buffer + Encode(0, k)|);
  }

  /** The longest prefix the two keys share. */
  method SharedPrefix(a: Bytes, b: Bytes) returns (n: nat)
    ensures Longest(a, b, n)
  {
    n := 0;
    var minLength := if |a| < |b| then |a| else |b|;
    while n < minLength && a[n] == b[n]
      invariant 0 <= n <= minLength && a[..n] == b[..n]
    {
      n := n + 1;
    }
  }

  ghost predicate Ascending(rank: Bytes -> real, es: seq<Pair>) {
    forall i, j :: 0 <= i < j < |es| ==> rank(es[i].key) < rank(es[j].key)
  }

  /** The restart offsets are those of the restart entries. */
  ghost predicate Offsets(restarts: seq<nat>, offs: seq<nat>, ri: seq<nat>) {
    |restarts| == |ri| && forall r :: 0 <= r < |ri| ==> ri[r] < |offs| && restarts[r] == offs[ri[r]]
  }

  lemma AscendingSnoc(rank: Bytes -> real, es: seq<Pair>, k: Pair)
    requires Ascending(rank, es) && (es != [] ==> rank(es[|es| - 1].key) < rank(k.key))
    ensures Ascending(rank, es + [k])
  {
    forall i, j | 0 <= i < j < |es + [k]| ensures rank((es + [k])[i].key) < rank((es + [k])[j].key) {
      if j == |es| && i < |es| - 1 { assert rank(es[i].key) < rank(es[|es| - 1].key); }
    }
  }

  lemma LayoutSnoc(data: Bytes, es: seq<Pair>, offs: seq<nat>, sh: seq<nat>, shared: nat, k: Pair)
    requires Layout(data, |data|, es, offs, sh)
    requires shared <= |k.key| && shared <= |KeyBefore(es, |es|)| && KeyBefore(es, |es|)[..shared] == k.key[..shared]
    ensures var data' := data + Encode(shared, k); Layout(data', |data'|, es + [k], offs + [|data'|], sh + [shared])
  {
    hide Encode;
    var data' := data + Encode(shared, k);
    var es', offs', sh' := es + [k], offs + [|data'|], sh + [shared];
    forall i | 0 <= i < |es'| ensures EntryAt(data', es', offs', sh', i) {
      if i < |es| {
        assert EntryAt(data, es, offs, sh, i) && KeyBefore(es', i) == KeyBefore(es, i);
        assert data'[offs[i]..offs[i + 1]] == data[offs[i]..offs[i + 1]];
      } else {
        assert KeyBefore(es', i) == KeyBefore(es, i);
        assert data'[offs'[i]..offs'[i + 1]] == Encode(shared, k);
      }
    }
  }

  lemma RestartKept(es: seq<Pair>, sh: seq<nat>, ri: seq<nat>, gap: nat, k: Pair, shared: nat, last: Bytes)
    requires Restarts(es, sh, ri, gap) && last == KeyBefore(es, |es|) && shared <= |last|
    requires gap > 0 && ri[|ri| - 1] <= |es|
    ensures Restarts(es + [k], sh + [shared], ri, gap)
  {
    forall r | 0 <= r < |ri| && ri[r] < |es + [k]| ensures (sh + [shared])[ri[r]] == 0 {
      if r > 0 { assert ri[r] < |es|; }
    }
  }

  lemma RestartNew(es: seq<Pair>, sh: seq<nat>, ri: seq<nat>, gap: nat, k: Pair)
    requires Restarts(es, sh, ri, gap) && gap > 0 && |es| == ri[|ri| - 1] + gap
    ensures Restarts(es + [k], sh + [0], ri + [|es|], gap)
  {}

  lemma CompressedMore(es: seq<Pair>, sh: seq<nat>, ri: seq<nat>, ri': seq<nat>, k: Pair, shared: nat)
    requires Compressed(es, sh, ri) && (forall r :: r in ri ==> r in ri') && (forall r :: r in ri' ==> r in ri || r == |es|)
    requires |es| in ri' || Longest(KeyBefore(es, |es|), k.key, shared)
    ensures Compressed(es + [k], sh + [shared], ri')
  {
    var es' := es + [k];
    forall i | 0 <= i < |es'| && i !in ri' ensures Longest(KeyBefore(es', i), es'[i].key, (sh + [shared])[i]) {
      assert KeyBefore(es', i) == KeyBefore(es, i);
      if i < |es| { assert i !in ri; }
    }
  }

  lemma RestartOffset(restarts: seq<nat>, data: Bytes, es: seq<Pair>, offs: seq<nat>, sh: seq<nat>, ri: seq<nat>)
    requires Offsets(restarts, offs, ri) && Layout(data, |data|, es, offs, sh)
    ensures Offsets(restarts + [|data|], offs, ri + [|es|])
  {}

  lemma OffsetsSnoc(restarts: seq<nat>, offs: seq<nat>, ri: seq<nat>, off: nat)
    requires Offsets(restarts, offs, ri)
    ensures Offsets(restarts, offs + [off], ri)
  {}

  lemma OffsetsSmall(data: Bytes, es: seq<Pair>, offs: seq<nat>, sh: seq<nat>, ri: seq<nat>, restarts: seq<nat>)
    requires Layout(data, |data|, es, offs, sh) && Offsets(restarts, offs, ri)
    ensures forall r :: 0 <= r < |restarts| ==> restarts[r] <= |data|
  {
    forall r | 0 <= r < |restarts| ensures restarts[r] <= |data| {
      if ri[r] < |es| { OffsetsGrow(data, |data|, es, offs, sh, ri[r], |es|); }
    }
  }

  lemma BuiltBlock(data: Bytes, es: seq<Pair>, offs: seq<nat>, sh: seq<nat>, ri: seq<nat>, gap: nat, restarts: seq<nat>)
    requires gap > 0 && Layout(data, |data|, es, offs, sh) && Restarts(es, sh, ri, gap) && Offsets(restarts, offs, ri)
    requires |data| + 4 * |restarts| + 4 < LIMIT32 && forall r :: 0 <= r < |restarts| ==> restarts[r] < LIMIT32
    ensures Built(data + Trailer(restarts), |data|, es, offs, sh, ri, gap)
  {
    hide EncodeFixed32, DecodeFixed32, FixedAll, EntryAt, Restarts;
    var block, n := data + Trailer(restarts), |restarts|;
    FixedLength(n);
    LayoutLonger(data, es, offs, sh, Trailer(restarts));
    assert block[|block| - 4..] == EncodeFixed32(n) + [];
    Fixed32RoundTrip(n, []);
    forall r | 0 <= r < |ri| ensures RestartAt(block, |data|, offs, ri, r) {
      FixedAt(restarts, r, EncodeFixed32(n));
      assert block[|data| + 4 * r..] == Trailer(restarts)[4 * r..];
    }
  }

  lemma LayoutLonger(data: Bytes, es: seq<Pair>, offs: seq<nat>, sh: seq<nat>, tail: Bytes)
    requires Layout(data, |data|, es, offs, sh)
    ensures Layout(data + tail, |data|, es, offs, sh)
  {
    forall i | 0 <= i < |es| ensures EntryAt(data + tail, es, offs, sh, i) {
      assert EntryAt(data, es, offs, sh, i);
      assert (data + tail)[offs[i]..offs[i + 1]] == data[offs[i]..offs[i + 1]];
    }
  }
}
