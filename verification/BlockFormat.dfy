/** The bytes of a block: prefix-compressed entries, restart offsets, their count. */
module BlockFormat {
  import opened Common
  import opened Coding

  type Bytes = seq<Byte>

  datatype Pair = Pair(key: Bytes, value: Bytes)

  /** An entry that shares the first `shared` bytes of its key with the key before. */
  function Encode(shared: nat, e: Pair): (b: Bytes)
    requires shared <= |e.key|
    ensures |b| >= 3 + |e.key| - shared + |e.value|
  {
    PutVarint(shared) + PutVarint(|e.key| - shared) + PutVarint(|e.value|) + e.key[shared..] + e.value
  }

  // ----- DecodeEntry -----

  datatype Header = Header(shared: nat, nonShared: nat, valueLength: nat, rest: Bytes)

  /** The three numbers as varints. */
  function DecodeVarints(b: Bytes): (h: Option<Header>)
    ensures h.Some? ==> |h.value.rest| <= |b| - 3
  {
    var s := GetVarint32(b);
    if s.None? then None
    else
      var n := GetVarint32(s.value.1);
      if n.None? then None
      else
        var v := GetVarint32(n.value.1);
        if v.None? then None else Some(Header(s.value.0, n.value.0, v.value.0, v.value.1))
  }

  /** The bitwise or of three bytes is below 128 exactly when each of them is. */
  lemma OrBelow128(x: bv8, y: bv8, z: bv8)
    ensures (x | y | z) < 128 <==> x < 128 && y < 128 && z < 128
  {}

  /** Three bytes below 128 are the numbers themselves; the lengths are checked in 32 bits. */
  function DecodeEntry(b: Bytes): Option<Header> {
    if |b| < 3 then None
    else
      var h := if b[0] < 128 && b[1] < 128 && b[2] < 128 then Some(Header(b[0], b[1], b[2], b[3..])) else DecodeVarints(b);
      if h.None? || |h.value.rest| % LIMIT32 < (h.value.nonShared + h.value.valueLength) % LIMIT32 then None else h
  }

  /** The fast path takes what the varint path would. */
  lemma FastPathAgrees(b: Bytes)
    requires |b| >= 3 && b[0] < 128 && b[1] < 128 && b[2] < 128
    ensures DecodeVarints(b) == Some(Header(b[0], b[1], b[2], b[3..]))
  {
    OneByte(b);
    OneByte(b[1..]);
    OneByte(b[1..][1..]);
    assert b[1..][1..] == b[2..] && b[2..][1..] == b[3..];
  }

  lemma OneByte(b: Bytes)
    requires b != [] && b[0] < 128
    ensures GetVarint32(b) == Some((b[0] as nat, b[1..]))
  {}

  /** With any bytes at all, DecodeEntry is the varint path and the length check. */
  lemma DecodeEntryIs(b: Bytes)
    ensures var h := DecodeVarints(b);
            DecodeEntry(b) == if h.None? || |h.value.rest| % LIMIT32 < (h.value.nonShared + h.value.valueLength) % LIMIT32 then None else h
  {
    if |b| >= 3 && b[0] < 128 && b[1] < 128 && b[2] < 128 { FastPathAgrees(b); }
  }

  lemma EncodeDecodes(shared: nat, e: Pair, tail: Bytes)
    requires shared <= |e.key| && shared < LIMIT32 && |Encode(shared, e) + tail| < LIMIT32
    ensures DecodeEntry(Encode(shared, e) + tail) == Some(Header(shared, |e.key| - shared, |e.value|, e.key[shared..] + e.value + tail))
  {
    hide GetVarint32, PutVarint, DecodeEntry;
    var k, v := e.key[shared..], e.value;
    var b := Encode(shared, e) + tail;
    var b1 := PutVarint(|k|) + (PutVarint(|v|) + (k + v + tail));
    assert b == PutVarint(shared) + b1;
    Varint32RoundTrip(shared, b1);
    Varint32RoundTrip(|k|, PutVarint(|v|) + (k + v + tail));
    Varint32RoundTrip(|v|, k + v + tail);
    DecodeEntryIs(b);
  }

  // ----- What a block holds -----

  /** The key before entry i, nothing before the first. */
  function KeyBefore(es: seq<Pair>, i: nat): Bytes
    requires i <= |es|
  {
    if i == 0 then [] else es[i - 1].key
  }

  /** Entry i stands at offs[i] and shares sh[i] bytes with the key before it. */
  ghost predicate EntryAt(data: Bytes, es: seq<Pair>, offs: seq<nat>, sh: seq<nat>, i: nat)
    requires i < |es| == |sh| && |offs| == |es| + 1
  {
    && sh[i] <= |es[i].key| && sh[i] <= |KeyBefore(es, i)| && KeyBefore(es, i)[..sh[i]] == es[i].key[..sh[i]]
    && offs[i] <= offs[i + 1] <= |data| && data[offs[i]..offs[i + 1]] == Encode(sh[i], es[i])
  }

  ghost predicate Layout(data: Bytes, limit: nat, es: seq<Pair>, offs: seq<nat>, sh: seq<nat>) {
    && |sh| == |es| && |offs| == |es| + 1 && offs[0] == 0 && offs[|es|] == limit <= |data|
    && forall i :: 0 <= i < |es| ==> EntryAt(data, es, offs, sh, i)
  }

  /** n bytes are shared and no more can be. */
  predicate Longest(a: Bytes, b: Bytes, n: nat) {
    n <= |a| && n <= |b| && a[..n] == b[..n] && (n < |a| && n < |b| ==> a[n] != b[n])
  }

  /** Every entry that is not a restart shares all it can with the key before. */
  ghost predicate Compressed(es: seq<Pair>, sh: seq<nat>, ri: seq<nat>) {
    |sh| == |es| && forall i :: 0 <= i < |es| && i !in ri ==> Longest(KeyBefore(es, i), es[i].key, sh[i])
  }

  /** Restart r is entry ri[r], which shares nothing; restarts are `gap` entries apart. */
  ghost predicate Restarts(es: seq<Pair>, sh: seq<nat>, ri: seq<nat>, gap: nat) {
    && |sh| == |es| && ri != [] && ri[0] == 0
    && (forall r :: 0 < r < |ri| ==> ri[r] < |es| && ri[r] == ri[r - 1] + gap)
    && (forall r :: 0 <= r < |ri| && ri[r] < |es| ==> sh[ri[r]] == 0)
  }

  lemma {:induction false} OffsetsGrow(data: Bytes, limit: nat, es: seq<Pair>, offs: seq<nat>, sh: seq<nat>, i: nat, j: nat)
    requires Layout(data, limit, es, offs, sh) && i < j <= |es|
    ensures offs[i] < offs[j] <= limit
    decreases |es| - i, |es| - j
  {
    if j < |es| {
      OffsetsGrow(data, limit, es, offs, sh, i, j + 1);
      assert EntryAt(data, es, offs, sh, j);
      if i + 1 < j { OffsetsGrow(data, limit, es, offs, sh, i + 1, j); }
      assert EntryAt(data, es, offs, sh, i);
    } else {
      assert EntryAt(data, es, offs, sh, i);
      if i + 1 < j { OffsetsGrow(data, limit, es, offs, sh, i + 1, j); }
    }
  }

  /** A key is no longer than the bytes up to the end of its entry. */
  lemma {:induction false} KeyFits(data: Bytes, limit: nat, es: seq<Pair>, offs: seq<nat>, sh: seq<nat>, i: nat)
    requires Layout(data, limit, es, offs, sh) && i < |es|
    ensures |es[i].key| <= offs[i + 1] && sh[i] <= offs[i]
  {
    assert EntryAt(data, es, offs, sh, i);
    if i > 0 { KeyFits(data, limit, es, offs, sh, i - 1); }
  }

  lemma {:induction false} RestartsGrow(es: seq<Pair>, sh: seq<nat>, ri: seq<nat>, gap: nat, r: nat, q: nat)
    requires Restarts(es, sh, ri, gap) && gap > 0 && r < q < |ri|
    ensures ri[r] < ri[q] < |es|
    decreases q
  {
    if r + 1 < q { RestartsGrow(es, sh, ri, gap, r, q - 1); }
  }

  /** A bound on the size of a block: three varints, a key, a value and a restart offset for each entry. */
  function Weight(es: seq<Pair>): nat {
    if es == [] then 8 else Weight(es[..|es| - 1]) + 19 + |es[|es| - 1].key| + |es[|es| - 1].value|
  }

  lemma {:induction false} WeightUpTo(es: seq<Pair>, i: nat)
    requires i <= |es|
    ensures Weight(es[..i]) <= Weight(es)
    decreases |es| - i
  {
    if i < |es| {
      WeightUpTo(es, i + 1);
      assert es[..i + 1][..i] == es[..i];
    } else {
      assert es[..i] == es;
    }
  }

  lemma {:induction false} OffsetBound(data: Bytes, limit: nat, es: seq<Pair>, offs: seq<nat>, sh: seq<nat>, i: nat)
    requires Layout(data, limit, es, offs, sh) && Weight(es) < LIMIT32 && i <= |es|
    ensures offs[i] + 4 * i + 8 <= Weight(es[..i])
  {
    if i > 0 {
      OffsetBound(data, limit, es, offs, sh, i - 1);
      var e, s := es[i - 1], sh[i - 1];
      assert EntryAt(data, es, offs, sh, i - 1);
      KeyFits(data, limit, es, offs, sh, i - 1);
      assert es[..i][..i - 1] == es[..i - 1];
      WeightUpTo(es, i);
      Varint32Length(s);
      Varint32Length(|e.key| - s);
      Varint32Length(|e.value|);
    }
  }

  lemma {:induction false} RestartCount(es: seq<Pair>, sh: seq<nat>, ri: seq<nat>, gap: nat, r: nat)
    requires Restarts(es, sh, ri, gap) && gap > 0 && r < |ri|
    ensures r <= ri[r]
  {
    if r > 0 { RestartCount(es, sh, ri, gap, r - 1); }
  }

  /** The restart offsets and their count at the end of a block. */
  function Trailer(restarts: seq<nat>): (b: Bytes)
    requires |restarts| < LIMIT32 && forall r :: 0 <= r < |restarts| ==> restarts[r] < LIMIT32
  {
    FixedAll(restarts) + EncodeFixed32(|restarts|)
  }

  function FixedAll(xs: seq<nat>): (b: Bytes)
    requires forall r :: 0 <= r < |xs| ==> xs[r] < LIMIT32
    ensures |b| == 4 * |xs|
  {
    if xs == [] then [] else FixedAll(xs[..|xs| - 1]) + EncodeFixed32(xs[|xs| - 1])
  }

  lemma {:induction false} FixedAt(xs: seq<nat>, r: nat, tail: Bytes)
    requires (forall q :: 0 <= q < |xs| ==> xs[q] < LIMIT32) && r < |xs|
    ensures DecodeFixed32((FixedAll(xs) + tail)[4 * r..]) == xs[r]
    decreases |xs|
  {
    hide EncodeFixed32, DecodeFixed32;
    var front, x := xs[..|xs| - 1], xs[|xs| - 1];
    Assoc(FixedAll(front), EncodeFixed32(x), tail);
    if r < |xs| - 1 {
      FixedAt(front, r, EncodeFixed32(x) + tail);
    } else {
      assert (FixedAll(front) + (EncodeFixed32(x) + tail))[4 * r..] == EncodeFixed32(x) + tail;
      Fixed32RoundTrip(x, tail);
    }
  }

  /** The block that the builder makes of es. */
  ghost predicate Built(data: Bytes, limit: nat, es: seq<Pair>, offs: seq<nat>, sh: seq<nat>, ri: seq<nat>, gap: nat) {
    && gap > 0 && |data| < LIMIT32 && Layout(data, limit, es, offs, sh) && Restarts(es, sh, ri, gap)
    && |data| == limit + 4 * |ri| + 4 && DecodeFixed32(data[|data| - 4..]) == |ri|
    && forall r :: 0 <= r < |ri| ==> RestartAt(data, limit, offs, ri, r)
  }

  ghost predicate RestartAt(data: Bytes, limit: nat, offs: seq<nat>, ri: seq<nat>, r: nat)
    requires r < |ri|
  {
    ri[r] < |offs| && limit + 4 * r + 4 <= |data| && DecodeFixed32(data[limit + 4 * r..]) == offs[ri[r]]
  }
}
