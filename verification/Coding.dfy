/** Variable-length integers and length-prefixed strings, as stored on disk. */
module Coding {
  import opened Common

  /** Seven bits a byte, low bits first; the top bit marks that more follow. */
  function PutVarint(v: nat): (b: seq<Byte>)
    ensures |b| > 0
    decreases v
  {
    if v < 128 then [v] else [128 + v % 128] + PutVarint(v / 128)
  }

  /** Reads at most `most` bytes. */
  function GetVarint(b: seq<Byte>, most: nat): (r: Option<(nat, seq<Byte>)>)
    ensures r.Some? ==> |r.value.1| < |b|
    decreases most
  {
    if b == [] || most == 0 then None
    else if b[0] < 128 then Some((b[0], b[1..]))
    else
      var r := GetVarint(b[1..], most - 1);
      if r.None? then None else Some((b[0] as int - 128 + 128 * r.value.0, r.value.1))
  }

  function Power(n: nat): nat { if n == 0 then 1 else 128 * Power(n - 1) }

  lemma {:induction false} VarintRoundTrip(v: nat, most: nat, rest: seq<Byte>)
    requires most > 0 && v < Power(most)
    ensures GetVarint(PutVarint(v) + rest, most) == Some((v, rest))
    decreases most
  {
    if v < 128 {
      assert (PutVarint(v) + rest)[1..] == rest;
    } else {
      var tail := PutVarint(v / 128);
      assert most > 1 by { assert Power(1) == 128 * Power(0); }
      assert v / 128 < Power(most - 1);
      VarintRoundTrip(v / 128, most - 1, rest);
      assert (PutVarint(v) + rest)[1..] == tail + rest;
    }
  }

  lemma {:induction false} VarintLength(v: nat, most: nat)
    requires most > 0 && v < Power(most)
    ensures |PutVarint(v)| <= most
    decreases most
  {
    if v >= 128 {
      assert most > 1 by { assert Power(1) == 128 * Power(0); }
      VarintLength(v / 128, most - 1);
    }
  }

  const LIMIT32: nat := 0x1_0000_0000
  const LIMIT64: nat := 0x1_0000_0000_0000_0000

  function GetVarint32(b: seq<Byte>): (r: Option<(nat, seq<Byte>)>)
    ensures r.Some? ==> |r.value.1| < |b|
  {
    var r := GetVarint(b, 5);
    if r.None? then None else Some((r.value.0 % LIMIT32, r.value.1))
  }

  function GetVarint64(b: seq<Byte>): (r: Option<(nat, seq<Byte>)>)
    ensures r.Some? ==> |r.value.1| < |b|
  {
    var r := GetVarint(b, 10);
    if r.None? then None else Some((r.value.0 % LIMIT64, r.value.1))
  }

  lemma Varint32RoundTrip(v: nat, rest: seq<Byte>)
    requires v < LIMIT32
    ensures GetVarint32(PutVarint(v) + rest) == Some((v, rest))
  {
    assert Power(1) == 128 && Power(2) == 128 * Power(1) && Power(3) == 128 * Power(2) && Power(4) == 128 * Power(3);
    assert Power(5) == 128 * Power(4);
    VarintRoundTrip(v, 5, rest);
  }

  lemma Varint32Length(v: nat)
    requires v < LIMIT32
    ensures |PutVarint(v)| <= 5
  {
    assert Power(1) == 128 && Power(2) == 128 * Power(1) && Power(3) == 128 * Power(2) && Power(4) == 128 * Power(3);
    assert Power(5) == 128 * Power(4);
    VarintLength(v, 5);
  }

  lemma Varint64RoundTrip(v: nat, rest: seq<Byte>)
    requires v < LIMIT64
    ensures GetVarint64(PutVarint(v) + rest) == Some((v, rest))
  {
    assert Power(1) == 128 && Power(2) == 128 * Power(1) && Power(3) == 128 * Power(2) && Power(4) == 128 * Power(3);
    assert Power(5) == 128 * Power(4) && Power(6) == 128 * Power(5) && Power(7) == 128 * Power(6);
    assert Power(8) == 128 * Power(7) && Power(9) == 128 * Power(8) && Power(10) == 128 * Power(9);
    VarintRoundTrip(v, 10, rest);
  }

  function PutSlice(s: seq<Byte>): (b: seq<Byte>)
    ensures |b| > 0
  {
    PutVarint(|s|) + s
  }

  function GetSlice(b: seq<Byte>): (r: Option<(seq<Byte>, seq<Byte>)>)
    ensures r.Some? ==> |r.value.1| < |b|
  {
    var n := GetVarint32(b);
    if n.None? || n.value.0 > |n.value.1| then None
    else Some((n.value.1[..n.value.0], n.value.1[n.value.0..]))
  }

  lemma SliceRoundTrip(s: seq<Byte>, rest: seq<Byte>)
    requires |s| < LIMIT32
    ensures GetSlice(PutSlice(s) + rest) == Some((s, rest))
  {
    hide GetVarint32, PutVarint;
    Assoc(PutVarint(|s|), s, rest);
    Varint32RoundTrip(|s|, s + rest);
  }

  // ----- Fixed width -----

  function EncodeFixed32(v: nat): seq<Byte>
    requires v < LIMIT32
  {
    [v % 256, v / 256 % 256, v / 65536 % 256, v / 16777216]
  }

  function DecodeFixed32(b: seq<Byte>): nat
    requires |b| >= 4
  {
    b[0] as int + 256 * (b[1] as int) + 65536 * (b[2] as int) + 16777216 * (b[3] as int)
  }

  lemma Fixed32RoundTrip(v: nat, rest: seq<Byte>)
    requires v < LIMIT32
    ensures DecodeFixed32(EncodeFixed32(v) + rest) == v
  {
    var q, r, s := v / 256, v / 65536, v / 16777216;
    assert r == q / 256 && s == r / 256;
    assert v == 256 * q + v % 256 && q == 256 * r + q % 256 && r == 256 * s + r % 256;
  }

  function EncodeFixed64(v: nat): (b: seq<Byte>)
    requires v < LIMIT64
    ensures |b| == 8
  {
    EncodeFixed32(v % LIMIT32) + EncodeFixed32(v / LIMIT32)
  }

  function DecodeFixed64(b: seq<Byte>): nat
    requires |b| >= 8
  {
    DecodeFixed32(b) + LIMIT32 * DecodeFixed32(b[4..])
  }

  lemma Fixed64RoundTrip(v: nat, rest: seq<Byte>)
    requires v < LIMIT64
    ensures DecodeFixed64(EncodeFixed64(v) + rest) == v
  {
    var lo, hi := v % LIMIT32, v / LIMIT32;
    var b := EncodeFixed64(v) + rest;
    hide EncodeFixed32, DecodeFixed32;
    Assoc(EncodeFixed32(lo), EncodeFixed32(hi), rest);
    Fixed32RoundTrip(lo, EncodeFixed32(hi) + rest);
    assert |EncodeFixed32(lo)| == 4 by { FixedLength(lo); }
    assert b[4..] == EncodeFixed32(hi) + rest;
    Fixed32RoundTrip(hi, rest);
  }

  lemma FixedLength(v: nat)
    requires v < LIMIT32
    ensures |EncodeFixed32(v)| == 4
  {}
}
