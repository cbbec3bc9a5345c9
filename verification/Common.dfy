/** Datatypes and small sequence facts shared by the modules of this project. */
module Common {

  datatype Option<+T> = None | Some(value: T)
  {
    function Get(default: T): T { if Some? then value else default }
  }

  type Byte = b: int | 0 <= b < 256

  /** No element occurs twice. */
  ghost predicate Distinct<T>(s: seq<T>) {
    forall i, j :: 0 <= i < j < |s| ==> s[i] != s[j]
  }

  lemma Assoc<T>(a: seq<T>, b: seq<T>, c: seq<T>)
    ensures a + b + c == a + (b + c)
  {}

  lemma EmptyLeft<T>(a: seq<T>)
    ensures [] + a == a
  {}

  lemma Subslice<T>(s: seq<T>, from: nat, to: nat, i: nat, j: nat)
    requires from <= to <= |s| && i <= j <= to - from
    ensures s[from..to][i..j] == s[from + i..from + j]
  {
    var a, b := s[from..to][i..j], s[from + i..from + j];
    assert |a| == |b| && forall k :: 0 <= k < |a| ==> a[k] == b[k];
  }

  /** ys is what xs holds at the positions idx, in their order. */
  ghost predicate Picks<T>(xs: seq<T>, ys: seq<T>, idx: seq<nat>) {
    && |idx| == |ys| && (forall j :: 0 <= j < |idx| ==> idx[j] < |xs| && ys[j] == xs[idx[j]])
    && (forall j, k :: 0 <= j < k < |idx| ==> idx[j] < idx[k])
  }

  lemma PicksNone<T>(xs: seq<T>)
    ensures Picks(xs, [], [])
  {}

  lemma PicksLonger<T>(xs: seq<T>, x: T, ys: seq<T>, idx: seq<nat>)
    requires Picks(xs, ys, idx)
    ensures Picks(xs + [x], ys, idx)
  {}

  lemma PicksMore<T>(xs: seq<T>, ys: seq<T>, idx: seq<nat>, n: nat)
    requires Picks(xs, ys, idx) && n < |xs| && forall j :: 0 <= j < |idx| ==> idx[j] < n
    ensures Picks(xs, ys + [xs[n]], idx + [n])
  {}
}
