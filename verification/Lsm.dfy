/**
  Entries of the log-structured store.  User keys are real numbers: the store
  only compares them, and every countable order embeds in the reals.
*/
module Lsm {
  import opened Common

  type UserKey = real
  type Value = nat

  const MAX_SEQUENCE: nat := 0xff_ffff_ffff_ffff

  datatype Kind = Deletion | Put(value: Value)

  datatype Entry = Entry(key: UserKey, seqno: nat, kind: Kind)

  /** The sequence number and the type packed into the last eight bytes of an internal key. */
  function Pack(seqno: nat, isValue: bool): nat {
    seqno * 256 + (if isValue then 1 else 0)
  }

  function Tag(e: Entry): nat { Pack(e.seqno, e.kind.Put?) }

  /** InternalKeyComparator: user keys up, tags down. */
  predicate Before(k1: UserKey, t1: nat, k2: UserKey, t2: nat) {
    k1 < k2 || (k1 == k2 && t1 > t2)
  }

  predicate Precedes(a: Entry, b: Entry) { Before(a.key, Tag(a), b.key, Tag(b)) }

  /** What a sorted run of entries looks like: every version of a key once, newest first. */
  ghost predicate SortedRun(es: seq<Entry>) {
    && (forall i, j :: 0 <= i < j < |es| ==> Precedes(es[i], es[j]))
    && (forall i, j :: 0 <= i < j < |es| && es[i].key == es[j].key ==> es[i].seqno != es[j].seqno)
  }

  lemma RunOrder(es: seq<Entry>, i: int, j: int)
    requires SortedRun(es) && 0 <= i < j < |es|
    ensures es[i].key <= es[j].key && (es[i].key == es[j].key ==> es[i].seqno > es[j].seqno)
  {
    assert Precedes(es[i], es[j]);
  }

  // ----- Reading -----

  predicate Matches(e: Entry, k: UserKey, snapshot: nat) { e.key == k && e.seqno <= snapshot }

  /** e is the newest version of k that the snapshot sees. */
  ghost predicate Newest(es: seq<Entry>, k: UserKey, snapshot: nat, e: Entry) {
    e in es && Matches(e, k, snapshot) && forall x :: x in es && Matches(x, k, snapshot) ==> x.seqno <= e.seqno
  }

  ghost predicate Nothing(es: seq<Entry>, k: UserKey, snapshot: nat) {
    forall x :: x in es ==> !Matches(x, k, snapshot)
  }

  function Answer(e: Entry): Option<Value> {
    if e.kind.Put? then Some(e.kind.value) else None
  }

  /** Reading k at the snapshot yields r. */
  ghost predicate Reads(es: seq<Entry>, k: UserKey, snapshot: nat, r: Option<Value>) {
    (Nothing(es, k, snapshot) && r == None) || (exists e :: Newest(es, k, snapshot, e) && r == Answer(e))
  }

  /** Every version of k in `newer` is newer than every one in `older`. */
  ghost predicate Layered(newer: seq<Entry>, older: seq<Entry>, k: UserKey) {
    forall x, y :: x in newer && y in older && x.key == k && y.key == k ==> x.seqno > y.seqno
  }

  /** One entry per version of k. */
  ghost predicate OnePerVersion(es: seq<Entry>, k: UserKey) {
    forall x, y :: x in es && y in es && x.key == k && y.key == k && x.seqno == y.seqno ==> x == y
  }

  lemma {:induction false} ReadsSomething(es: seq<Entry>, k: UserKey, snapshot: nat) returns (r: Option<Value>)
    ensures Reads(es, k, snapshot, r)
  {
    if es == [] {
      r := None;
    } else {
      var rest, x := es[..|es| - 1], es[|es| - 1];
      assert es == rest + [x];
      assert forall y :: y in es <==> y in rest || y == x;
      var r0 := ReadsSomething(rest, k, snapshot);
      if !Matches(x, k, snapshot) {
        r := r0;
        if !Nothing(rest, k, snapshot) {
          var e :| Newest(rest, k, snapshot, e) && r0 == Answer(e);
          assert Newest(es, k, snapshot, e);
        }
      } else if Nothing(rest, k, snapshot) {
        r := Answer(x);
        assert Newest(es, k, snapshot, x);
      } else {
        var e :| Newest(rest, k, snapshot, e) && r0 == Answer(e);
        if e.seqno > x.seqno {
          r := r0;
          assert Newest(es, k, snapshot, e);
        } else {
          r := Answer(x);
          assert Newest(es, k, snapshot, x);
        }
      }
    }
  }

  /** A read has one answer. */
  lemma ReadsOnce(es: seq<Entry>, k: UserKey, snapshot: nat, r: Option<Value>, r': Option<Value>)
    requires OnePerVersion(es, k) && Reads(es, k, snapshot, r) && Reads(es, k, snapshot, r')
    ensures r == r'
  {}
}
