/** What a read at a snapshot means: the newest entry of the user key that the
    snapshot can see, with deletion markers and absent keys both read as nothing. */
module Reads {
  import opened Wrappers
  import opened Keys

  /** e is an entry of user key u visible at sequence number s, and none visible is newer. */
  ghost predicate IsNewest(es: set<Entry>, u: UserKey, s: nat, e: Entry) {
    && e in es && e.key.user == u && e.key.num <= s
    && forall x :: x in es && x.key.user == u && x.key.num <= s ==> x.key.num <= e.key.num
  }

  ghost predicate Answers(es: set<Entry>, u: UserKey, s: nat, r: Option<Value>) {
    match r
    case Some(v) => exists e :: IsNewest(es, u, s, e) && e.key.kind == Put && e.value == v
    case None => forall e :: IsNewest(es, u, s, e) ==> e.key.kind == Deletion
  }

  /** No two entries carry the same sequence number. */
  ghost predicate UniqueNumbers(es: set<Entry>) {
    forall x, y :: x in es && y in es && x.key.num == y.key.num ==> x == y
  }

  /** Two stores answer alike for u at s. */
  ghost predicate SameRead(es: set<Entry>, fs: set<Entry>, u: UserKey, s: nat) {
    forall r :: Answers(es, u, s, r) <==> Answers(fs, u, s, r)
  }

  /** A visible entry has a newest visible one at or above it. */
  lemma {:induction false} NewestExists(es: set<Entry>, u: UserKey, s: nat, x: Entry) returns (e: Entry)
    requires x in es && x.key.user == u && x.key.num <= s
    ensures IsNewest(es, u, s, e) && x.key.num <= e.key.num
    decreases es
  {
    var rest := es - {x};
    if y :| y in rest && y.key.user == u && x.key.num < y.key.num <= s {
      e := NewestExists(rest, u, s, y);
      assert forall z :: z in es ==> z in rest || z == x;
    } else {
      e := x;
      assert forall z :: z in es ==> z in rest || z == x;
    }
  }

  lemma ReadIsUnique(es: set<Entry>, u: UserKey, s: nat, r1: Option<Value>, r2: Option<Value>)
    requires UniqueNumbers(es)
    requires Answers(es, u, s, r1) && Answers(es, u, s, r2)
    ensures r1 == r2
  {
    match (r1, r2)
    case (Some(v1), Some(v2)) =>
      var e1 :| IsNewest(es, u, s, e1) && e1.key.kind == Put && e1.value == v1;
      var e2 :| IsNewest(es, u, s, e2) && e2.key.kind == Put && e2.value == v2;
      assert e1.key.num <= e2.key.num && e2.key.num <= e1.key.num;
    case _ =>
  }

  /** Stores whose visible entries have a common newest entry answer alike. */
  lemma SameNewest(es: set<Entry>, fs: set<Entry>, u: UserKey, s: nat)
    requires UniqueNumbers(es + fs)
    requires forall e :: IsNewest(es, u, s, e) <==> IsNewest(fs, u, s, e)
    ensures SameRead(es, fs, u, s)
  {
  }
}
