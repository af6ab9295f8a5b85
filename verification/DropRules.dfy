/** The drop rules of a compaction, on bare sets of entries.

    `all` is everything stored, `merged` the entries of the inputs, `markers` the deletion markers
    rule (B) may drop, `beside` the entries of level+1 files that are not inputs. */
module DropRules {
  import opened Wrappers
  import opened Keys
  import opened Reads

  /** Rule (A): a newer entry of the same key is already old enough for every reader. */
  ghost predicate Hidden(es: set<Entry>, snap: nat, e: Entry) {
    exists x :: x in es && x.key.user == e.key.user && e.key.num < x.key.num <= snap
  }

  ghost function Survivors(merged: set<Entry>, markers: set<Entry>, snap: nat): set<Entry> {
    set e | e in merged && !Hidden(merged, snap, e) && e !in markers
  }

  ghost function After(all: set<Entry>, merged: set<Entry>, markers: set<Entry>, snap: nat): set<Entry> {
    (all - merged) + Survivors(merged, markers, snap)
  }

  /** Markers are old deletions; everything else of a marker's key is newer than it, or beside the inputs. */
  ghost predicate Setting(all: set<Entry>, merged: set<Entry>, markers: set<Entry>, beside: set<Entry>, snap: nat) {
    && merged <= all && markers <= merged && beside <= all - merged
    && UniqueNumbers(all)
    && (forall d :: d in markers ==> d.key.kind == Deletion && d.key.num <= snap)
    && (forall d, x :: d in markers && x in all - merged && x.key.user == d.key.user
                       ==> x.key.num > d.key.num || x in beside)
  }

  /** Dropping d uncovers v: d is the newest entry of its key at snap, v the newest one beside the inputs
      below d, and v is a value. */
  ghost predicate Uncovers(all: set<Entry>, markers: set<Entry>, beside: set<Entry>, snap: nat, d: Entry, v: Entry) {
    && d in markers && v in beside && v.key.kind == Put && v.key.num < d.key.num
    && IsNewest(all, d.key.user, snap, d)
    && v.key.user == d.key.user
    && (forall x :: x in beside && x.key.user == d.key.user && x.key.num < d.key.num ==> x.key.num <= v.key.num)
  }

  /** One read across the drop. */
  lemma ReadKept(all: set<Entry>, merged: set<Entry>, markers: set<Entry>, beside: set<Entry>, snap: nat,
                 u: UserKey, s: nat)
    requires Setting(all, merged, markers, beside, snap)
    requires snap <= s || forall x :: x in merged ==> x.key.num <= s
    requires forall d :: d in markers && IsNewest(all, u, s, d) ==>
               forall x :: x in beside && x.key.user == u ==> x.key.num > d.key.num
    ensures SameRead(all, After(all, merged, markers, snap), u, s)
  {
    var fs := After(all, merged, markers, snap);
    assert fs <= all;
    assert forall e :: IsNewest(all, u, s, e) ==> !Hidden(merged, snap, e);
    if d :| IsNewest(all, u, s, d) && d in markers {
      NothingBelow(all, merged, markers, beside, snap, u, s, d);
      forall r ensures Answers(all, u, s, r) <==> Answers(fs, u, s, r) {
        assert forall e :: IsNewest(all, u, s, e) ==> e.key.num == d.key.num && e == d;
      }
    } else {
      forall e ensures IsNewest(all, u, s, e) <==> IsNewest(fs, u, s, e) {
        if IsNewest(fs, u, s, e) {
          var n := NewestExists(all, u, s, e);
          assert n in fs;
          assert n.key.num <= e.key.num;
        }
      }
      assert all + fs == all;
      SameNewest(all, fs, u, s);
    }
  }

  /** With nothing of the key beside the inputs below a dropped marker, nothing visible remains. */
  lemma NothingBelow(all: set<Entry>, merged: set<Entry>, markers: set<Entry>, beside: set<Entry>, snap: nat,
                     u: UserKey, s: nat, d: Entry)
    requires Setting(all, merged, markers, beside, snap)
    requires d in markers && IsNewest(all, u, s, d)
    requires forall x :: x in beside && x.key.user == u ==> x.key.num > d.key.num
    ensures forall e :: e in After(all, merged, markers, snap) && e.key.user == u ==> s < e.key.num
  {
    forall e | e in merged && e.key.user == u && e.key.num < d.key.num ensures Hidden(merged, snap, e) {
      assert d in merged;
    }
  }

  /** The drop rules keep every read at or above snap exactly when they uncover nothing. */
  lemma DropKeepsReadsIff(all: set<Entry>, merged: set<Entry>, markers: set<Entry>, beside: set<Entry>, snap: nat)
    requires Setting(all, merged, markers, beside, snap)
    ensures (forall u, s :: snap <= s ==> SameRead(all, After(all, merged, markers, snap), u, s))
            <==> (forall d, v :: !Uncovers(all, markers, beside, snap, d, v))
  {
    var fs := After(all, merged, markers, snap);
    if d, v :| Uncovers(all, markers, beside, snap, d, v) {
      UncoveredIsRead(all, merged, markers, beside, snap, d, v);
    } else {
      forall u, s | snap <= s ensures SameRead(all, fs, u, s) {
        CoveredRead(all, merged, markers, beside, snap, u, s);
      }
    }
  }

  lemma UncoveredIsRead(all: set<Entry>, merged: set<Entry>, markers: set<Entry>, beside: set<Entry>, snap: nat,
                        d: Entry, v: Entry)
    requires Setting(all, merged, markers, beside, snap)
    requires Uncovers(all, markers, beside, snap, d, v)
    ensures !SameRead(all, After(all, merged, markers, snap), d.key.user, snap)
  {
    var fs := After(all, merged, markers, snap);
    assert v in fs;
    forall x | x in merged && x.key.user == d.key.user && x.key.num < d.key.num ensures Hidden(merged, snap, x) {
      assert d in merged;
    }
    assert IsNewest(fs, d.key.user, snap, v);
    assert Answers(fs, d.key.user, snap, Some(v.value));
    assert forall e :: IsNewest(all, d.key.user, snap, e) ==> e.key.num == d.key.num;
  }

  /** Entries beside the inputs that a dropped marker would uncover are themselves deletions. */
  lemma CoveredRead(all: set<Entry>, merged: set<Entry>, markers: set<Entry>, beside: set<Entry>, snap: nat,
                    u: UserKey, s: nat)
    requires Setting(all, merged, markers, beside, snap) && snap <= s
    requires forall d, v :: !Uncovers(all, markers, beside, snap, d, v)
    ensures SameRead(all, After(all, merged, markers, snap), u, s)
  {
    var fs := After(all, merged, markers, snap);
    if d, x :| d in markers && IsNewest(all, u, s, d) && x in beside && x.key.user == u && x.key.num <= d.key.num {
      assert d.key.num <= snap;
      assert IsNewest(all, u, snap, d);
      assert x != d;
      forall r ensures Answers(all, u, s, r) <==> Answers(fs, u, s, r) {
        forall e | IsNewest(all, u, s, e) ensures e == d { assert e.key.num == d.key.num; }
        assert Answers(all, u, s, None);
        forall e | IsNewest(fs, u, s, e) ensures e.key.kind == Deletion {
          UncoveredNewest(all, merged, markers, beside, snap, u, s, d, e);
          assert !Uncovers(all, markers, beside, snap, d, e);
        }
      }
    } else {
      ReadKept(all, merged, markers, beside, snap, u, s);
    }
  }

  lemma UncoveredNewest(all: set<Entry>, merged: set<Entry>, markers: set<Entry>, beside: set<Entry>, snap: nat,
                        u: UserKey, s: nat, d: Entry, e: Entry)
    requires Setting(all, merged, markers, beside, snap) && snap <= s
    requires d in markers && IsNewest(all, u, s, d) && IsNewest(After(all, merged, markers, snap), u, s, e)
    ensures e in beside && e.key.num < d.key.num
    ensures forall x :: x in beside && x.key.user == u && x.key.num < d.key.num ==> x.key.num <= e.key.num
  {
    forall x | x in merged && x.key.user == u && x.key.num < d.key.num ensures Hidden(merged, snap, x) {
      assert d in merged;
    }
  }
}
