/** The Iterator interface over one sorted run: a position, or none. */
module Cursors {
  import opened Keys

  /** Where Seek lands: the first entry at or after key, scanning from i. */
  function SeekFrom(run: seq<Entry>, key: InternalKey, i: nat): (r: nat)
    requires i <= |run|
    ensures i <= r <= |run| && (forall k :: i <= k < r ==> Less(run[k].key, key))
    ensures r < |run| ==> !Less(run[r].key, key)
    decreases |run| - i
  {
    if i == |run| || !Less(run[i].key, key) then i else SeekFrom(run, key, i + 1)
  }

  /** Seek splits a run into the entries before the key and the rest. */
  lemma SeekSplits(run: seq<Entry>, key: InternalKey)
    requires Sorted(run)
    ensures forall k :: 0 <= k < |run| ==> (k < SeekFrom(run, key, 0) <==> Less(run[k].key, key))
  {
    var c := SeekFrom(run, key, 0);
    forall k | 0 <= k < |run| ensures k < c <==> Less(run[k].key, key) {
      if k > c { assert Less(run[c].key, run[k].key); }
    }
  }

  lemma LessIsIndex(run: seq<Entry>, p: nat, m: nat)
    requires Sorted(run) && p < |run| && m < |run|
    ensures Less(run[p].key, run[m].key) <==> p < m
    ensures AtMost(run[p].key, run[m].key) <==> p <= m
  {
    if m < p { assert Less(run[m].key, run[p].key); }
  }

  /** A position in a run; |run| stands for being on neither side of it. */
  datatype Cursor = Cursor(run: seq<Entry>, pos: nat) {
    predicate Valid() { pos < |run| }

    function Here(): Entry
      requires Valid()
    {
      run[pos]
    }

    function SeekToFirst(): Cursor { Cursor(run, 0) }

    function SeekToLast(): Cursor { Cursor(run, StepBack(run, |run|)) }

    function Seek(key: InternalKey): Cursor { Cursor(run, SeekFrom(run, key, 0)) }

    function Next(): Cursor
      requires Valid()
    {
      Cursor(run, pos + 1)
    }

    function Prev(): Cursor
      requires Valid()
    {
      Cursor(run, StepBack(run, pos))
    }
  }

  /** The position before c; before the first entry the cursor falls off. */
  function StepBack(run: seq<Entry>, c: nat): nat { if c > 0 then c - 1 else |run| }

  /** Seek lands where an entry with a new key belongs. */
  lemma SeekIsSlot(run: seq<Entry>, e: Entry)
    requires Sorted(run) && forall x :: x in run ==> Compare(x.key, e.key) != 0
    ensures var i := SeekFrom(run, e.key, 0);
            (forall k :: 0 <= k < i ==> Less(run[k].key, e.key))
              && (forall k :: i <= k < |run| ==> Less(e.key, run[k].key))
  {
    var i := SeekFrom(run, e.key, 0);
    SeekSplits(run, e.key);
    forall k | i <= k < |run| ensures Less(e.key, run[k].key) {
      assert run[k] in run && !Less(run[k].key, e.key);
    }
  }

  lemma InsertedSorted(run: seq<Entry>, e: Entry, i: nat)
    requires Sorted(run) && i <= |run|
    requires forall k :: 0 <= k < i ==> Less(run[k].key, e.key)
    requires forall k :: i <= k < |run| ==> Less(e.key, run[k].key)
    ensures Sorted(run[..i] + [e] + run[i..])
    ensures forall x :: x in run[..i] + [e] + run[i..] <==> x in run || x == e
  {
    assert run == run[..i] + run[i..];
  }
}
