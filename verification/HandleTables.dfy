/** HandleTable: the cache's resizable hash table holds exactly the items inserted and not removed, one for each key. */
module HandleTables {
  import opened Wrappers
  import opened Keys
  import opened Coding

  /** An entry of the table: the handle it stands for, and what it is compared by. */
  datatype Item = Item(id: nat, hash: word, key: seq<byte>) {
    predicate Matches(key: seq<byte>, hash: word) { this.hash == hash && this.key == key }
  }

  type Chain = seq<Item>

  predicate NoMatch(chain: Chain, key: seq<byte>, hash: word) {
    forall i :: 0 <= i < |chain| ==> !chain[i].Matches(key, hash)
  }

  /** Different items of a chain differ in hash or key. */
  ghost predicate Unlike(chain: Chain) {
    forall i, k :: 0 <= i < k < |chain| ==> !chain[k].Matches(chain[i].key, chain[i].hash)
  }

  /** The chains hold the items, each in the bucket of its hash. */
  ghost predicate Holds(buckets: seq<Chain>, items: set<Item>) {
    && (forall b, x :: 0 <= b < |buckets| && x in buckets[b] ==> x in items && x.hash % |buckets| == b)
    && (forall x :: x in items ==> |buckets| > 0 && x in buckets[x.hash % |buckets|])
    && (forall b :: 0 <= b < |buckets| ==> Unlike(buckets[b]))
  }

  lemma OneItemAKey(buckets: seq<Chain>, items: set<Item>, x: Item, y: Item)
    requires Holds(buckets, items) && x in items && y in items && y.Matches(x.key, x.hash)
    ensures x == y
  {
    var chain := buckets[x.hash % |buckets|];
    var i :| 0 <= i < |chain| && chain[i] == x;
    var k :| 0 <= k < |chain| && chain[k] == y;
    assert !(i < k) && !(k < i);
  }

  lemma OthersDiffer(buckets: seq<Chain>, items: set<Item>, x: Item)
    requires Holds(buckets, items) && x in items
    ensures forall y :: y in items && y.Matches(x.key, x.hash) ==> y == x
  {
    forall y | y in items && y.Matches(x.key, x.hash) ensures y == x { OneItemAKey(buckets, items, x, y); }
  }

  /** One chain without, or with another, item at position pos. */
  function Replace(chain: Chain, pos: nat, h: Item): Chain
    requires pos <= |chain|
  {
    if pos < |chain| then chain[pos := h] else chain + [h]
  }

  function Unlink(chain: Chain, pos: nat): Chain
    requires pos < |chain|
  {
    chain[..pos] + chain[pos + 1..]
  }

  lemma ReplacedHolds(buckets: seq<Chain>, items: set<Item>, h: Item, pos: nat)
    requires Holds(buckets, items) && |buckets| > 0
    requires var chain := buckets[h.hash % |buckets|];
             pos <= |chain| && NoMatch(chain[..pos], h.key, h.hash)
               && (pos < |chain| ==> chain[pos].Matches(h.key, h.hash))
    ensures var chain := buckets[h.hash % |buckets|];
            Holds(buckets[h.hash % |buckets| := Replace(chain, pos, h)],
                  items - (if pos < |chain| then {chain[pos]} else {}) + {h})
  {
    hide Replace;
    var b := h.hash % |buckets|;
    var chain := buckets[b];
    ReplacedUnlike(chain, pos, h);
    ReplacedMembers(chain, pos, h);
  }

  lemma ReplacedUnlike(chain: Chain, pos: nat, h: Item)
    requires pos <= |chain| && Unlike(chain) && NoMatch(chain[..pos], h.key, h.hash)
      && (pos < |chain| ==> chain[pos].Matches(h.key, h.hash))
    ensures Unlike(Replace(chain, pos, h))
  {
    var now := Replace(chain, pos, h);
    forall i, k | 0 <= i < k < |now| ensures !now[k].Matches(now[i].key, now[i].hash) {
      assert i < pos ==> chain[..pos][i] == chain[i];
      assert k < |chain| ==> !chain[k].Matches(chain[i].key, chain[i].hash);
    }
  }

  lemma ReplacedMembers(chain: Chain, pos: nat, h: Item)
    requires pos <= |chain| && Unlike(chain) && (pos < |chain| ==> chain[pos].Matches(h.key, h.hash))
    ensures forall x :: x in Replace(chain, pos, h) <==> (x in chain && (pos < |chain| ==> x != chain[pos])) || x == h
  {
    var now := Replace(chain, pos, h);
    assert now[pos] == h;
    forall x | x in chain && (pos < |chain| ==> x != chain[pos]) ensures x in now {
      var i :| 0 <= i < |chain| && chain[i] == x;
      assert now[i] == x;
    }
    forall x | x in now ensures (x in chain && (pos < |chain| ==> x != chain[pos])) || x == h {
      var i :| 0 <= i < |now| && now[i] == x;
      if i != pos && pos < |chain| {
        assert chain[i] == x;
        assert
          if i < pos then !chain[pos].Matches(chain[i].key, chain[i].hash)
          else !chain[i].Matches(chain[pos].key, chain[pos].hash);
      }
    }
  }

  lemma UnlinkedHolds(buckets: seq<Chain>, items: set<Item>, b: nat, pos: nat)
    requires Holds(buckets, items) && b < |buckets| && pos < |buckets[b]|
    ensures Holds(buckets[b := Unlink(buckets[b], pos)], items - {buckets[b][pos]})
  {
    var chain := buckets[b];
    var now := Unlink(chain, pos);
    forall i | 0 <= i < |now| ensures now[i] == if i < pos then chain[i] else chain[i + 1] { }
    UnlinkedMembers(chain, pos);
    forall c, x | 0 <= c < |buckets| && x in buckets[c] && c != b ensures x != chain[pos] {
      assert chain[pos] in chain;
    }
  }

  lemma UnlinkedMembers(chain: Chain, pos: nat)
    requires pos < |chain| && Unlike(chain)
    ensures forall x :: x in Unlink(chain, pos) <==> x in chain && x != chain[pos]
  {
    var now := Unlink(chain, pos);
    forall x | x in chain && x != chain[pos] ensures x in now {
      var i :| 0 <= i < |chain| && chain[i] == x;
      assert if i < pos then now[i] == x else now[i - 1] == x;
    }
    forall x | x in now ensures x in chain && x != chain[pos] {
      var i :| 0 <= i < |now| && now[i] == x;
      var k := if i < pos then i else i + 1;
      assert chain[k] == x;
      assert
        if k < pos then !chain[pos].Matches(chain[k].key, chain[k].hash)
        else !chain[k].Matches(chain[pos].key, chain[pos].hash);
    }
  }

  class HandleTable {
    var elems: nat
    var buckets: seq<Chain> // list_; its length is length_
    ghost var items: set<Item>

    constructor ()
      ensures Valid() && items == {}
    {
      elems, buckets, items := 0, [[], [], [], []], {};
    }

    ghost predicate Valid()
      reads this
    {
      |buckets| > 0 && Holds(buckets, items) && elems == |items|
    }

    /** The bucket of a hash; the number of buckets is a power of two, so masking and remainder agree. */
    function BucketOf(hash: word): (b: nat)
      requires |buckets| > 0
      reads this
      ensures b < |buckets|
    {
      hash % |buckets|
    }

    /** FindPointer: the position in the chain of the matching item, or the chain's end. */
    method FindPointer(key: seq<byte>, hash: word) returns (b: nat, pos: nat)
      requires Valid()
      ensures b == hash % |buckets| < |buckets| && pos <= |buckets[b]| && NoMatch(buckets[b][..pos], key, hash)
      ensures pos < |buckets[b]| ==> buckets[b][pos].Matches(key, hash) && buckets[b][pos] in items
      ensures pos == |buckets[b]| ==> forall x :: x in items ==> !x.Matches(key, hash)
    {
      b := BucketOf(hash);
      var chain := buckets[b];
      pos := 0;
      while pos < |chain| && !chain[pos].Matches(key, hash)
        invariant pos <= |chain| && NoMatch(chain[..pos], key, hash)
      {
        pos := pos + 1;
      }
      if pos == |chain| {
        assert chain[..pos] == chain;
        forall x | x in items ensures !x.Matches(key, hash) {
          if x.hash == hash {
            var i :| 0 <= i < |chain| && chain[i] == x;
          }
        }
      }
    }

    method Lookup(key: seq<byte>, hash: word) returns (r: Option<Item>)
      requires Valid()
      ensures r.Some? ==> r.value in items && r.value.Matches(key, hash)
      ensures r.None? ==> forall x :: x in items ==> !x.Matches(key, hash)
    {
      var b, pos := FindPointer(key, hash);
      r := if pos < |buckets[b]| then Some(buckets[b][pos]) else None;
    }

    /** Puts h in the place of the item with its key, if there is one, and returns that. */
    method Insert(h: Item) returns (replaced: Option<Item>)
      requires Valid() && h !in items
      modifies this
      ensures Valid()
      ensures replaced.Some? ==>
        replaced.value in old(items) && replaced.value.Matches(h.key, h.hash)
          && items == old(items) - {replaced.value} + {h}
      ensures replaced.None? ==> items == old(items) + {h} && forall x :: x in old(items) ==> !x.Matches(h.key, h.hash)
    {
      hide Holds;
      var b, pos := FindPointer(h.key, h.hash);
      ReplacedHolds(buckets, items, h, pos);
      replaced := if pos < |buckets[b]| then Some(buckets[b][pos]) else None;
      buckets := buckets[b := Replace(buckets[b], pos, h)];
      items := items - (if replaced.Some? then {replaced.value} else {}) + {h};
      if replaced.None? {
        elems := elems + 1;
        if elems > |buckets| {
          Resize();
        }
      }
    }

    method Remove(key: seq<byte>, hash: word) returns (r: Option<Item>)
      requires Valid()
      modifies this
      ensures Valid()
      ensures r.Some? ==> r.value in old(items) && r.value.Matches(key, hash) && items == old(items) - {r.value}
      ensures r.None? ==> items == old(items)
      ensures forall x :: x in items ==> !x.Matches(key, hash)
    {
      hide Holds;
      var b, pos := FindPointer(key, hash);
      r := None;
      if pos < |buckets[b]| {
        r := Some(buckets[b][pos]);
        OthersDiffer(buckets, items, r.value);
        UnlinkedHolds(buckets, items, b, pos);
        buckets := buckets[b := Unlink(buckets[b], pos)];
        items := items - {r.value};
        elems := elems - 1;
      }
    }

    /** Spreads the chains over at least elems buckets. */
    method Resize()
      requires Valid()
      modifies `buckets
      ensures Valid() && elems <= |buckets|
    {
      hide Holds;
      var newLength := NewLength(elems);
      var newList: seq<Chain> := seq(newLength, _ => []);
      ghost var moved: set<Item> := {};
      EmptyHolds(newLength);
      var list := buckets;
      for i := 0 to |list|
        invariant |newList| == newLength && Holds(newList, moved)
        invariant forall x :: x in moved <==> x in items && x.hash % |list| < i
      {
        BucketItems(list, items, i);
        newList, moved := MoveChain(list[i], newList, moved);
      }
      assert moved == items;
      buckets := newList;
    }
  }

  method NewLength(elems: nat) returns (length: nat)
    ensures length >= elems && length >= 4
  {
    length := 4;
    while length < elems
      invariant length >= 4
      decreases elems - length
    {
      length := length * 2;
    }
  }

  lemma EmptyHolds(n: nat)
    requires n > 0
    ensures Holds(seq(n, _ => []), {})
  {
  }

  /** A bucket holds the items of its residue, all unlike. */
  lemma BucketItems(buckets: seq<Chain>, items: set<Item>, b: nat)
    requires Holds(buckets, items) && b < |buckets|
    ensures Unlike(buckets[b]) && forall x :: x in buckets[b] <==> x in items && x.hash % |buckets| == b
  {
  }

  /** The inner loop of Resize: each handle goes to the front of its new bucket. */
  method MoveChain(chain: Chain, newList: seq<Chain>, ghost moved: set<Item>)
    returns (newList': seq<Chain>, ghost moved': set<Item>)
    requires |newList| > 0 && Holds(newList, moved) && Unlike(chain)
    requires forall x, y :: x in chain && y in moved ==> !x.Matches(y.key, y.hash)
    ensures |newList'| == |newList| && Holds(newList', moved') && forall x :: x in moved' <==> x in moved || x in chain
  {
    hide Holds;
    newList', moved' := newList, moved;
    for k := 0 to |chain|
      invariant |newList'| == |newList| && Holds(newList', moved')
      invariant forall x :: x in moved' <==> x in moved || x in chain[..k]
    {
      var h := chain[k];
      assert h in chain && chain[..k + 1] == chain[..k] + [h];
      forall y | y in moved' ensures !h.Matches(y.key, y.hash) {
        if y !in moved {
          var i :| 0 <= i < k && chain[i] == y;
          assert !chain[k].Matches(chain[i].key, chain[i].hash);
        }
      }
      PrependHolds(newList', moved', h);
      var b := h.hash % |newList'|;
      newList', moved' := newList'[b := [h] + newList'[b]], moved' + {h};
    }
    assert chain[..|chain|] == chain;
  }

  lemma PrependHolds(buckets: seq<Chain>, items: set<Item>, h: Item)
    requires Holds(buckets, items) && |buckets| > 0 && forall y :: y in items ==> !h.Matches(y.key, y.hash)
    ensures var b := h.hash % |buckets|; Holds(buckets[b := [h] + buckets[b]], items + {h})
  {
    var b := h.hash % |buckets|;
    var now := [h] + buckets[b];
    forall i, k | 0 <= i < k < |now| ensures !now[k].Matches(now[i].key, now[i].hash) {
      assert now[k] in buckets[b];
    }
    forall x ensures x in now <==> x in buckets[b] || x == h { assert now[0] == h; }
  }
}
