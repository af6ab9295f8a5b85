/** LRUCache: reference counts, the two lists, the charge in use and the deleters, over every sequence of calls. */
module Cache {
  import opened Wrappers
  import opened Keys
  import opened Coding
  import opened HandleTables

  /** LRUHandle. */
  datatype Node = Node(key: seq<byte>, hash: word, charge: nat, refs: nat, inCache: bool)

  type Nodes = map<nat, Node>

  function ItemOf(nodes: Nodes, id: nat): Item
    requires id in nodes
  {
    Item(id, nodes[id].hash, nodes[id].key)
  }

  // ----- lists -----

  ghost predicate NoDup(ids: seq<nat>) { forall i, k :: 0 <= i < k < |ids| ==> ids[i] != ids[k] }

  /** The list without id. */
  function Minus(ids: seq<nat>, id: nat): seq<nat> {
    if ids == [] then []
    else if ids[|ids| - 1] == id then Minus(ids[..|ids| - 1], id)
    else Minus(ids[..|ids| - 1], id) + [ids[|ids| - 1]]
  }

  lemma {:induction false} MinusAre(ids: seq<nat>, id: nat)
    ensures forall x :: x in Minus(ids, id) <==> x in ids && x != id
  {
    if ids != [] {
      MinusAre(ids[..|ids| - 1], id);
      assert forall x :: x in ids <==> x in ids[..|ids| - 1] || x == ids[|ids| - 1];
    }
  }

  lemma {:induction false} MinusNoDup(ids: seq<nat>, id: nat)
    requires NoDup(ids)
    ensures NoDup(Minus(ids, id))
  {
    if ids != [] {
      var front := ids[..|ids| - 1];
      MinusNoDup(front, id);
      MinusAre(front, id);
      var m := Minus(front, id);
      forall i | 0 <= i < |m| ensures m[i] != ids[|ids| - 1] { assert m[i] in front; }
    }
  }

  lemma {:induction false} MinusNone(ids: seq<nat>, id: nat)
    requires id !in ids
    ensures Minus(ids, id) == ids
  {
    if ids != [] { MinusNone(ids[..|ids| - 1], id); }
  }

  /** Removing the oldest of a list without repetitions leaves the rest in order. */
  lemma {:induction false} MinusFirst(ids: seq<nat>)
    requires ids != [] && NoDup(ids)
    ensures Minus(ids, ids[0]) == ids[1..]
  {
    var front, last := ids[..|ids| - 1], ids[|ids| - 1];
    if |ids| == 1 {
      assert front == [];
    } else {
      assert front[0] == ids[0];
      MinusFirst(front);
      assert ids[1..] == front[1..] + [last];
    }
  }

  /** The charges of the nodes in a list. */
  function Charges(nodes: Nodes, ids: seq<nat>): nat {
    if ids == [] then 0
    else
      var last := ids[|ids| - 1];
      Charges(nodes, ids[..|ids| - 1]) + if last in nodes then nodes[last].charge else 0
  }

  lemma {:induction false} ChargesMinus(nodes: Nodes, ids: seq<nat>, id: nat)
    requires NoDup(ids) && id in ids && id in nodes
    ensures Charges(nodes, ids) == Charges(nodes, Minus(ids, id)) + nodes[id].charge
  {
    var front, last := ids[..|ids| - 1], ids[|ids| - 1];
    if last == id {
      forall i | 0 <= i < |front| ensures front[i] != id { assert ids[i] != ids[|ids| - 1]; }
      MinusNone(front, id);
    } else {
      assert id in front;
      ChargesMinus(nodes, front, id);
      assert Minus(ids, id)[..|Minus(ids, id)| - 1] == Minus(front, id);
    }
  }

  lemma {:induction false} SameCharges(nodes: Nodes, nodes': Nodes, ids: seq<nat>)
    requires forall x :: x in ids ==> x in nodes && x in nodes' && nodes'[x].charge == nodes[x].charge
    ensures Charges(nodes', ids) == Charges(nodes, ids)
  {
    if ids != [] {
      SameCharges(nodes, nodes', ids[..|ids| - 1]);
      assert ids[|ids| - 1] in ids;
    }
  }

  // ----- the state and its invariant -----

  /** Everything the mutex protects, the handles clients hold, and the deleters that have run. */
  datatype State = State(nodes: Nodes, lru: seq<nat>, inUse: seq<nat>, items: set<Item>, usage: int,
                         clients: map<nat, nat>, deleted: seq<nat>, next: nat)

  /** Exactly the unreferenced entries of the cache are on the LRU list, exactly the referenced ones on the in-use list.
      */
  ghost predicate ListsOk(s: State) {
    && NoDup(s.lru) && NoDup(s.inUse)
    && (forall id :: id in s.lru <==> id in s.nodes && s.nodes[id].inCache && s.nodes[id].refs == 1)
    && (forall id :: id in s.inUse <==> id in s.nodes && s.nodes[id].inCache && s.nodes[id].refs >= 2)
  }

  /** A live handle has one reference for each time a client holds it, and one for the cache. */
  ghost predicate RefsOk(s: State) {
    && s.clients.Keys == s.nodes.Keys
    && forall id :: id in s.nodes ==>
       s.nodes[id].refs > 0 && s.nodes[id].refs == s.clients[id] + if s.nodes[id].inCache then 1 else 0
  }

  /** Every handle made is live or has been deleted, once. */
  ghost predicate DeletersOk(s: State) {
    && NoDup(s.deleted)
    && forall id: nat :: id < s.next <==> (id in s.nodes || id in s.deleted)
  }

  ghost predicate ItemsOk(s: State) {
    && (forall id :: id in s.nodes && s.nodes[id].inCache ==> ItemOf(s.nodes, id) in s.items)
    && (forall x :: x in s.items ==> x.id in s.nodes && s.nodes[x.id].inCache && x == ItemOf(s.nodes, x.id))
  }

  ghost predicate Inv(s: State) {
    && ListsOk(s) && RefsOk(s) && DeletersOk(s) && ItemsOk(s) && (forall id :: id in s.nodes ==> id !in s.deleted)
    && s.usage == Charges(s.nodes, s.lru) + Charges(s.nodes, s.inUse)
  }

  // ----- what the operations do to it -----

  /** A client takes a handle of an entry in the cache. */
  function Referenced(s: State, id: nat): State
    requires id in s.nodes && id in s.clients
  {
    var node := s.nodes[id];
    s.(nodes := s.nodes[id := node.(refs := node.refs + 1)], clients := s.clients[id := s.clients[id] + 1],
       lru := Minus(s.lru, id), inUse := if node.refs == 1 && node.inCache then Minus(s.inUse, id) + [id] else s.inUse)
  }

  /** A client gives a handle back. */
  function Released(s: State, id: nat): State
    requires id in s.nodes && id in s.clients && s.nodes[id].refs > 0 && s.clients[id] > 0
  {
    var node := s.nodes[id];
    if node.refs == 1 then
      s.(nodes := s.nodes - {id}, clients := s.clients - {id}, deleted := s.deleted + [id])
    else
      s.(nodes := s.nodes[id := node.(refs := node.refs - 1)], clients := s.clients[id := s.clients[id] - 1],
         lru := if node.inCache && node.refs == 2 then Minus(s.lru, id) + [id] else s.lru,
         inUse := if node.inCache && node.refs == 2 then Minus(s.inUse, id) else s.inUse)
  }

  /** An entry leaves the cache; its node stays while clients hold it. */
  function Erased(s: State, id: nat): State
    requires id in s.nodes && id in s.clients && s.nodes[id].refs > 0
  {
    var node := s.nodes[id];
    var out := s.(lru := Minus(s.lru, id), inUse := Minus(s.inUse, id), items := s.items - {ItemOf(s.nodes, id)},
                  usage := s.usage - node.charge);
    if node.refs == 1 then out.(nodes := s.nodes - {id}, clients := s.clients - {id}, deleted := s.deleted + [id])
    else out.(nodes := s.nodes[id := node.(refs := node.refs - 1, inCache := false)])
  }

  /** A new entry, held by the client that inserts it and by the cache. */
  function Added(s: State, key: seq<byte>, hash: word, charge: nat): State {
    s.(nodes := s.nodes[s.next := Node(key, hash, charge, 2, true)],
       clients := s.clients[s.next := 1],
       inUse := s.inUse + [s.next],
       items := s.items + {Item(s.next, hash, key)}, usage := s.usage + charge, next := s.next + 1)
  }

  /** A new handle that the cache does not keep. */
  function AddedOutside(s: State, key: seq<byte>, hash: word, charge: nat): State {
    s.(nodes := s.nodes[s.next := Node(key, hash, charge, 1, false)],
       clients := s.clients[s.next := 1],
       next := s.next + 1)
  }

  lemma ListMinus(nodes: Nodes, ids: seq<nat>, id: nat)
    requires NoDup(ids) && id in nodes
    ensures NoDup(Minus(ids, id)) && forall x :: x in Minus(ids, id) <==> x in ids && x != id
    ensures Charges(nodes, ids) == Charges(nodes, Minus(ids, id)) + if id in ids then nodes[id].charge else 0
  {
    MinusAre(ids, id);
    MinusNoDup(ids, id);
    if id in ids { ChargesMinus(nodes, ids, id); } else { MinusNone(ids, id); }
  }

  lemma MinusAbsent(ids: seq<nat>, id: nat)
    ensures id !in ids ==> Minus(ids, id) == ids
  {
    if id !in ids { MinusNone(ids, id); }
  }

  lemma ListPlus(nodes: Nodes, ids: seq<nat>, id: nat)
    requires NoDup(ids) && id !in ids && id in nodes
    ensures NoDup(ids + [id]) && Charges(nodes, ids + [id]) == Charges(nodes, ids) + nodes[id].charge
    ensures forall x :: x in ids + [id] <==> x in ids || x == id
  {
    assert (ids + [id])[..|ids|] == ids;
  }

  lemma ReferencedInv(s: State, id: nat)
    requires Inv(s) && id in s.nodes && s.nodes[id].inCache
    ensures Inv(Referenced(s, id))
  {
    hide ListsOk, RefsOk, DeletersOk, ItemsOk, Referenced;
    ReferencedLists(s, id);
    ReferencedCounts(s, id);
    ReferencedDeleters(s, id);
  }

  lemma ReferencedLists(s: State, id: nat)
    requires ListsOk(s) && RefsOk(s) && id in s.nodes && s.nodes[id].inCache
    requires s.usage == Charges(s.nodes, s.lru) + Charges(s.nodes, s.inUse)
    ensures var t := Referenced(s, id); ListsOk(t) && t.usage == Charges(t.nodes, t.lru) + Charges(t.nodes, t.inUse)
  {
    hide Charges, Minus, NoDup;
    var t := Referenced(s, id);
    ListMinus(s.nodes, s.lru, id);
    ListMinus(s.nodes, s.inUse, id);
    MinusAbsent(s.lru, id);
    MinusAbsent(s.inUse, id);
    if s.nodes[id].refs == 1 { ListPlus(s.nodes, s.inUse, id); }
    SameCharges(s.nodes, t.nodes, t.lru);
    SameCharges(s.nodes, t.nodes, t.inUse);
  }

  lemma ReferencedCounts(s: State, id: nat)
    requires RefsOk(s) && ItemsOk(s) && id in s.nodes && s.nodes[id].inCache
    ensures RefsOk(Referenced(s, id)) && ItemsOk(Referenced(s, id))
  {
    hide Minus;
    var t := Referenced(s, id);
    SameItems(s, t);
  }

  lemma ReferencedDeleters(s: State, id: nat)
    requires RefsOk(s) && DeletersOk(s) && id in s.nodes && forall x :: x in s.nodes ==> x !in s.deleted
    ensures var t := Referenced(s, id); DeletersOk(t) && forall x :: x in t.nodes ==> x !in t.deleted
  {
    hide Minus, NoDup;
  }

  /** The items stay right when handles only change their counts, or when those that leave are of no cached entry. */
  lemma SameItems(s: State, t: State)
    requires ItemsOk(s) && t.items == s.items
    requires forall id :: id in s.nodes && s.nodes[id].inCache ==> id in t.nodes
    requires forall id :: id in t.nodes ==> id in s.nodes && t.nodes[id].(refs := 0) == s.nodes[id].(refs := 0)
    ensures ItemsOk(t)
  {
    forall id | id in s.nodes && s.nodes[id].inCache
      ensures id in t.nodes && ItemOf(t.nodes, id) == ItemOf(s.nodes, id)
    {
      assert t.nodes[id].(refs := 0) == s.nodes[id].(refs := 0);
    }
  }

  lemma ReleasedInv(s: State, id: nat)
    requires Inv(s) && id in s.nodes && s.clients[id] > 0
    ensures Inv(Released(s, id))
  {
    hide ListsOk, RefsOk, DeletersOk, ItemsOk, Released;
    ReleasedLists(s, id);
    ReleasedCounts(s, id);
    ReleasedDeleters(s, id);
  }

  lemma ReleasedLists(s: State, id: nat)
    requires ListsOk(s) && RefsOk(s) && id in s.nodes && s.clients[id] > 0
    requires s.usage == Charges(s.nodes, s.lru) + Charges(s.nodes, s.inUse)
    ensures var t := Released(s, id); ListsOk(t) && t.usage == Charges(t.nodes, t.lru) + Charges(t.nodes, t.inUse)
  {
    hide Charges, Minus, NoDup;
    var t := Released(s, id);
    ListMinus(s.nodes, s.lru, id);
    ListMinus(s.nodes, s.inUse, id);
    if s.nodes[id].inCache && s.nodes[id].refs == 2 { ListPlus(s.nodes, Minus(s.lru, id), id); MinusNone(s.lru, id); }
    SameCharges(s.nodes, t.nodes, t.lru);
    SameCharges(s.nodes, t.nodes, t.inUse);
  }

  lemma ReleasedCounts(s: State, id: nat)
    requires RefsOk(s) && ItemsOk(s) && id in s.nodes && s.clients[id] > 0
    ensures RefsOk(Released(s, id)) && ItemsOk(Released(s, id))
  {
    hide Minus;
    ReleasedRefs(s, id);
    hide RefsOk;
    SameItems(s, Released(s, id));
  }

  lemma ReleasedRefs(s: State, id: nat)
    requires RefsOk(s) && id in s.nodes && s.clients[id] > 0
    ensures RefsOk(Released(s, id)) && (s.nodes[id].refs == 1 ==> !s.nodes[id].inCache)
  {
    hide Minus;
  }

  lemma ReleasedDeleters(s: State, id: nat)
    requires RefsOk(s) && DeletersOk(s) && id in s.nodes && s.clients[id] > 0
      && forall x :: x in s.nodes ==> x !in s.deleted
    ensures var t := Released(s, id); DeletersOk(t) && forall x :: x in t.nodes ==> x !in t.deleted
  {
    hide Minus;
  }

  lemma ErasedInv(s: State, id: nat)
    requires Inv(s) && id in s.nodes && s.nodes[id].inCache
    ensures Inv(Erased(s, id))
  {
    hide ListsOk, RefsOk, DeletersOk, ItemsOk, Erased;
    ErasedLists(s, id);
    ErasedCounts(s, id);
    ErasedDeleters(s, id);
  }

  lemma ErasedLists(s: State, id: nat)
    requires ListsOk(s) && RefsOk(s) && id in s.nodes && s.nodes[id].inCache
    requires s.usage == Charges(s.nodes, s.lru) + Charges(s.nodes, s.inUse)
    ensures var t := Erased(s, id); ListsOk(t) && t.usage == Charges(t.nodes, t.lru) + Charges(t.nodes, t.inUse)
  {
    hide Charges, Minus, NoDup;
    var t := Erased(s, id);
    ListMinus(s.nodes, s.lru, id);
    ListMinus(s.nodes, s.inUse, id);
    SameCharges(s.nodes, t.nodes, t.lru);
    SameCharges(s.nodes, t.nodes, t.inUse);
  }

  lemma ErasedCounts(s: State, id: nat)
    requires RefsOk(s) && ItemsOk(s) && id in s.nodes && s.nodes[id].inCache
    ensures RefsOk(Erased(s, id)) && ItemsOk(Erased(s, id))
  {
    hide Minus;
  }

  lemma ErasedDeleters(s: State, id: nat)
    requires RefsOk(s) && DeletersOk(s) && id in s.nodes && forall x :: x in s.nodes ==> x !in s.deleted
    ensures var t := Erased(s, id); DeletersOk(t) && forall x :: x in t.nodes ==> x !in t.deleted
  {
    hide Minus;
  }

  lemma AddedInv(s: State, key: seq<byte>, hash: word, charge: nat)
    requires Inv(s)
    ensures Inv(Added(s, key, hash, charge))
  {
    hide ListsOk, RefsOk, ItemsOk, Added;
    AddedFresh(s, Added(s, key, hash, charge), key, hash, charge);
    AddedLists(s, key, hash, charge);
    AddedCounts(s, key, hash, charge);
  }

  /** Handles are numbered as they are made: the new one is neither live nor deleted. */
  lemma AddedFresh(s: State, t: State, key: seq<byte>, hash: word, charge: nat)
    requires Inv(s) && (t == Added(s, key, hash, charge) || t == AddedOutside(s, key, hash, charge))
    ensures s.next !in s.nodes && DeletersOk(t) && forall x :: x in t.nodes ==> x !in t.deleted
  {
    hide ListsOk, RefsOk, ItemsOk, NoDup;
    assert s.next !in s.nodes && s.next !in s.deleted;
  }

  lemma AddedLists(s: State, key: seq<byte>, hash: word, charge: nat)
    requires ListsOk(s) && s.next !in s.nodes && s.usage == Charges(s.nodes, s.lru) + Charges(s.nodes, s.inUse)
    ensures var t := Added(s, key, hash, charge);
      ListsOk(t) && t.usage == Charges(t.nodes, t.lru) + Charges(t.nodes, t.inUse)
  {
    hide Charges, NoDup;
    var t := Added(s, key, hash, charge);
    SameCharges(s.nodes, t.nodes, s.lru);
    SameCharges(s.nodes, t.nodes, s.inUse);
    ListPlus(t.nodes, s.inUse, s.next);
  }

  lemma AddedCounts(s: State, key: seq<byte>, hash: word, charge: nat)
    requires RefsOk(s) && ItemsOk(s) && s.next !in s.nodes
    ensures RefsOk(Added(s, key, hash, charge)) && ItemsOk(Added(s, key, hash, charge))
  {
    var t := Added(s, key, hash, charge);
    assert ItemOf(t.nodes, s.next) == Item(s.next, hash, key);
    assert forall id :: id in s.nodes ==> ItemOf(t.nodes, id) == ItemOf(s.nodes, id);
  }

  lemma AddedOutsideInv(s: State, key: seq<byte>, hash: word, charge: nat)
    requires Inv(s)
    ensures Inv(AddedOutside(s, key, hash, charge))
  {
    hide ListsOk, RefsOk, ItemsOk, AddedOutside;
    AddedFresh(s, AddedOutside(s, key, hash, charge), key, hash, charge);
    AddedOutsideLists(s, key, hash, charge);
    AddedOutsideCounts(s, key, hash, charge);
  }

  lemma AddedOutsideLists(s: State, key: seq<byte>, hash: word, charge: nat)
    requires ListsOk(s) && s.next !in s.nodes && s.usage == Charges(s.nodes, s.lru) + Charges(s.nodes, s.inUse)
    ensures var t := AddedOutside(s, key, hash, charge);
      ListsOk(t) && t.usage == Charges(t.nodes, t.lru) + Charges(t.nodes, t.inUse)
  {
    hide Charges, NoDup;
    var t := AddedOutside(s, key, hash, charge);
    SameCharges(s.nodes, t.nodes, s.lru);
    SameCharges(s.nodes, t.nodes, s.inUse);
  }

  lemma AddedOutsideCounts(s: State, key: seq<byte>, hash: word, charge: nat)
    requires RefsOk(s) && ItemsOk(s) && s.next !in s.nodes
    ensures RefsOk(AddedOutside(s, key, hash, charge)) && ItemsOk(AddedOutside(s, key, hash, charge))
  {
    var t := AddedOutside(s, key, hash, charge);
    assert forall id :: id in s.nodes ==> ItemOf(t.nodes, id) == ItemOf(s.nodes, id);
  }

  /** Every handle but the ones gone is as it was. */
  ghost predicate Spared(s: State, t: State, gone: seq<nat>) {
    forall id :: id in s.nodes && id in s.clients && id !in gone ==>
      id in t.nodes && t.nodes[id] == s.nodes[id] && id in t.clients && t.clients[id] == s.clients[id]
  }

  lemma SparedSelf(s: State)
    ensures Spared(s, s, [])
  {
  }

  lemma SparedStep(s: State, t: State, u: State, gone: seq<nat>, id: nat)
    requires Spared(s, t, gone) && u.nodes == t.nodes - {id} && u.clients == t.clients - {id}
    ensures Spared(s, u, gone + [id])
  {
  }

  // ----- the cache -----

  class LRUCache {
    const capacity: nat
    const table: HandleTable
    var nodes: Nodes
    var lru: seq<nat>   // oldest first
    var inUse: seq<nat>
    var usage: int
    var next: nat
    var deleted: seq<nat> // whose deleters have run, in order
    ghost var clients: map<nat, nat>

    constructor (capacity: nat)
      ensures Valid() && fresh(table) && this.capacity == capacity && nodes == map[] && usage == 0 && deleted == []
        && next == 0
    {
      this.capacity := capacity;
      table := new HandleTable();
      nodes, lru, inUse, usage, next, deleted, clients := map[], [], [], 0, 0, [], map[];
    }

    ghost function Abs(): State
      reads this, table
    {
      State(nodes, lru, inUse, table.items, usage, clients, deleted, next)
    }

    ghost predicate Valid()
      reads this, table
    {
      table.Valid() && Inv(Abs())
    }

    /** An entry of the cache with this key. */
    ghost predicate Cached(id: nat, key: seq<byte>, hash: word)
      reads this
    {
      id in nodes && nodes[id].inCache && nodes[id].key == key && nodes[id].hash == hash
    }

    method LRURemove(e: nat)
      modifies `lru, `inUse
      ensures lru == Minus(old(lru), e) && inUse == Minus(old(inUse), e)
    {
      lru, inUse := Minus(lru, e), Minus(inUse, e);
    }

    method Ref(e: nat)
      requires e in nodes
      modifies `nodes, `lru, `inUse
      ensures nodes == old(nodes)[e := old(nodes)[e].(refs := old(nodes)[e].refs + 1)]
      ensures if old(nodes)[e].refs == 1 && old(nodes)[e].inCache then lru == Minus(old(lru), e)
        && inUse == Minus(old(inUse), e) + [e]
              else lru == old(lru) && inUse == old(inUse)
    {
      if nodes[e].refs == 1 && nodes[e].inCache {
        LRURemove(e);
        inUse := inUse + [e];
      }
      nodes := nodes[e := nodes[e].(refs := nodes[e].refs + 1)];
    }

    method Unref(e: nat)
      requires e in nodes && nodes[e].refs > 0
      modifies `nodes, `lru, `inUse, `deleted
      ensures if old(nodes)[e].refs == 1 then nodes == old(nodes) - {e} && deleted == old(deleted) + [e]
              else nodes == old(nodes)[e := old(nodes)[e].(refs := old(nodes)[e].refs - 1)] && deleted == old(deleted)
      ensures if old(nodes)[e].inCache && old(nodes)[e].refs == 2 then lru == Minus(old(lru), e) + [e]
        && inUse == Minus(old(inUse), e)
              else lru == old(lru) && inUse == old(inUse)
    {
      nodes := nodes[e := nodes[e].(refs := nodes[e].refs - 1)];
      if nodes[e].refs == 0 {
        deleted := deleted + [e];
        nodes := nodes - {e};
      } else if nodes[e].inCache && nodes[e].refs == 1 {
        LRURemove(e);
        lru := lru + [e];
      }
    }

    /** Takes e out of the cache; it has already left the hash table. */
    method FinishErase(e: nat)
      requires e in nodes && nodes[e].refs > 0 && e in clients
      modifies `nodes, `lru, `inUse, `deleted, `usage, `clients
      ensures Abs() == Erased(old(Abs()), e).(items := table.items)
    {
      LRURemove(e);
      nodes := nodes[e := nodes[e].(inCache := false)];
      usage := usage - nodes[e].charge;
      if nodes[e].refs == 1 { clients := clients - {e}; }
      Unref(e);
      assert nodes == Erased(old(Abs()), e).nodes;
    }

    /** A handle of the cached entry with this key, if there is one. */
    method Lookup(key: seq<byte>, hash: word) returns (r: Option<nat>)
      requires Valid()
      modifies `nodes, `lru, `inUse, `clients
      ensures Valid()
      ensures r.Some? ==>
        old(Cached(r.value, key, hash)) && r.value in old(clients) && Abs() == Referenced(old(Abs()), r.value)
      ensures r.None? ==> Abs() == old(Abs()) && forall id :: !Cached(id, key, hash)
    {
      hide Inv, HandleTable.Valid, ListsOk, ItemsOk, Minus, Item.Matches;
      ghost var s := Abs();
      var item := table.Lookup(key, hash);
      if item.Some? {
        var e := item.value.id;
        FoundItem(s, item.value, key, hash);
        Ref(e);
        clients := clients[e := clients[e] + 1];
        ReferencedInv(s, e);
        r := Some(e);
      } else {
        NoneCached(s, key, hash);
        r := None;
      }
    }

    method Release(e: nat)
      requires Valid() && e in clients && clients[e] > 0
      modifies `nodes, `lru, `inUse, `deleted, `clients
      ensures Valid() && e in old(nodes) && old(nodes)[e].refs > 0 && Abs() == Released(old(Abs()), e)
    {
      hide Inv, HandleTable.Valid;
      ghost var s := Abs();
      InvParts(s);
      if nodes[e].refs == 1 { clients := clients - {e}; } else { clients := clients[e := clients[e] - 1]; }
      Unref(e);
      ReleasedInv(s, e);
    }

    method Erase(key: seq<byte>, hash: word)
      requires Valid()
      modifies this, table
      ensures Valid() && forall id :: !Cached(id, key, hash)
      ensures forall id :: id in old(nodes) && !old(Cached(id, key, hash)) ==>
        id in nodes && nodes[id] == old(nodes)[id]
      ensures deleted == old(deleted)
        || exists id :: old(Cached(id, key, hash)) && old(nodes)[id].refs == 1 && deleted == old(deleted) + [id]
    {
      hide Inv, HandleTable.Valid;
      ghost var s := Abs();
      InvParts(s);
      var item := table.Remove(key, hash);
      if item.Some? {
        FinishErase(item.value.id);
        ErasedInv(s, item.value.id);
        assert Abs() == Erased(s, item.value.id);
      }
      InvParts(Abs());
      ItemsTell(Abs(), key, hash);
    }

    /** A new entry in the place of one with the same key; then the oldest unreferenced entries go while the charge is
        over the capacity. */
    method Insert(key: seq<byte>, hash: word, charge: nat) returns (e: nat)
      requires Valid()
      modifies this, table
      ensures Valid() && (usage <= capacity || lru == [])
      ensures e == old(next) && next == e + 1 && e in clients && clients[e] == 1
      ensures e in nodes && nodes[e].key == key && nodes[e].hash == hash && nodes[e].charge == charge
      ensures nodes[e].inCache <==> capacity > 0
      ensures capacity > 0 ==> forall id :: Cached(id, key, hash) <==> id == e
    {
      hide Inv, HandleTable.Valid;
      e := next;
      ghost var s := Abs();
      InvParts(s);
      FreshId(s);
      next := next + 1;
      if capacity > 0 {
        nodes := nodes[e := Node(key, hash, charge, 2, true)];
        clients := clients[e := 1];
        inUse := inUse + [e];
        usage := usage + charge;
        AddedInv(s, key, hash, charge);
        InsertItem(e);
      } else {
        nodes := nodes[e := Node(key, hash, charge, 1, false)];
        clients := clients[e := 1];
        AddedOutsideInv(s, key, hash, charge);
      }
      NotListed(Abs(), e);
      var evicted := Evict();
      if capacity > 0 { OnlyEntry(e); }
    }

    /** Hands e to the hash table; the entry it replaces leaves the cache. */
    method InsertItem(e: nat)
      requires table.Valid() && e in nodes && ItemOf(nodes, e) !in table.items
      requires Inv(Abs().(items := table.items + {ItemOf(nodes, e)})) && nodes[e].inCache && e in clients
      modifies `nodes, `lru, `inUse, `deleted, `usage, `clients, table
      ensures Valid() && e in nodes && nodes[e] == old(nodes)[e] && e in clients && clients[e] == old(clients)[e]
    {
      hide Inv, HandleTable.Valid;
      ghost var s := Abs().(items := table.items + {ItemOf(nodes, e)});
      InvParts(s);
      var replaced := table.Insert(ItemOf(nodes, e));
      if replaced.Some? {
        var x := replaced.value;
        assert x in s.items && x != ItemOf(nodes, e) && x == ItemOf(nodes, x.id);
        FinishErase(x.id);
        ErasedInv(s, x.id);
        assert Abs() == Erased(s, x.id);
      } else {
        assert Abs() == s;
      }
    }

    /** The oldest unreferenced entry leaves the cache, and its deleter runs. */
    method EvictOldest()
      requires Valid() && lru != []
      modifies `nodes, `lru, `inUse, `deleted, `usage, `clients, table
      ensures Valid() && lru == old(lru)[1..] && inUse == old(inUse) && deleted == old(deleted) + [old(lru)[0]]
      ensures nodes == old(nodes) - {old(lru)[0]} && clients == old(clients) - {old(lru)[0]}
    {
      hide Inv, HandleTable.Valid;
      ghost var s := Abs();
      InvParts(s);
      var e := lru[0];
      assert e in lru && e !in inUse;
      assert ItemOf(nodes, e) in table.items && ItemOf(nodes, e).Matches(nodes[e].key, nodes[e].hash);
      var item := table.Remove(nodes[e].key, nodes[e].hash);
      assert item.value == ItemOf(nodes, e);
      FinishErase(item.value.id);
      ErasedInv(s, e);
      assert Abs() == Erased(s, e);
      MinusFirst(s.lru);
      MinusNone(s.inUse, e);
    }

    /** While the charge is over the capacity, the oldest unreferenced entry goes. */
    method Evict() returns (k: nat)
      requires Valid()
      modifies `nodes, `lru, `inUse, `deleted, `usage, `clients, table
      ensures Valid() && (usage <= capacity || lru == [])
      ensures k <= |old(lru)| && lru == old(lru)[k..] && deleted == old(deleted) + old(lru)[..k] && inUse == old(inUse)
      ensures Spared(old(Abs()), Abs(), old(lru)[..k])
    {
      hide Inv, HandleTable.Valid, Spared;
      ghost var s := Abs();
      SparedSelf(s);
      k := 0;
      while usage > capacity && lru != []
        invariant Valid() && k <= |old(lru)| && lru == old(lru)[k..] && deleted == old(deleted) + old(lru)[..k]
          && inUse == old(inUse)
        invariant Spared(s, Abs(), old(lru)[..k])
        decreases |lru|
      {
        assert old(lru)[..k + 1] == old(lru)[..k] + [lru[0]];
        ghost var t := Abs();
        EvictOldest();
        SparedStep(s, t, Abs(), old(lru)[..k], t.lru[0]);
        k := k + 1;
      }
    }

    /** Drops every unreferenced entry. */
    method Prune()
      requires Valid()
      modifies `nodes, `lru, `inUse, `deleted, `usage, `clients, table
      ensures Valid() && lru == [] && inUse == old(inUse) && deleted == old(deleted) + old(lru)
    {
      hide Inv, HandleTable.Valid;
      ghost var k := 0;
      while lru != []
        invariant Valid() && k <= |old(lru)| && lru == old(lru)[k..] && deleted == old(deleted) + old(lru)[..k]
          && inUse == old(inUse)
        decreases |lru|
      {
        assert old(lru)[..k + 1] == old(lru)[..k] + [lru[0]];
        EvictOldest();
        k := k + 1;
      }
      assert old(lru)[..k] == old(lru);
    }

    lemma OnlyEntry(e: nat)
      requires Valid() && e in nodes && nodes[e].inCache
      ensures forall id :: Cached(id, nodes[e].key, nodes[e].hash) <==> id == e
    {
      forall id | Cached(id, nodes[e].key, nodes[e].hash) ensures id == e {
        OneItemAKey(table.buckets, table.items, ItemOf(nodes, e), ItemOf(nodes, id));
      }
    }
  }

  lemma FreshId(s: State)
    requires Inv(s)
    ensures s.next !in s.nodes && s.next !in s.clients && forall x :: x in s.items ==> x.id != s.next
  {
  }

  /** An entry a client holds is not on the LRU list. */
  lemma NotListed(s: State, id: nat)
    requires Inv(s) && id in s.nodes && id in s.clients && s.clients[id] > 0
    ensures id !in s.lru
  {
  }

  lemma InvParts(s: State)
    requires Inv(s)
    ensures ItemsOk(s) && ListsOk(s) && s.clients.Keys == s.nodes.Keys
    ensures forall id :: id in s.nodes ==>
      s.nodes[id].refs > 0 && s.nodes[id].refs == s.clients[id] + if s.nodes[id].inCache then 1 else 0
  {
  }

  /** What the hash table finds is a live entry of the cache with that key; it is on the LRU list only if no client
      holds it. */
  lemma FoundItem(s: State, x: Item, key: seq<byte>, hash: word)
    requires Inv(s) && x in s.items && x.Matches(key, hash)
    ensures x.id in s.nodes && x.id in s.clients && s.nodes[x.id].inCache && s.nodes[x.id].key == key
      && s.nodes[x.id].hash == hash
    ensures s.nodes[x.id].refs != 1 ==> Minus(s.lru, x.id) == s.lru
  {
    MinusAbsent(s.lru, x.id);
  }

  lemma NoneCached(s: State, key: seq<byte>, hash: word)
    requires Inv(s) && forall x :: x in s.items ==> !x.Matches(key, hash)
    ensures forall id :: id in s.nodes && s.nodes[id].inCache ==> !(s.nodes[id].key == key && s.nodes[id].hash == hash)
  {
    ItemsTell(s, key, hash);
  }

  lemma ItemsTell(s: State, key: seq<byte>, hash: word)
    requires ItemsOk(s) && forall x :: x in s.items ==> !x.Matches(key, hash)
    ensures forall id :: id in s.nodes && s.nodes[id].inCache ==> !(s.nodes[id].key == key && s.nodes[id].hash == hash)
  {
    forall id | id in s.nodes && s.nodes[id].inCache ensures !(s.nodes[id].key == key && s.nodes[id].hash == hash) {
      assert !ItemOf(s.nodes, id).Matches(key, hash);
    }
  }
}
