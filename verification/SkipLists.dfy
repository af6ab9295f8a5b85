/** SkipList: the searches, Insert as a loop of pointer stores, and the iterator moves. */
module SkipLists {
  import opened Wrappers
  import opened SkipShared

  /** The nodes of a level that come after n. */
  ghost function After(s: Shared, i: nat, n: nat): set<nat>
    requires Sized(s) && i < MAX_HEIGHT && n < |s.keys|
  {
    set m | m in s.linked[i] && Before(s, n, s.keys[m])
  }

  ghost function KeySet(s: Shared): set<Key>
    requires Sized(s)
  {
    set m | m in s.linked[0] :: s.keys[m]
  }

  /** Following a pointer leaves fewer nodes ahead. */
  lemma FewerAfter(s: Shared, i: nat, n: nat)
    requires Inv(s) && i < MAX_HEIGHT && OnLevel(s, i, n) && n < |s.keys| && s.next[i][n].Some?
    ensures var y := s.next[i][n].value; OnLevel(s, i, y) && 0 < y < |s.keys| && After(s, i, y) < After(s, i, n)
  {
    assert IsNext(s, i, n, s.next[i][n]);
    var y := s.next[i][n].value;
    assert y in After(s, i, n) && y !in After(s, i, y);
  }

  /** The first node at or after key, if there is one. */
  ghost predicate IsFirstFrom(s: Shared, key: Key, x: Option<nat>)
    requires Sized(s)
  {
    match x
    case None => forall m :: m in s.linked[0] ==> s.keys[m] < key
    case Some(y) =>
      y in s.linked[0] && key <= s.keys[y]
        && forall m :: m in s.linked[0] && key <= s.keys[m] ==> s.keys[y] <= s.keys[m]
  }

  class SkipList {
    var keys: seq<Key>
    var next: seq<seq<Option<nat>>>
    var maxHeight: nat
    ghost var linked: seq<set<nat>>

    ghost function Abs(): Shared
      reads this
    {
      Shared(keys, next, maxHeight, linked)
    }

    ghost predicate Valid()
      reads this
    {
      Inv(Abs())
    }

    constructor ()
      ensures Valid() && KeySet(Abs()) == {} && Abs() == Empty().shared
    {
      keys, next, maxHeight, linked := [0.0], seq(MAX_HEIGHT, _ => [None]), 1, seq(MAX_HEIGHT, _ => {});
    }

    /** The earliest node at or after key, and for each level in use the node key would follow. */
    method FindGreaterOrEqual(key: Key) returns (node: Option<nat>, prev: seq<nat>)
      requires Valid()
      ensures IsFirstFrom(Abs(), key, node)
      ensures |prev| == MAX_HEIGHT && forall i :: 0 <= i < maxHeight ==> IsPrev(Abs(), i, prev[i], key)
    {
      ghost var s := Abs();
      prev := seq(MAX_HEIGHT, _ => 0);
      var x: nat, level: nat := 0, maxHeight - 1;
      while true
        invariant level < maxHeight && OnLevel(s, level, x) && x < |keys| && Before(s, x, key) && |prev| == MAX_HEIGHT
        invariant forall i :: level < i < maxHeight ==> IsPrev(s, i, prev[i], key)
        decreases level, After(s, level, x)
      {
        var following := next[level][x];
        assert IsNext(s, level, x, following);
        if following.Some? && keys[following.value] < key {
          FewerAfter(s, level, x);
          x := following.value;
        } else {
          prev := prev[level := x];
          if level == 0 {
            return following, prev;
          }
          level := level - 1;
        }
      }
    }

    /** The latest node before key; the head if there is none. */
    method FindLessThan(key: Key) returns (x: nat)
      requires Valid()
      ensures OnLevel(Abs(), 0, x) && x < |keys| && Before(Abs(), x, key)
      ensures forall m :: m in linked[0] && keys[m] < key ==> !Before(Abs(), x, keys[m])
    {
      ghost var s := Abs();
      x := 0;
      var level: nat := maxHeight - 1;
      while true
        invariant level < maxHeight && OnLevel(s, level, x) && x < |keys| && Before(s, x, key)
        decreases level, After(s, level, x)
      {
        var following := next[level][x];
        assert IsNext(s, level, x, following);
        if following.None? || keys[following.value] >= key {
          if level == 0 {
            return x;
          }
          level := level - 1;
        } else {
          FewerAfter(s, level, x);
          x := following.value;
        }
      }
    }

    /** The last node; the head if the list is empty. */
    method FindLast() returns (x: nat)
      requires Valid()
      ensures OnLevel(Abs(), 0, x) && x < |keys| && forall m :: m in linked[0] ==> !Before(Abs(), x, keys[m])
    {
      ghost var s := Abs();
      x := 0;
      var level: nat := maxHeight - 1;
      while true
        invariant level < maxHeight && OnLevel(s, level, x) && x < |keys|
        decreases level, After(s, level, x)
      {
        var following := next[level][x];
        assert IsNext(s, level, x, following);
        if following.None? {
          if level == 0 {
            return x;
          }
          level := level - 1;
        } else {
          FewerAfter(s, level, x);
          x := following.value;
        }
      }
    }

    method Contains(key: Key) returns (found: bool)
      requires Valid()
      ensures found <==> key in KeySet(Abs())
    {
      var x, _ := FindGreaterOrEqual(key);
      found := x.Some? && keys[x.value] == key;
    }

    /** Insert: the new node is linked from the bottom level up, by the steps of a Writer. */
    method Insert(key: Key, height: nat)
      requires Valid() && key !in KeySet(Abs()) && 1 <= height <= MAX_HEIGHT
      modifies this
      ensures Valid() && KeySet(Abs()) == old(KeySet(Abs())) + {key}
    {
      hide Inv, IsPrev, IsNext;
      var x, prev := Begin(key, height);
      ghost var start := Abs();
      var i := 0;
      while i < height
        invariant i <= height && Valid() && keys == start.keys && Sized(Abs())
        invariant linked[0] == if i == 0 then start.linked[0] else start.linked[0] + {x}
        invariant i < height ==> WriterInv(Abs(), Inserting(x, height, prev, i, false))
      {
        LinkLevel(x, height, prev, i);
        i := i + 1;
      }
      Grown(start, Abs(), x);
    }

    /** The search, the new height and the new node. */
    method Begin(key: Key, height: nat) returns (x: nat, prev: seq<nat>)
      requires Valid() && key !in KeySet(Abs()) && 1 <= height <= MAX_HEIGHT
      modifies this
      ensures Valid() && x == |old(keys)| && keys == old(keys) + [key] && linked == old(linked) && Sized(Abs())
      ensures KeySet(Abs()) == old(KeySet(Abs())) && Sized(Abs())
      ensures WriterInv(Abs(), Inserting(x, height, prev, 0, false))
    {
      ghost var before := Abs();
      ghost var sys := System(before, Idle, []);
      var following;
      following, prev := FindGreaterOrEqual(key);
      var i := maxHeight;
      while i < height
        invariant maxHeight <= i && |prev| == MAX_HEIGHT
        invariant forall k :: 0 <= k < i && k < MAX_HEIGHT ==> IsPrev(before, k, prev[k], key)
      {
        prev := prev[i := 0];
        i := i + 1;
      }
      BeginInv(sys, key, height, prev);
      if height > maxHeight {
        maxHeight := height;
      }
      x := |keys|;
      keys := keys + [key];
      var links := next;
      next := seq(|links|, i requires 0 <= i < |links| => links[i] + [None]);
      assert Abs() == Apply(sys, SkipShared.Begin(key, height, prev)).shared;
      SameKeys(before, Abs());
    }

    /** The two stores of one level: the node's own pointer, then the one that publishes it. */
    method LinkLevel(x: nat, height: nat, prev: seq<nat>, i: nat)
      requires Valid() && i < height && WriterInv(Abs(), Inserting(x, height, prev, i, false))
      modifies `next, `linked
      ensures Valid() && Sized(Abs()) && linked == old(linked)[i := old(linked)[i] + {x}]
      ensures i + 1 < height ==> WriterInv(Abs(), Inserting(x, height, prev, i + 1, false))
    {
      ghost var sys := System(Abs(), Inserting(x, height, prev, i, false), []);
      assert IsPrev(Abs(), i, prev[i], keys[x]);
      StepInv(sys, SetOwn);
      next := next[i := next[i][x := next[i][prev[i]]]];
      ghost var own := Apply(sys, SetOwn);
      assert Abs() == own.shared;
      StepInv(own, Link);
      next := next[i := next[i][prev[i] := Some(x)]];
      linked := linked[i := linked[i] + {x}];
      assert Abs() == Apply(own, Link).shared;
    }

    // ----- the iterator: a node, or none -----

    /** First entry at or after target. */
    method Seek(target: Key) returns (node: Option<nat>)
      requires Valid()
      ensures IsFirstFrom(Abs(), target, node)
    {
      var prev;
      node, prev := FindGreaterOrEqual(target);
    }

    method SeekToFirst() returns (node: Option<nat>)
      requires Valid()
      ensures match node
              case None => linked[0] == {}
              case Some(y) => y in linked[0] && forall m :: m in linked[0] ==> keys[y] <= keys[m]
    {
      node := next[0][0];
      assert IsNext(Abs(), 0, 0, node);
    }

    method SeekToLast() returns (node: Option<nat>)
      requires Valid()
      ensures match node
              case None => linked[0] == {}
              case Some(y) => y in linked[0] && forall m :: m in linked[0] ==> keys[m] <= keys[y]
    {
      var x := FindLast();
      node := if x == 0 then None else Some(x);
    }

    /** The entry after this one. */
    method Next(x: nat) returns (node: Option<nat>)
      requires Valid() && x in linked[0]
      ensures match node
              case None => forall m :: m in linked[0] ==> keys[m] <= keys[x]
              case Some(y) =>
                y in linked[0] && keys[x] < keys[y]
                  && forall m :: m in linked[0] && keys[x] < keys[m] ==> keys[y] <= keys[m]
    {
      node := next[0][x];
      assert OnLevel(Abs(), 0, x) && IsNext(Abs(), 0, x, node);
    }

    /** The entry before this one, by a search. */
    method Prev(x: nat) returns (node: Option<nat>)
      requires Valid() && x in linked[0]
      ensures match node
              case None => forall m :: m in linked[0] ==> keys[x] <= keys[m]
              case Some(y) =>
                y in linked[0] && keys[y] < keys[x]
                  && forall m :: m in linked[0] && keys[m] < keys[x] ==> keys[m] <= keys[y]
    {
      var y := FindLessThan(keys[x]);
      node := if y == 0 then None else Some(y);
    }
  }

  lemma SameKeys(s: Shared, t: Shared)
    requires Sized(s) && Sized(t) && t.linked == s.linked && s.keys <= t.keys
    ensures KeySet(t) == KeySet(s)
  {
    assert forall m :: m in s.linked[0] ==> t.keys[m] == s.keys[m];
  }

  lemma Grown(s: Shared, t: Shared, x: nat)
    requires Sized(s) && Sized(t) && t.keys == s.keys && t.linked[0] == s.linked[0] + {x}
    ensures KeySet(t) == KeySet(s) + {s.keys[x]}
  {
  }
}
