/** The shared part of a skip list, one pointer store at a time, and readers that search while a writer stores.

    Nodes are numbered in allocation order; node 0 is the head, before every key. `linked` records which nodes a
    store has published at each level. */
module SkipShared {
  import opened Wrappers

  type Key = real

  const MAX_HEIGHT: nat := 12

  datatype Shared = Shared(keys: seq<Key>, next: seq<seq<Option<nat>>>, maxHeight: nat, linked: seq<set<nat>>)

  /** Node n is before key k; the head is before every key. */
  predicate Before(s: Shared, n: nat, k: Key)
    requires n < |s.keys|
  {
    n == 0 || s.keys[n] < k
  }

  ghost predicate Sized(s: Shared) {
    && |s.keys| >= 1 && |s.next| == |s.linked| == MAX_HEIGHT
    && (forall i :: 0 <= i < MAX_HEIGHT ==> |s.next[i]| == |s.keys|)
    && (forall i, n :: 0 <= i < MAX_HEIGHT && n in s.linked[i] ==> 0 < n < |s.keys|)
  }

  /** x is the first node linked at level i after node n, or none is. */
  ghost predicate IsNext(s: Shared, i: nat, n: nat, x: Option<nat>)
    requires Sized(s) && i < MAX_HEIGHT && n < |s.keys|
  {
    match x
    case None => forall m :: m in s.linked[i] ==> !Before(s, n, s.keys[m])
    case Some(y) => y in s.linked[i] && Before(s, n, s.keys[y])
                    && forall m :: m in s.linked[i] && Before(s, n, s.keys[m]) ==> s.keys[y] <= s.keys[m]
  }

  /** A node whose pointer at level i readers may follow. */
  predicate OnLevel(s: Shared, i: nat, n: nat)
    requires i < |s.linked|
  {
    n == 0 || n in s.linked[i]
  }

  /** Every level is a sorted list of its linked nodes, and a sublist of the level below. */
  ghost predicate Inv(s: Shared) {
    && Sized(s) && 1 <= s.maxHeight <= MAX_HEIGHT
    && (forall a, b :: a in s.linked[0] && b in s.linked[0] && s.keys[a] == s.keys[b] ==> a == b)
    && (forall i, k, n :: 0 <= i <= k < MAX_HEIGHT && n in s.linked[k] ==> n in s.linked[i])
    && (forall i, n: nat :: 0 <= i < MAX_HEIGHT && OnLevel(s, i, n) ==> IsNext(s, i, n, s.next[i][n]))
    && (forall i :: s.maxHeight <= i < MAX_HEIGHT ==> s.linked[i] == {})
  }

  // ----- the stores of Insert -----

  /** A new node: its pointers are not yet meaningful, and no one can reach it. */
  function NewNode(s: Shared, key: Key): Shared {
    s.(keys := s.keys + [key],
       next := seq(|s.next|, i requires 0 <= i < |s.next| => s.next[i] + [None]))
  }

  function Raise(s: Shared, height: nat): Shared { s.(maxHeight := height) }

  /** next[i][n] := x */
  function Store(s: Shared, i: nat, n: nat, x: Option<nat>): Shared
    requires i < |s.next| && n < |s.next[i]|
  {
    s.(next := s.next[i := s.next[i][n := x]])
  }

  /** p is where x belongs at level i. */
  ghost predicate IsPrev(s: Shared, i: nat, p: nat, key: Key)
    requires Sized(s) && i < MAX_HEIGHT
  {
    && OnLevel(s, i, p) && p < |s.keys| && Before(s, p, key)
    && forall m :: m in s.linked[i] && s.keys[m] < key ==> !Before(s, p, s.keys[m])
  }

  lemma NewNodeInv(s: Shared, key: Key)
    requires Inv(s)
    ensures Inv(NewNode(s, key))
  {
    var t := NewNode(s, key);
    forall i, n: nat | 0 <= i < MAX_HEIGHT && OnLevel(t, i, n) ensures IsNext(t, i, n, t.next[i][n]) {
      assert IsNext(s, i, n, s.next[i][n]);
      assert t.next[i][n] == s.next[i][n];
    }
  }

  lemma RaiseInv(s: Shared, height: nat)
    requires Inv(s) && s.maxHeight <= height <= MAX_HEIGHT
    ensures Inv(Raise(s, height))
  {
    var t := Raise(s, height);
    forall i, n: nat | 0 <= i < MAX_HEIGHT && OnLevel(t, i, n) ensures IsNext(t, i, n, t.next[i][n]) {
      assert IsNext(s, i, n, s.next[i][n]);
    }
  }

  /** Storing into a node that is not linked at the level changes nothing a reader can see. */
  lemma OwnInv(s: Shared, i: nat, n: nat, x: Option<nat>)
    requires Inv(s) && i < MAX_HEIGHT && n < |s.keys| && !OnLevel(s, i, n)
    ensures Inv(Store(s, i, n, x))
  {
    var t := Store(s, i, n, x);
    forall k, m: nat | 0 <= k < MAX_HEIGHT && OnLevel(t, k, m) ensures IsNext(t, k, m, t.next[k][m]) {
      assert IsNext(s, k, m, s.next[k][m]);
    }
  }

  /** The store that publishes x at level i. */
  function Publish(s: Shared, i: nat, p: nat, x: nat): Shared
    requires i < |s.next| && i < |s.linked| && p < |s.next[i]|
  {
    Store(s, i, p, Some(x)).(linked := s.linked[i := s.linked[i] + {x}])
  }

  /** x may be published at level i after p: linked below, not yet here, its own pointer set. */
  ghost predicate CanPublish(s: Shared, i: nat, p: nat, x: nat)
    requires Sized(s) && i < MAX_HEIGHT
  {
    && i < s.maxHeight && 0 < x < |s.keys| && x !in s.linked[i] && IsPrev(s, i, p, s.keys[x])
    && (if i == 0 then forall m :: m in s.linked[0] ==> s.keys[m] != s.keys[x] else x in s.linked[i - 1])
    && s.next[i][x] == s.next[i][p]
    && (i < MAX_HEIGHT - 1 ==> x !in s.linked[i + 1])
  }

  lemma PublishInv(s: Shared, i: nat, p: nat, x: nat)
    requires Inv(s) && i < MAX_HEIGHT && CanPublish(s, i, p, x)
    ensures Inv(Publish(s, i, p, x))
  {
    hide IsNext, CanPublish;
    PublishLinks(s, i, p, x);
    PublishPointers(s, i, p, x);
  }

  lemma PublishLinks(s: Shared, i: nat, p: nat, x: nat)
    requires Inv(s) && i < MAX_HEIGHT && CanPublish(s, i, p, x)
    ensures var t := Publish(s, i, p, x);
            && Sized(t) && t.maxHeight == s.maxHeight
            && (forall a, b :: a in t.linked[0] && b in t.linked[0] && t.keys[a] == t.keys[b] ==> a == b)
            && (forall j, k, n :: 0 <= j <= k < MAX_HEIGHT && n in t.linked[k] ==> n in t.linked[j])
            && (forall k :: t.maxHeight <= k < MAX_HEIGHT ==> t.linked[k] == {})
  {
    hide IsNext;
  }

  lemma PublishPointers(s: Shared, i: nat, p: nat, x: nat)
    requires Inv(s) && i < MAX_HEIGHT && CanPublish(s, i, p, x) && Sized(Publish(s, i, p, x))
    ensures var t := Publish(s, i, p, x);
            forall k, n: nat :: 0 <= k < MAX_HEIGHT && OnLevel(t, k, n) ==> IsNext(t, k, n, t.next[k][n])
  {
    var t := Publish(s, i, p, x);
    OtherKey(s, i, x);
    forall a, b | a in s.linked[i] && b in s.linked[i] && s.keys[a] == s.keys[b] ensures a == b {
      assert a in s.linked[0] && b in s.linked[0];
    }
    forall k, n: nat | 0 <= k < MAX_HEIGHT && OnLevel(t, k, n) ensures IsNext(t, k, n, t.next[k][n]) {
      if k == i {
        PublishedNext(s, t, i, p, x, n);
      } else {
        assert IsNext(s, k, n, s.next[k][n]);
      }
    }
  }

  /** The pointers of level i around the published node. */
  lemma PublishedNext(s: Shared, t: Shared, i: nat, p: nat, x: nat, n: nat)
    requires Sized(s) && Sized(t) && i < MAX_HEIGHT && t.keys == s.keys && t.linked[i] == s.linked[i] + {x}
      && x < |s.keys|
    requires IsPrev(s, i, p, s.keys[x]) && IsNext(s, i, p, s.next[i][p]) && 0 < x
    requires forall m :: m in s.linked[i] ==> s.keys[m] != s.keys[x]
    requires t.next[i] == s.next[i][p := Some(x)] && s.next[i][x] == s.next[i][p] && x !in s.linked[i]
    requires forall a, b :: a in s.linked[i] && b in s.linked[i] && s.keys[a] == s.keys[b] ==> a == b
    requires OnLevel(t, i, n) && n < |s.keys| && (n != x ==> IsNext(s, i, n, s.next[i][n]))
    ensures IsNext(t, i, n, t.next[i][n])
  {
    if n != x && n != p {
      OtherNext(s, t, i, p, x, n);
    }
  }

  lemma OtherNext(s: Shared, t: Shared, i: nat, p: nat, x: nat, n: nat)
    requires Sized(s) && Sized(t) && i < MAX_HEIGHT && t.keys == s.keys && t.linked[i] == s.linked[i] + {x}
      && x < |s.keys|
    requires IsPrev(s, i, p, s.keys[x]) && 0 < x
    requires n < |s.keys| && n != p && OnLevel(s, i, n) && IsNext(s, i, n, s.next[i][n])
    requires forall a, b :: a in s.linked[i] && b in s.linked[i] && s.keys[a] == s.keys[b] ==> a == b
    ensures IsNext(t, i, n, s.next[i][n])
  {
    if Before(s, n, s.keys[x]) {
      assert p in s.linked[i] && Before(s, n, s.keys[p]); // p lies between n and x
    }
  }

  /** No node linked at level i has the key of x. */
  lemma OtherKey(s: Shared, i: nat, x: nat)
    requires Inv(s) && i < MAX_HEIGHT && 0 < x < |s.keys| && x !in s.linked[i]
    requires if i == 0 then forall m :: m in s.linked[0] ==> s.keys[m] != s.keys[x] else x in s.linked[i - 1]
    ensures forall m :: m in s.linked[i] ==> s.keys[m] != s.keys[x]
  {
    if i > 0 {
      assert x in s.linked[0];
      forall m | m in s.linked[i] ensures s.keys[m] != s.keys[x] { assert m in s.linked[0]; }
    }
  }

  // ----- concurrent runs -----

  /** Insert in progress: `level` levels are linked; `own` says the next one's own pointer is set. */
  datatype Writer = Idle | Inserting(x: nat, height: nat, prev: seq<nat>, level: nat, own: bool)

  /** A search in progress, or its answer. */
  datatype Reader = Searching(target: Key, x: nat, level: nat) | Done(target: Key, found: Option<nat>)

  datatype System = System(shared: Shared, writer: Writer, readers: seq<Reader>)

  datatype Step =
    | Begin(key: Key, height: nat, prev: seq<nat>) // search, raise max_height_, allocate
    | SetOwn
    | Link
    | Search(target: Key, height: nat)             // a new reader reads max_height_, perhaps a stale value
    | Load(reader: nat)                            // one turn of the loop of FindGreaterOrEqual

  ghost predicate CanBegin(sys: System, key: Key, height: nat, prev: seq<nat>) {
    && sys.writer.Idle? && 1 <= height <= MAX_HEIGHT && |prev| == MAX_HEIGHT && Sized(sys.shared)
    && (forall m :: m in sys.shared.linked[0] ==> sys.shared.keys[m] != key)
    && forall i :: 0 <= i < height ==> IsPrev(sys.shared, i, prev[i], key)
  }

  ghost predicate Enabled(sys: System, step: Step) {
    match step
    case Begin(key, height, prev) => CanBegin(sys, key, height, prev)
    case SetOwn => sys.writer.Inserting? && !sys.writer.own && Indexed(sys.shared, sys.writer)
    case Link => sys.writer.Inserting? && sys.writer.own && Indexed(sys.shared, sys.writer)
    case Search(target, height) => 1 <= height <= MAX_HEIGHT
    case Load(r) => r < |sys.readers| && sys.readers[r].Searching? && Loadable(sys.shared, sys.readers[r])
  }

  /** The nodes the writer is about to touch exist. */
  predicate Indexed(s: Shared, w: Writer)
    requires w.Inserting?
  {
    w.level < |s.next| && w.level < |s.linked| && w.level < |w.prev| && w.x < |s.next[w.level]|
      && w.prev[w.level] < |s.next[w.level]|
  }

  /** The pointer the reader is about to follow leads to a node. */
  predicate Loadable(s: Shared, r: Reader)
    requires r.Searching?
  {
    && r.level < |s.next| && r.x < |s.next[r.level]|
    && (s.next[r.level][r.x].Some? ==> s.next[r.level][r.x].value < |s.keys|)
  }

  function Loaded(s: Shared, r: Reader): Reader
    requires r.Searching? && Loadable(s, r)
  {
    var next := s.next[r.level][r.x];
    if next.Some? && s.keys[next.value] < r.target then r.(x := next.value) // KeyIsAfterNode
    else if r.level == 0 then Done(r.target, next)
    else r.(level := r.level - 1)
  }

  /** What holds at every step. */
  ghost predicate SystemInv(sys: System) {
    && Inv(sys.shared)
    && (forall r :: 0 <= r < |sys.readers| ==> ReaderInv(sys.shared, sys.readers[r]))
    && WriterInv(sys.shared, sys.writer)
  }

  ghost predicate ReaderInv(s: Shared, r: Reader)
    requires Inv(s)
  {
    r.Searching? ==> r.level < MAX_HEIGHT && OnLevel(s, r.level, r.x) && r.x < |s.keys| && Before(s, r.x, r.target)
  }

  ghost predicate WriterInv(s: Shared, w: Writer)
    requires Inv(s)
  {
    w.Inserting? ==>
      && w.level < w.height <= s.maxHeight && |w.prev| == MAX_HEIGHT && 0 < w.x < |s.keys|
      && (forall i :: 0 <= i < w.level ==> w.x in s.linked[i])
      && (forall i :: w.level <= i < MAX_HEIGHT ==> w.x !in s.linked[i])
      && (forall i :: w.level <= i < w.height ==> IsPrev(s, i, w.prev[i], s.keys[w.x]))
      && (w.level == 0 ==> forall m :: m in s.linked[0] ==> s.keys[m] != s.keys[w.x])
      && (w.own ==> s.next[w.level][w.x] == s.next[w.level][w.prev[w.level]])
  }

  ghost function Apply(sys: System, step: Step): System
    requires Enabled(sys, step)
  {
    var s, w := sys.shared, sys.writer;
    match step
    case Begin(key, height, prev) =>
      var raised := if height > s.maxHeight then Raise(s, height) else s;
      System(NewNode(raised, key), Inserting(|s.keys|, height, prev, 0, false), sys.readers)
    case SetOwn =>
      sys.(shared := Store(s, w.level, w.x, s.next[w.level][w.prev[w.level]]), writer := w.(own := true))
    case Link =>
      sys.(shared := Publish(s, w.level, w.prev[w.level], w.x),
           writer := if w.level + 1 == w.height then Idle else w.(level := w.level + 1, own := false))
    case Search(target, height) => sys.(readers := sys.readers + [Searching(target, 0, height - 1)])
    case Load(r) => sys.(readers := sys.readers[r := Loaded(s, sys.readers[r])])
  }

  lemma LoadIsSafe(s: Shared, r: Reader)
    requires Inv(s) && ReaderInv(s, r) && r.Searching?
    ensures Loadable(s, r)
    ensures s.next[r.level][r.x].Some? ==> s.next[r.level][r.x].value in s.linked[r.level]
  {
    assert IsNext(s, r.level, r.x, s.next[r.level][r.x]);
  }

  /** No step disturbs the levels, the insertion in progress, or a search in progress. */
  lemma StepInv(sys: System, step: Step)
    requires SystemInv(sys) && Enabled(sys, step)
    ensures SystemInv(Apply(sys, step))
  {
    match step
    case Begin(key, height, prev) => BeginInv(sys, key, height, prev);
    case SetOwn => SetOwnInv(sys);
    case Link => LinkInv(sys);
    case Search(target, height) =>
    case Load(r) => LoadInv(sys, r);
  }

  lemma BeginInv(sys: System, key: Key, height: nat, prev: seq<nat>)
    requires SystemInv(sys) && CanBegin(sys, key, height, prev)
    ensures SystemInv(Apply(sys, Begin(key, height, prev)))
  {
    var s := sys.shared;
    var raised := if height > s.maxHeight then Raise(s, height) else s;
    if height > s.maxHeight { RaiseInv(s, height); }
    NewNodeInv(raised, key);
    var t := NewNode(raised, key);
    forall i | 0 <= i < height ensures IsPrev(t, i, prev[i], key) {
      assert IsPrev(s, i, prev[i], key);
    }
  }

  lemma SetOwnInv(sys: System)
    requires SystemInv(sys) && Enabled(sys, SetOwn)
    ensures SystemInv(Apply(sys, SetOwn))
  {
    var s, w := sys.shared, sys.writer;
    OwnInv(s, w.level, w.x, s.next[w.level][w.prev[w.level]]);
    var t := Apply(sys, SetOwn).shared;
    forall i | w.level <= i < w.height ensures IsPrev(t, i, w.prev[i], t.keys[w.x]) {
      assert IsPrev(s, i, w.prev[i], s.keys[w.x]);
    }
  }

  lemma LinkInv(sys: System)
    requires SystemInv(sys) && Enabled(sys, Link)
    ensures SystemInv(Apply(sys, Link))
  {
    var s, w := sys.shared, sys.writer;
    assert IsPrev(s, w.level, w.prev[w.level], s.keys[w.x]);
    PublishInv(s, w.level, w.prev[w.level], w.x);
    var t := Publish(s, w.level, w.prev[w.level], w.x);
    forall i | w.level < i < w.height ensures IsPrev(t, i, w.prev[i], t.keys[w.x]) {
      assert IsPrev(s, i, w.prev[i], s.keys[w.x]);
    }
  }

  lemma LoadInv(sys: System, r: nat)
    requires SystemInv(sys) && Enabled(sys, Load(r))
    ensures SystemInv(Apply(sys, Load(r)))
  {
    LoadIsSafe(sys.shared, sys.readers[r]);
  }

  /** A search's answer is exact at the moment of its last load: the first node at or after its target among those
      then linked at level 0. */
  lemma AnswerIsExact(sys: System, r: nat)
    requires SystemInv(sys) && Enabled(sys, Load(r)) && Apply(sys, Load(r)).readers[r].Done?
    ensures var s, t, found := sys.shared, sys.readers[r].target, Apply(sys, Load(r)).readers[r].found;
            match found
            case None => forall m :: m in s.linked[0] ==> s.keys[m] < t
            case Some(y) => y in s.linked[0] && t <= s.keys[y]
                            && forall m :: m in s.linked[0] && t <= s.keys[m] ==> s.keys[y] <= s.keys[m]
  {
    var s, reader := sys.shared, sys.readers[r];
    LoadIsSafe(s, reader);
    assert IsNext(s, 0, reader.x, s.next[0][reader.x]);
  }

  // ----- runs -----

  function Empty(): System {
    System(Shared([0.0], seq(MAX_HEIGHT, _ => [None]), 1, seq(MAX_HEIGHT, _ => {})), Idle, [])
  }

  ghost predicate Run(states: seq<System>, steps: seq<Step>) {
    && |states| == |steps| + 1 && states[0] == Empty()
    && forall i :: 0 <= i < |steps| ==> Enabled(states[i], steps[i]) && states[i + 1] == Apply(states[i], steps[i])
  }

  /** In every run, at every step, however writer and readers interleave. */
  lemma {:induction false} EveryRunInv(states: seq<System>, steps: seq<Step>, i: nat)
    requires Run(states, steps) && i < |states|
    ensures SystemInv(states[i])
  {
    if i > 0 {
      EveryRunInv(states, steps, i - 1);
      StepInv(states[i - 1], steps[i - 1]);
    }
  }

  /** A search in progress never meets a pointer it cannot follow, and an insertion can always take its next store. */
  lemma NeverStuck(states: seq<System>, steps: seq<Step>, i: nat, r: nat)
    requires Run(states, steps) && i < |states|
    ensures r < |states[i].readers| && states[i].readers[r].Searching? ==> Enabled(states[i], Load(r))
    ensures states[i].writer.Inserting? ==> Enabled(states[i], SetOwn) || Enabled(states[i], Link)
  {
    EveryRunInv(states, steps, i);
    var s, w := states[i].shared, states[i].writer;
    if r < |states[i].readers| && states[i].readers[r].Searching? { LoadIsSafe(s, states[i].readers[r]); }
    if w.Inserting? { assert IsPrev(s, w.level, w.prev[w.level], s.keys[w.x]); }
  }

  lemma StepGrows(sys: System, step: Step, m: nat)
    requires SystemInv(sys) && Enabled(sys, step) && m in sys.shared.linked[0]
    ensures SystemInv(Apply(sys, step)) && m in Apply(sys, step).shared.linked[0]
    ensures Apply(sys, step).shared.keys[m] == sys.shared.keys[m]
  {
    StepInv(sys, step);
  }

  /** Node m, with key t, is in the list. */
  predicate Linked(s: Shared, m: nat, t: Key) { |s.linked| > 0 && m in s.linked[0] && m < |s.keys| && s.keys[m] == t }

  /** The answer of a finished search for t is a node with key t. */
  ghost predicate FoundIfDone(sys: System, r: nat, t: Key) {
    && r < |sys.readers| && sys.readers[r].target == t
    && match sys.readers[r]
       case Searching(_, _, _) => true
       case Done(_, found) => found.Some? && found.value < |sys.shared.keys| && sys.shared.keys[found.value] == t
  }

  /** A search that is under way when its key is linked at level 0 finds it, whatever happens meanwhile. */
  lemma {:induction false} LinkedKeysAreFound(states: seq<System>, steps: seq<Step>, i: nat, k: nat, r: nat, m: nat)
    requires Run(states, steps) && i <= k < |states|
    requires r < |states[i].readers| && states[i].readers[r].Searching?
    requires Linked(states[i].shared, m, states[i].readers[r].target)
    ensures Linked(states[k].shared, m, states[i].readers[r].target)
    ensures FoundIfDone(states[k], r, states[i].readers[r].target)
    decreases k
  {
    if i < k {
      LinkedKeysAreFound(states, steps, i, k - 1, r, m);
      EveryRunInv(states, steps, k - 1);
      StepGrows(states[k - 1], steps[k - 1], m);
      StepKeepsAnswer(states[k - 1], steps[k - 1], r, m, states[i].readers[r].target);
    }
  }

  lemma StepKeepsAnswer(sys: System, step: Step, r: nat, m: nat, t: Key)
    requires SystemInv(sys) && Enabled(sys, step) && FoundIfDone(sys, r, t)
    requires m in sys.shared.linked[0] && sys.shared.keys[m] == t
    ensures FoundIfDone(Apply(sys, step), r, t)
  {
    if step == Load(r) && Apply(sys, step).readers[r].Done? {
      AnswerIsExact(sys, r);
    }
  }
}
