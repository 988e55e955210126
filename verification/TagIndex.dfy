/** The in-memory tag and key index (src/invalidation/TagIndex.ts). */
module TagIndex {
  import opened OrderedMap
  import opened Keys
  import PatternMatcher

  // A heap trie over the known keys, their touch order, and the tag relation in both directions.  `nodes` is a ghost
  // map from paths to trie nodes.

  type Path = string

  type Tag = nat

  class TrieNode {
    var terminal: bool
    var children: map<char, TrieNode>

    constructor ()
      ensures !terminal && children == map[]
    {
      terminal, children := false, map[];
    }
  }

  // ---- what happens to the known keys ----

  type Known = OMap<Key, int>

  predicate Refreshes(known: Known, k: Key, now: int, interval: int) {
    k !in known.vals || now - known.vals[k] >= interval
  }

  function Touched(known: Known, k: Key, now: int): Known {
    known.Delete(k).Set(k, now)
  }

  /** The exact ceiling of a tenth.  The source's `maxKnownKeys * 0.1` is a double, whose ceiling can be one more:
      8 for a limit of 70. */
  function ToRemove(max: nat): nat { (max + 9) / 10 }

  /** One prune: the oldest tenth of the limit, rounded up, if the limit is exceeded. */
  function Pruned(known: Known, max: Option<nat>): Known
    requires known.Valid()
  {
    if max.None? || known.Size() <= max.value then known
    else known.DropFirst(ToRemove(max.value))
  }

  function AfterTouch(known: Known, k: Key, now: int, interval: int, max: Option<nat>): Known
    requires known.Valid()
  {
    if Refreshes(known, k, now, interval) then
      TouchedKeepsValid(known, k, now);
      Pruned(Touched(known, k, now), max)
    else known
  }

  lemma TouchedKeepsValid(known: Known, k: Key, now: int)
    requires known.Valid()
    ensures Touched(known, k, now).Valid()
    ensures Touched(known, k, now).Size() == known.Size() + if k in known.vals then 0 else 1
    ensures k in Touched(known, k, now).vals
  {
    DeleteKeepsValid(known, k);
    SetKeepsValid(known.Delete(k), k, now);
    WithoutNoDuplicates(known.keys, k);
  }

  lemma PrunedKeepsValid(known: Known, max: Option<nat>)
    requires known.Valid()
    ensures Pruned(known, max).Valid()
    ensures max.Some? && max.value >= 1 && known.Size() <= max.value + 1 ==> Pruned(known, max).Size() <= max.value
  {
    if max.Some? && known.Size() > max.value {
      DropFirstKeepsValid(known, ToRemove(max.value));
    }
  }

  /** A touch keeps the index within its limit, if the limit is at least one. */
  lemma TouchStaysWithinLimit(known: Known, k: Key, now: int, interval: int, max: nat)
    requires known.Valid() && |known.vals| <= max && max >= 1
    ensures AfterTouch(known, k, now, interval, Some(max)).Valid()
    ensures |AfterTouch(known, k, now, interval, Some(max)).vals| <= max
  {
    SizeIsCardinality(known);
    if Refreshes(known, k, now, interval) {
      TouchedKeepsValid(known, k, now);
      PrunedKeepsValid(Touched(known, k, now), Some(max));
    }
    SizeIsCardinality(AfterTouch(known, k, now, interval, Some(max)));
  }

  /** A touch of a key known for less than the interval changes nothing.  Any other puts the key behind all others, with
      the current time, and then, if the keys exceed the limit, drops a tenth of the limit, rounded up, from the front:
      all other keys keep their places and times. */
  lemma TouchMovesToEnd(known: Known, k: Key, now: int, interval: int, max: Option<nat>)
    requires known.Valid()
    ensures var r := AfterTouch(known, k, now, interval, max);
            var order := Without(known.keys, k) + [k];
            if k in known.vals && now - known.vals[k] < interval then r == known
            else
              && r.keys == (if max.None? || |order| <= max.value then order else order[(max.value + 9) / 10..])
              && r.vals.Keys == (set j | j in r.keys)
              && forall j :: j in r.vals ==>
                               if j == k then r.vals[j] == now else j in known.vals && r.vals[j] == known.vals[j]
  {
    if Refreshes(known, k, now, interval) {
      TouchedKeepsValid(known, k, now);
      PrunedKeepsValid(Touched(known, k, now), max);
      assert forall j :: j in AfterTouch(known, k, now, interval, max).keys <==>
                         j in AfterTouch(known, k, now, interval, max).vals;
    }
  }

  /** The keys are in the order of their times. */
  ghost predicate Ascending(keys: seq<Key>, times: map<Key, int>)
    requires forall j :: j in keys ==> j in times
  {
    keys == [] ||
    (Ascending(keys[1..], times) && forall j :: j in keys[1..] ==> times[keys[0]] <= times[j])
  }

  lemma {:induction false} AppendedAscending(keys: seq<Key>, times: map<Key, int>, k: Key, now: int)
    requires forall j :: j in keys ==> j in times
    requires Ascending(keys, times) && k !in keys && forall j :: j in keys ==> times[j] <= now
    ensures Ascending(keys + [k], times[k := now])
  {
    if keys == [] {
      LaterAscending(k, [], times[k := now]);
      assert keys + [k] == [k] + [];
    } else {
      assert keys == [keys[0]] + keys[1..];
      AppendedAscending(keys[1..], times, k, now);
      LaterAscending(keys[0], keys[1..] + [k], times[k := now]);
      assert keys + [k] == [keys[0]] + (keys[1..] + [k]);
    }
  }

  lemma LaterAscending(first: Key, keys: seq<Key>, times: map<Key, int>)
    requires first in times && forall j :: j in keys ==> j in times && times[first] <= times[j]
    requires Ascending(keys, times)
    ensures Ascending([first] + keys, times)
  {
    assert ([first] + keys)[1..] == keys;
  }

  lemma {:induction false} WithoutAscending(keys: seq<Key>, times: map<Key, int>, k: Key)
    requires forall j :: j in keys ==> j in times
    requires Ascending(keys, times)
    ensures Ascending(Without(keys, k), times)
  {
    if keys == [] {
    } else {
      WithoutAscending(keys[1..], times, k);
      if keys[0] != k {
        assert Without(keys, k)[1..] == Without(keys[1..], k);
      }
    }
  }

  /** What is in front of a place in such a list is no later than what is behind it. */
  lemma {:induction false} FrontIsOlder(keys: seq<Key>, times: map<Key, int>, n: nat)
    requires forall j :: j in keys ==> j in times
    requires Ascending(keys, times) && n <= |keys|
    ensures Ascending(keys[n..], times)
    ensures forall x, y :: x in keys[..n] && y in keys[n..] ==> times[x] <= times[y]
  {
    if n == 0 {
      assert keys[0..] == keys;
    } else {
      FrontIsOlder(keys[1..], times, n - 1);
      assert keys[1..][n-1..] == keys[n..] && keys[..n] == [keys[0]] + keys[1..][..n-1];
      assert forall y :: y in keys[n..] ==> y in keys[1..];
    }
  }

  lemma {:induction false} SameTimesAscending(keys: seq<Key>, times: map<Key, int>, others: map<Key, int>)
    requires forall j :: j in keys ==> j in times && j in others && times[j] == others[j]
    requires Ascending(keys, times)
    ensures Ascending(keys, others)
  {
    if keys == [] {
    } else {
      assert keys == [keys[0]] + keys[1..];
      SameTimesAscending(keys[1..], times, others);
    }
  }

  /** With a clock that does not go back, touches keep the keys in the order of their last refreshes; so what a touch
      drops was refreshed no later than anything it keeps. */
  lemma TouchKeepsTimeOrder(known: Known, k: Key, now: int, interval: int, max: Option<nat>)
    requires known.Valid()
    requires Ascending(known.keys, known.vals) && forall j :: j in known.vals ==> known.vals[j] <= now
    ensures var r := AfterTouch(known, k, now, interval, max);
            && r.Valid() && Ascending(r.keys, r.vals)
            && forall x, y :: x in known.vals && x !in r.vals && y in r.vals ==> known.vals[x] <= r.vals[y]
  {
    TouchMovesToEnd(known, k, now, interval, max);
    AfterTouchIsValid(known, k, now, interval, max);
    if Refreshes(known, k, now, interval) {
      WithoutAscending(known.keys, known.vals, k);
      var r := AfterTouch(known, k, now, interval, max);
      RefreshKeepsTimeOrder(Without(known.keys, k), known.vals, k, now, r.keys, r.vals,
                            if max.None? || |Without(known.keys, k) + [k]| <= max.value then 0
                            else (max.value + 9) / 10);
    }
  }

  lemma AfterTouchIsValid(known: Known, k: Key, now: int, interval: int, max: Option<nat>)
    requires known.Valid()
    ensures AfterTouch(known, k, now, interval, max).Valid()
  {
    TouchedKeepsValid(known, k, now);
    PrunedKeepsValid(Touched(known, k, now), max);
  }

  lemma RefreshKeepsTimeOrder(kept: seq<Key>, was: map<Key, int>, k: Key, now: int, left: seq<Key>,
                              times: map<Key, int>, n: nat)
    requires (forall j :: j in kept <==> j in was && j != k) && Ascending(kept, was)
    requires n <= |kept| + 1 && left == (kept + [k])[n..] && times.Keys == (set j | j in left)
    requires forall j :: j in times ==> if j == k then times[j] == now else j in was && times[j] == was[j]
    requires forall j :: j in was ==> was[j] <= now
    ensures Ascending(left, times)
    ensures forall x, y :: x in was && x !in times && y in times ==> was[x] <= times[y]
  {
    var order, all := kept + [k], was[k := now];
    AppendedAscending(kept, was, k, now);
    FrontIsOlder(order, all, n);
    SameTimesAscending(left, all, times);
    forall x, y | x in was && x !in times && y in times
      ensures was[x] <= times[y]
    {
      InFront(order, n, x);
      assert all[x] <= all[y];
    }
  }

  lemma InFront(order: seq<Key>, n: nat, x: Key)
    requires n <= |order| && x in order && x !in order[n..]
    ensures x in order[..n]
  {
    assert order == order[..n] + order[n..];
  }

  /** A limit of zero is no limit: a tenth of zero is removed, so every new key stays. */
  lemma ZeroLimitNeverPrunes(known: Known, k: Key, now: int, interval: int)
    requires known.Valid() && k !in known.vals
    ensures |AfterTouch(known, k, now, interval, Some(0)).vals| == |known.vals| + 1
  {
    TouchedKeepsValid(known, k, now);
    DropNone(Touched(known, k, now));
    OneMoreEntry(known.vals, k, now);
  }

  lemma OneMoreEntry(vals: map<Key, int>, k: Key, now: int)
    requires k !in vals
    ensures |(vals - {k})[k := now]| == |vals| + 1
  {
    var more := (vals - {k})[k := now];
    assert more.Keys == vals.Keys + {k};
    assert |more| == |more.Keys| && |vals| == |vals.Keys|;
  }

  // ---- prefixes ----

  function Init(p: Path): Path
    requires p != []
  {
    p[..|p|-1]
  }

  function Last(p: Path): char
    requires p != []
  {
    p[|p|-1]
  }

  class Index {
    var tagToKeys: map<Tag, set<Key>>
    var keyToTags: map<Key, set<Tag>>
    var knownKeys: Known
    const maxKnownKeys: Option<nat>
    const touchRefreshIntervalMs: int
    const root: TrieNode
    ghost var nodes: map<Path, TrieNode>

    /** Children lead to the nodes of the longer paths. */
    ghost predicate ChildLeads(p: Path, c: char)
      reads this`nodes, nodes.Values
    {
      p in nodes && c in nodes[p].children ==> p + [c] in nodes && nodes[p + [c]] == nodes[p].children[c]
    }

    /** Every node but the root is a child of the node of its path without the last character. */
    ghost predicate HasParent(p: Path)
      reads this`nodes, nodes.Values
    {
      p in nodes && p != [] ==> Init(p) in nodes && Last(p) in nodes[Init(p)].children
    }

    ghost predicate Distinct(p: Path, q: Path)
      reads this`nodes
    {
      p in nodes && q in nodes && nodes[p] == nodes[q] ==> p == q
    }

    /** Terminal paths are the known keys. */
    ghost predicate TerminalIsKnown(p: Path, known: map<Key, int>)
      reads this`nodes, nodes.Values
    {
      (p in nodes && nodes[p].terminal) <==> Key(p) in known
    }

    /** No dead branch: a node that is not terminal has children. */
    ghost predicate Alive(p: Path)
      reads this`nodes, nodes.Values
    {
      p in nodes && p != [] ==> nodes[p].terminal || nodes[p].children != map[]
    }

    /** The trie is a tree, whatever it marks. */
    ghost predicate Tree()
      reads this`nodes, nodes.Values
    {
      && [] in nodes && nodes[[]] == root
      && (forall p, c :: ChildLeads(p, c))
      && (forall p :: HasParent(p))
      && (forall p, q :: Distinct(p, q))
    }

    ghost predicate Marks(known: map<Key, int>)
      reads this`nodes, nodes.Values
    {
      forall p :: TerminalIsKnown(p, known)
    }

    /** No dead branch, except perhaps the node of one path. */
    ghost predicate AliveBut(q: Path)
      reads this`nodes, nodes.Values
    {
      forall p :: p != q ==> Alive(p)
    }

    ghost function KeysOf(t: Tag): set<Key>
      reads this`tagToKeys
    {
      if t in tagToKeys then tagToKeys[t] else {}
    }

    ghost function TagsOf(k: Key): set<Tag>
      reads this`keyToTags
    {
      if k in keyToTags then keyToTags[k] else {}
    }

    ghost predicate Paired(t: Tag, k: Key)
      reads this`tagToKeys, this`keyToTags
    {
      k in KeysOf(t) <==> t in TagsOf(k)
    }

    /** The two tag maps are inverse relations. */
    ghost predicate Inverse()
      reads this`tagToKeys, this`keyToTags
    {
      forall t, k :: Paired(t, k)
    }

    ghost predicate Valid()
      reads this, nodes.Values
    {
      && knownKeys.Valid()
      && Tree()
      && Marks(knownKeys.vals)
      && (forall p :: Alive(p))
      && Inverse()
    }

    constructor (maxKnownKeys: Option<nat>, touchRefreshIntervalMs: int)
      ensures Valid() && fresh(nodes.Values)
      ensures knownKeys == Empty() && tagToKeys == map[] && keyToTags == map[]
      ensures this.maxKnownKeys == maxKnownKeys && this.touchRefreshIntervalMs == touchRefreshIntervalMs
    {
      this.maxKnownKeys, this.touchRefreshIntervalMs := maxKnownKeys, touchRefreshIntervalMs;
      tagToKeys, keyToTags, knownKeys := map[], map[], Empty();
      root := new TrieNode();
      new;
      nodes := map[[] := root];
    }

    // ---- inserting ----

    /** The loop of `insertKnownKey`: makes the path of the key and marks its end. */
    method InsertPath(k: Key, ghost known: map<Key, int>, ghost now: int)
      requires Tree() && Marks(known) && (forall p :: Alive(p)) && k !in known
      modifies this`nodes, nodes.Values
      ensures fresh(nodes.Values - old(nodes.Values))
      ensures Tree() && (forall p :: Alive(p)) && Marks(known[k := now])
    {
      var node := root;
      assert k.text[..0] == [];
      for i := 0 to |k.text|
        invariant fresh(nodes.Values - old(nodes.Values))
        invariant k.text[..i] in nodes && nodes[k.text[..i]] == node
        invariant Tree() && Marks(known) && AliveBut(k.text[..i])
      {
        var c := k.text[i];
        assert k.text[..i+1] == k.text[..i] + [c];
        assert ChildLeads(k.text[..i], c);
        if c in node.children {
          KeepAlive(k.text[..i], c);
          node := node.children[c];
        } else {
          node := AddChild(k.text[..i], node, c, known);
        }
      }
      assert k.text[..|k.text|] == k.text;
      MarkTerminal(k, node, known, now);
    }

    /** With a child, the node of a path is alive. */
    lemma KeepAlive(path: Path, c: char)
      requires path in nodes && c in nodes[path].children && AliveBut(path)
      ensures AliveBut(path + [c])
    {
      forall p | p != path + [c]
        ensures Alive(p)
      {
      }
    }

    method MarkTerminal(k: Key, node: TrieNode, ghost known: map<Key, int>, ghost now: int)
      requires k.text in nodes && nodes[k.text] == node
      requires Tree() && Marks(known) && AliveBut(k.text)
      modifies node
      ensures Tree() && (forall p :: Alive(p)) && Marks(known[k := now])
    {
      node.terminal := true;
      forall p, c ensures ChildLeads(p, c) { assert old(ChildLeads(p, c)); }
      forall p ensures HasParent(p) { assert old(HasParent(p)); }
      forall p ensures Alive(p) { assert p != k.text ==> old(Alive(p)); }
      ghost var marked := known[k := now];
      forall p ensures TerminalIsKnown(p, marked) {
        assert old(TerminalIsKnown(p, known)) && Distinct(p, k.text);
      }
    }

    method AddChild(ghost path: Path, node: TrieNode, c: char, ghost known: map<Key, int>) returns (child: TrieNode)
      requires path in nodes && nodes[path] == node && c !in node.children
      requires Tree() && Marks(known) && AliveBut(path)
      modifies this`nodes, node
      ensures fresh(child) && nodes == old(nodes)[path + [c] := child]
      ensures Tree() && Marks(known) && AliveBut(path + [c])
    {
      child := new TrieNode();
      ghost var longer := path + [c];
      assert Init(longer) == path && Last(longer) == c;
      assert longer !in nodes by { assert HasParent(longer); }
      node.children := node.children[c := child];
      nodes := nodes[longer := child];
      forall p, d
        ensures ChildLeads(p, d)
      {
        assert old(ChildLeads(p, d)) && old(Distinct(p, path));
        assert p + [d] == longer ==> p == path && d == c by {
          if p + [d] == longer {
            assert Init(p + [d]) == p && Last(p + [d]) == d;
          }
        }
      }
      forall p
        ensures HasParent(p)
      {
        assert old(HasParent(p));
        if p in old(nodes) && p != [] {
          assert old(Distinct(Init(p), path));
        }
      }
      forall p, q
        ensures Distinct(p, q)
      {
        assert old(Distinct(p, q));
      }
      forall p
        ensures TerminalIsKnown(p, known)
        ensures p != longer ==> Alive(p)
      {
        assert old(TerminalIsKnown(p, known)) && old(Distinct(p, path));
        assert p != path ==> old(Alive(p));
        assert c in nodes[path].children;
      }
    }

    // ---- removing ----

    lemma PathOfKey(k: Key, i: nat)
      requires Tree() && k.text in nodes && i <= |k.text|
      ensures k.text[..i] in nodes
      ensures i < |k.text| ==> k.text[..i+1] in nodes && k.text[i] in nodes[k.text[..i]].children
                               && nodes[k.text[..i]].children[k.text[i]] == nodes[k.text[..i+1]]
      decreases |k.text| - i
    {
      if i == |k.text| {
        assert k.text[..i] == k.text;
      } else {
        PathOfKey(k, i + 1);
        var p := k.text[..i+1];
        assert Init(p) == k.text[..i] && Last(p) == k.text[i];
        assert HasParent(p) && ChildLeads(Init(p), Last(p));
        assert Init(p) + [Last(p)] == p;
      }
    }

    /** The trie part of `removeKnownKey`: unmarks the key and removes the branch that dies with it. */
    method RemovePath(k: Key, ghost known: map<Key, int>)
      requires Tree() && Marks(known) && (forall p :: Alive(p)) && k in known
      modifies this`nodes, nodes.Values
      ensures nodes.Keys <= old(nodes).Keys && nodes.Values <= old(nodes).Values
      ensures Tree() && (forall p :: Alive(p)) && Marks(known - {k})
    {
      assert TerminalIsKnown(k.text, known);
      var path, node := PathTo(k);
      Unmark(k, node, known);
      DropDeadBranch(k, path, known - {k});
    }

    /** The nodes on the way to the node of a key, and that node. */
    method PathTo(k: Key) returns (path: seq<TrieNode>, node: TrieNode)
      requires Tree() && k.text in nodes
      ensures node == nodes[k.text] && |path| == |k.text|
      ensures forall j :: 0 <= j < |path| ==> k.text[..j] in nodes && path[j] == nodes[k.text[..j]]
    {
      path, node := [], root;
      assert k.text[..0] == [];
      for i := 0 to |k.text|
        invariant |path| == i && k.text[..i] in nodes && nodes[k.text[..i]] == node
        invariant forall j :: 0 <= j < i ==> k.text[..j] in nodes && path[j] == nodes[k.text[..j]]
      {
        PathOfKey(k, i);
        PathOfKey(k, i + 1);
        path := path + [node];
        node := node.children[k.text[i]];
      }
      assert k.text[..|k.text|] == k.text;
    }

    /** The loop back up the path: removes nodes until one is terminal or has other children. */
    method DropDeadBranch(k: Key, path: seq<TrieNode>, ghost rest: map<Key, int>)
      requires Tree() && Marks(rest) && k.text in nodes && AliveBut(k.text) && |path| == |k.text|
      requires forall j :: 0 <= j < |path| ==> k.text[..j] in nodes && path[j] == nodes[k.text[..j]]
      modifies this`nodes, nodes.Values
      ensures nodes.Keys <= old(nodes).Keys && nodes.Values <= old(nodes).Values
      ensures Tree() && (forall p :: Alive(p)) && Marks(rest)
    {
      ghost var before := nodes;
      var index := |k.text|;
      assert k.text[..index] == k.text;
      while index > 0
        invariant 0 <= index <= |k.text|
        invariant nodes.Keys <= before.Keys && (forall p :: p in nodes ==> nodes[p] == before[p])
        invariant k.text[..index] in nodes
        invariant Tree() && Marks(rest) && AliveBut(k.text[..index])
        decreases index
      {
        index := index - 1;
        ghost var shorter := k.text[..index];
        ghost var longer := k.text[..index+1];
        assert Init(longer) == shorter && Last(longer) == k.text[index];
        assert HasParent(longer) && ChildLeads(shorter, k.text[index]);
        assert shorter + [k.text[index]] == longer;
        var parent := path[index];
        var child := parent.children[k.text[index]];
        if child.terminal || child.children != map[] {
          assert Alive(longer);
          return;
        }
        DropLeaf(shorter, parent, k.text[index], rest);
      }
      assert k.text[..0] == [];
    }

    method Unmark(k: Key, node: TrieNode, ghost known: map<Key, int>)
      requires k.text in nodes && nodes[k.text] == node
      requires Tree() && Marks(known) && (forall p :: Alive(p))
      modifies node
      ensures Tree() && Marks(known - {k}) && AliveBut(k.text)
    {
      node.terminal := false;
      ghost var rest := known - {k};
      forall p, c ensures ChildLeads(p, c) { assert old(ChildLeads(p, c)); }
      forall p ensures HasParent(p) { assert old(HasParent(p)); }
      forall p
        ensures TerminalIsKnown(p, rest)
        ensures p != k.text ==> Alive(p)
      {
        assert old(TerminalIsKnown(p, known)) && Distinct(p, k.text) && old(Alive(p));
      }
    }

    /** Cuts off a leaf that is not terminal. */
    method DropLeaf(ghost path: Path, parent: TrieNode, c: char, ghost known: map<Key, int>)
      requires path in nodes && nodes[path] == parent && path + [c] in nodes
      requires nodes[path + [c]].children == map[] && !nodes[path + [c]].terminal
      requires Tree() && Marks(known) && AliveBut(path + [c])
      modifies this`nodes, parent
      ensures nodes == old(nodes) - {path + [c]}
      ensures Tree() && Marks(known) && AliveBut(path)
    {
      ghost var longer := path + [c];
      assert Distinct(longer, path);
      parent.children := parent.children - {c};
      nodes := nodes - {longer};
      forall p, d
        ensures ChildLeads(p, d)
      {
        assert old(ChildLeads(p, d)) && old(Distinct(p, path));
        assert p + [d] == longer ==> p == path && d == c by {
          if p + [d] == longer {
            assert Init(p + [d]) == p && Last(p + [d]) == d && Init(longer) == path && Last(longer) == c;
          }
        }
      }
      forall p
        ensures HasParent(p)
      {
        assert old(HasParent(p));
        if p in nodes && p != [] {
          assert old(Distinct(Init(p), path)) && Init(p) + [Last(p)] == p;
        }
      }
      forall p, q
        ensures Distinct(p, q)
      {
        assert old(Distinct(p, q));
      }
      forall p
        ensures TerminalIsKnown(p, known)
        ensures p != path ==> Alive(p)
      {
        assert old(TerminalIsKnown(p, known)) && old(Distinct(p, path));
        assert p != longer ==> old(Alive(p));
      }
    }

    method RemoveKnownKey(k: Key)
      requires Valid()
      modifies this`nodes, this`knownKeys, nodes.Values
      ensures Valid() && nodes.Values <= old(nodes).Values
      ensures knownKeys == old(knownKeys).Delete(k)
    {
      if k !in knownKeys.vals {
        assert knownKeys.Delete(k).vals == knownKeys.vals;
        return;
      }
      ghost var was := knownKeys.vals;
      DeleteKeepsValid(knownKeys, k);
      knownKeys := knownKeys.Delete(k);
      RemovePath(k, was);
    }

    // ---- known keys ----

    method InsertKnownKey(k: Key, now: int) returns (refreshed: bool)
      requires Valid()
      modifies this`nodes, this`knownKeys, nodes.Values
      ensures Valid() && fresh(nodes.Values - old(nodes.Values))
      ensures refreshed == Refreshes(old(knownKeys), k, now, touchRefreshIntervalMs)
      ensures knownKeys == if refreshed then Touched(old(knownKeys), k, now) else old(knownKeys)
    {
      if k in knownKeys.vals && now - knownKeys.vals[k] < touchRefreshIntervalMs {
        return false;
      }
      refreshed := true;
      if k in knownKeys.vals {
        RefreshKnown(k, now);
      } else {
        AddKnown(k, now);
      }
    }

    method RefreshKnown(k: Key, now: int)
      requires Valid() && k in knownKeys.vals
      modifies this`knownKeys
      ensures Valid() && knownKeys == Touched(old(knownKeys), k, now)
    {
      ghost var was := knownKeys.vals;
      TouchedKeepsValid(knownKeys, k, now);
      knownKeys := knownKeys.Delete(k);
      knownKeys := knownKeys.Set(k, now);
      assert knownKeys.vals.Keys == was.Keys;
      KeepMarks(was);
    }

    method AddKnown(k: Key, now: int)
      requires Valid() && k !in knownKeys.vals
      modifies this`nodes, this`knownKeys, nodes.Values
      ensures Valid() && fresh(nodes.Values - old(nodes.Values))
      ensures knownKeys == Touched(old(knownKeys), k, now)
    {
      ghost var was := knownKeys;
      TouchedKeepsValid(was, k, now);
      assert was.Delete(k) == was;
      knownKeys := knownKeys.Set(k, now);
      InsertPath(k, was.vals, now);
    }

    /** What is marked depends only on which keys are known. */
    lemma KeepMarks(was: map<Key, int>)
      requires Marks(was) && was.Keys == knownKeys.vals.Keys
      ensures Marks(knownKeys.vals)
    {
      forall p
        ensures TerminalIsKnown(p, knownKeys.vals)
      {
        assert TerminalIsKnown(p, was);
      }
    }

    method PruneKnownKeysIfNeeded()
      requires Valid()
      modifies this`nodes, this`knownKeys, nodes.Values
      ensures Valid() && nodes.Values <= old(nodes).Values
      ensures knownKeys == Pruned(old(knownKeys), maxKnownKeys)
    {
      if maxKnownKeys.None? || knownKeys.Size() <= maxKnownKeys.value {
        return;
      }
      ghost var before := knownKeys;
      DropNone(before);
      var toRemove := ToRemove(maxKnownKeys.value);
      for i := 0 to toRemove
        invariant Valid() && nodes.Values <= old(nodes).Values
        invariant knownKeys == before.DropFirst(i)
      {
        DropOneMore(before, i);
        RemoveKnownKey(knownKeys.keys[0]);
      }
    }

    // ---- operations ----

    method Touch(k: Key, now: int)
      requires Valid()
      modifies this, nodes.Values
      ensures Valid() && fresh(nodes.Values - old(nodes.Values))
      ensures knownKeys == AfterTouch(old(knownKeys), k, now, touchRefreshIntervalMs, maxKnownKeys)
      ensures tagToKeys == old(tagToKeys) && keyToTags == old(keyToTags)
    {
      var refreshed := InsertKnownKey(k, now);
      if refreshed {
        PruneKnownKeysIfNeeded();
      }
    }

    /** Takes the key out of the sets of some tags, which may be left empty. */
    method Untag(k: Key, tags: set<Tag>)
      modifies this`tagToKeys
      ensures forall t :: KeysOf(t) == if t in tags then old(KeysOf(t)) - {k} else old(KeysOf(t))
    {
      var rest := tags;
      while rest != {}
        invariant rest <= tags
        invariant forall t :: KeysOf(t) == if t in tags - rest then old(KeysOf(t)) - {k} else old(KeysOf(t))
        decreases rest
      {
        var t :| t in rest;
        if t in tagToKeys {
          tagToKeys := tagToKeys[t := tagToKeys[t] - {k}];
        }
        rest := rest - {t};
      }
    }

    /** Replaces the tags of the key; an empty list keeps the old ones. */
    method Track(k: Key, tags: seq<Tag>, now: int)
      requires Valid()
      modifies this, nodes.Values
      ensures Valid() && fresh(nodes.Values - old(nodes.Values))
      ensures knownKeys == AfterTouch(old(knownKeys), k, now, touchRefreshIntervalMs, maxKnownKeys)
      ensures forall j :: TagsOf(j) == if j == k && tags != [] then (set t | t in tags) else old(TagsOf(j))
      ensures tags == [] ==> forall t :: KeysOf(t) == old(KeysOf(t))
      ensures tags != [] ==> forall t :: KeysOf(t) == if t in tags then old(KeysOf(t)) + {k} else old(KeysOf(t)) - {k}
    {
      Touch(k, now);
      if |tags| == 0 {
        return;
      }
      Retag(k, set t | t in tags);
      assert forall t :: t in tags <==> t in set u | u in tags;
    }

    /** The tag part of `track`. */
    method Retag(k: Key, tags: set<Tag>)
      requires Inverse()
      modifies this`tagToKeys, this`keyToTags
      ensures Inverse() && keyToTags == old(keyToTags)[k := tags]
      ensures forall t :: KeysOf(t) == if t in tags then old(KeysOf(t)) + {k} else old(KeysOf(t)) - {k}
    {
      if k in keyToTags {
        Untag(k, keyToTags[k]);
      }
      keyToTags := keyToTags[k := tags];
      AddTags(k, tags);
      forall t
        ensures KeysOf(t) == if t in tags then old(KeysOf(t)) + {k} else old(KeysOf(t)) - {k}
      {
        assert old(Paired(t, k));
      }
      forall t, j
        ensures Paired(t, j)
      {
        assert old(Paired(t, j));
      }
    }

    method AddTags(k: Key, tags: set<Tag>)
      modifies this`tagToKeys
      ensures forall t :: KeysOf(t) == if t in tags then old(KeysOf(t)) + {k} else old(KeysOf(t))
    {
      var rest := tags;
      while rest != {}
        invariant rest <= tags
        invariant forall t :: KeysOf(t) == if t in tags - rest then old(KeysOf(t)) + {k} else old(KeysOf(t))
        decreases rest
      {
        var t :| t in rest;
        tagToKeys := tagToKeys[t := (if t in tagToKeys then tagToKeys[t] else {}) + {k}];
        rest := rest - {t};
      }
    }

    /** Removes the key from the known keys and from every tag, and tags left without keys. */
    method Remove(k: Key)
      requires Valid()
      modifies this, nodes.Values
      ensures Valid() && nodes.Values <= old(nodes).Values
      ensures knownKeys == old(knownKeys).Delete(k)
      ensures forall t :: KeysOf(t) == old(KeysOf(t)) - {k}
      ensures forall t :: t in old(TagsOf(k)) && t in tagToKeys ==> tagToKeys[t] != {}
      ensures forall j :: TagsOf(j) == if j == k then {} else old(TagsOf(j))
    {
      RemoveKnownKey(k);
      if k in keyToTags {
        UntagAndDrop(k, keyToTags[k]);
        keyToTags := keyToTags - {k};
      }
      forall t
        ensures KeysOf(t) == old(KeysOf(t)) - {k}
      {
        assert old(Paired(t, k));
      }
      forall t, j
        ensures Paired(t, j)
      {
        assert old(Paired(t, j));
      }
    }

    method UntagAndDrop(k: Key, tags: set<Tag>)
      modifies this`tagToKeys
      ensures forall t :: KeysOf(t) == if t in tags then old(KeysOf(t)) - {k} else old(KeysOf(t))
      ensures forall t :: t in tags && t in tagToKeys ==> tagToKeys[t] != {}
    {
      var rest := tags;
      while rest != {}
        invariant rest <= tags
        invariant forall t :: KeysOf(t) == if t in tags - rest then old(KeysOf(t)) - {k} else old(KeysOf(t))
        invariant forall t :: t in tags - rest && t in tagToKeys ==> tagToKeys[t] != {}
        decreases rest
      {
        var t :| t in rest;
        if t in tagToKeys {
          var keys := tagToKeys[t] - {k};
          tagToKeys := tagToKeys[t := keys];
          if keys == {} {
            tagToKeys := tagToKeys - {t};
          }
        }
        rest := rest - {t};
      }
    }

    method Clear()
      requires Valid()
      modifies this, root
      ensures Valid() && knownKeys == Empty() && tagToKeys == map[] && keyToTags == map[] && nodes == map[[] := root]
    {
      tagToKeys, keyToTags, knownKeys := map[], map[], Empty();
      root.children := map[];
      root.terminal := false;
      nodes := map[[] := root];
    }

    // ---- queries ----

    /** The path of a known key is in the trie, and so is every prefix of it. */
    lemma PrefixIsInTrie(k: Key, prefix: Path, i: nat)
      requires Valid() && k in knownKeys.vals && prefix <= k.text && i < |prefix|
      ensures prefix[..i] in nodes && prefix[i] in nodes[prefix[..i]].children
    {
      assert TerminalIsKnown(k.text, knownKeys.vals);
      PathOfKey(k, i);
      assert k.text[..i] == prefix[..i];
    }

    method FindNode(prefix: Path) returns (node: TrieNode?)
      requires Valid()
      ensures node != null ==> prefix in nodes && nodes[prefix] == node
      ensures node == null ==> forall k :: k in knownKeys.vals ==> !(prefix <= k.text)
    {
      node := root;
      assert prefix[..0] == [];
      for i := 0 to |prefix|
        invariant prefix[..i] in nodes && nodes[prefix[..i]] == node
      {
        assert prefix[..i+1] == prefix[..i] + [prefix[i]];
        assert ChildLeads(prefix[..i], prefix[i]);
        if prefix[i] !in node.children {
          forall k | k in knownKeys.vals && prefix <= k.text
            ensures false
          {
            PrefixIsInTrie(k, prefix, i);
          }
          return null;
        }
        node := node.children[prefix[i]];
      }
      assert prefix[..|prefix|] == prefix;
    }

    // ---- the depth-first walk ----

    /** The nodes still to be visited, with their paths. */
    ghost predicate StackFits(stack: seq<(TrieNode, Path)>, start: Path)
      reads this`nodes
    {
      forall i :: 0 <= i < |stack| ==>
                    stack[i].1 in nodes && nodes[stack[i].1] == stack[i].0 && start <= stack[i].1
    }

    /** No stacked path is a prefix of another one, nor of a visited path. */
    ghost predicate Apart(stack: seq<(TrieNode, Path)>, visited: set<Path>) {
      && (forall i, j :: 0 <= i < |stack| && 0 <= j < |stack| && i != j ==> !(stack[i].1 <= stack[j].1))
      && (forall i, p :: 0 <= i < |stack| && p in visited ==> !(stack[i].1 <= p))
    }

    ghost predicate Below(stack: seq<(TrieNode, Path)>, p: Path) {
      exists i :: 0 <= i < |stack| && stack[i].1 <= p
    }

    /** Every path under the start is visited or below a stacked one. */
    ghost predicate Covered(stack: seq<(TrieNode, Path)>, visited: set<Path>, start: Path)
      reads this`nodes
    {
      && (forall p :: p in visited ==> p in nodes && start <= p)
      && (forall p :: p in nodes && start <= p ==> p in visited || Below(stack, p))
    }

    /** The matches are the terminal paths visited. */
    ghost predicate Collected(matches: seq<Key>, visited: set<Path>)
      reads this`nodes, nodes.Values
    {
      && NoDuplicates(matches)
      && (forall k :: k in matches <==> k.text in visited && k.text in nodes && nodes[k.text].terminal)
    }

    /** The children of the node of `p`, on the way to a longer path. */
    lemma ChildOnTheWay(p: Path, q: Path)
      requires Tree() && p in nodes && q in nodes && p <= q && p != q
      ensures q[|p|] in nodes[p].children && p + [q[|p|]] <= q
    {
      PathOfKey(Key(q), |p|);
      assert q[..|p|] == p;
    }

    method ChildChars(children: map<char, TrieNode>) returns (order: seq<char>)
      ensures NoDuplicates(order) && forall c :: c in order <==> c in children
    {
      order := [];
      var rest := children.Keys;
      while rest != {}
        invariant rest <= children.Keys
        invariant NoDuplicates(order) && forall c :: c in order <==> c in children && c !in rest
        decreases rest
      {
        var c :| c in rest;
        order := order + [c];
        rest := rest - {c};
      }
    }

    static function Kids(children: map<char, TrieNode>, order: seq<char>, prefix: Path): (r: seq<(TrieNode, Path)>)
      requires forall c :: c in order ==> c in children
      ensures |r| == |order|
      ensures forall i :: 0 <= i < |order| ==> r[i] == (children[order[i]], prefix + [order[i]])
    {
      seq(|order|, i requires 0 <= i < |order| => (children[order[i]], prefix + [order[i]]))
    }

    ghost function Visited(stack: seq<(TrieNode, Path)>, order: seq<char>): seq<(TrieNode, Path)>
      requires stack != [] && forall c :: c in order ==> c in stack[|stack|-1].0.children
      reads stack[|stack|-1].0
    {
      stack[..|stack|-1] + Kids(stack[|stack|-1].0.children, order, stack[|stack|-1].1)
    }

    /** Visiting a node replaces it on the stack by its children. */
    lemma VisitKeepsFit(stack: seq<(TrieNode, Path)>, start: Path, order: seq<char>)
      requires Tree() && stack != [] && StackFits(stack, start)
      requires forall c :: c in order ==> c in stack[|stack|-1].0.children
      ensures StackFits(Visited(stack, order), start)
    {
      var n := |stack| - 1;
      forall i | 0 <= i < |order|
        ensures stack[n].1 + [order[i]] in nodes && order[i] in stack[n].0.children
        ensures nodes[stack[n].1 + [order[i]]] == stack[n].0.children[order[i]]
      {
        assert order[i] in order && ChildLeads(stack[n].1, order[i]);
      }
    }

    lemma VisitKeepsCovered(stack: seq<(TrieNode, Path)>, visited: set<Path>, start: Path, order: seq<char>)
      requires Tree() && stack != [] && StackFits(stack, start) && Covered(stack, visited, start)
      requires forall c :: c in order <==> c in stack[|stack|-1].0.children
      ensures Covered(Visited(stack, order), visited + {stack[|stack|-1].1}, start)
    {
      var n := |stack| - 1;
      var prefix := stack[n].1;
      forall p | p in nodes && start <= p
        ensures p in visited + {prefix} || Below(Visited(stack, order), p)
      {
        if p !in visited && p != prefix {
          var i :| 0 <= i < |stack| && stack[i].1 <= p;
          BelowAfterVisit(stack, order, p, i);
        }
      }
    }

    lemma BelowAfterVisit(stack: seq<(TrieNode, Path)>, order: seq<char>, p: Path, i: nat)
      requires Tree() && p in nodes && i < |stack| && stack[i].1 <= p
      requires stack[|stack|-1].1 in nodes && nodes[stack[|stack|-1].1] == stack[|stack|-1].0 && stack[|stack|-1].1 != p
      requires forall c :: c in order <==> c in stack[|stack|-1].0.children
      ensures Below(Visited(stack, order), p)
    {
      var n := |stack| - 1;
      var next := Visited(stack, order);
      if i < n {
        assert next[i].1 <= p;
      } else {
        ChildOnTheWay(stack[n].1, p);
        assert p[|stack[n].1|] in order;
        var j :| 0 <= j < |order| && order[j] == p[|stack[n].1|];
        assert next[n + j].1 <= p;
      }
    }

    lemma VisitKeepsApart(stack: seq<(TrieNode, Path)>, visited: set<Path>, order: seq<char>)
      requires stack != [] && Apart(stack, visited) && NoDuplicates(order)
      requires forall c :: c in order <==> c in stack[|stack|-1].0.children
      ensures Apart(Visited(stack, order), visited + {stack[|stack|-1].1})
    {
      var n := |stack| - 1;
      var prefix := stack[n].1;
      var next := Visited(stack, order);
      forall i, p | 0 <= i < |next| && p in visited + {prefix}
        ensures !(next[i].1 <= p)
      {
        if i >= n && prefix + [order[i - n]] <= p {
          PrefixIsTransitive(prefix, order[i - n], p);
        }
      }
      forall i, j | 0 <= i < |next| && 0 <= j < |next| && i != j
        ensures !(next[i].1 <= next[j].1)
      {
        if i >= n {
          if j >= n {
            assert order[i - n] != order[j - n];
            assert (prefix + [order[i - n]])[|prefix|] == order[i - n];
          } else if prefix + [order[i - n]] <= stack[j].1 {
            PrefixIsTransitive(prefix, order[i - n], stack[j].1);
          }
        } else if j >= n && stack[i].1 <= prefix + [order[j - n]] {
          ShorterPrefix(stack[i].1, prefix, order[j - n]);
        }
      }
    }

    static lemma PrefixIsTransitive(p: Path, c: char, q: Path)
      requires p + [c] <= q
      ensures p <= q && p != q
    {
      assert (p + [c])[..|p|] == p;
    }

    /** A prefix of a path one longer is that path or a prefix of the shorter one. */
    static lemma ShorterPrefix(r: Path, p: Path, c: char)
      requires r <= p + [c]
      ensures r == p + [c] || r <= p
    {
    }

    ghost predicate Walking(stack: seq<(TrieNode, Path)>, visited: set<Path>, start: Path)
      reads this`nodes
    {
      StackFits(stack, start) && Apart(stack, visited) && Covered(stack, visited, start)
    }

    lemma WalkStarts(node: TrieNode, prefix: Path)
      requires prefix in nodes && nodes[prefix] == node
      ensures Walking([(node, prefix)], {}, prefix)
    {
      var stack := [(node, prefix)];
      forall p | p in nodes && prefix <= p
        ensures Below(stack, p)
      {
        assert stack[0].1 <= p;
      }
    }

    lemma VisitKeepsWalking(stack: seq<(TrieNode, Path)>, visited: set<Path>, start: Path, order: seq<char>)
      requires Tree() && stack != [] && Walking(stack, visited, start) && NoDuplicates(order)
      requires forall c :: c in order <==> c in stack[|stack|-1].0.children
      ensures Walking(Visited(stack, order), visited + {stack[|stack|-1].1}, start)
      ensures stack[|stack|-1].1 in nodes && nodes[stack[|stack|-1].1] == stack[|stack|-1].0
      ensures stack[|stack|-1].1 !in visited
    {
      VisitKeepsFit(stack, start, order);
      VisitKeepsApart(stack, visited, order);
      VisitKeepsCovered(stack, visited, start, order);
      assert stack[|stack|-1].1 <= stack[|stack|-1].1;
    }

    lemma WalkEnds(visited: set<Path>, start: Path, matches: seq<Key>)
      requires Valid() && Walking([], visited, start) && Collected(matches, visited)
      ensures forall k :: k in matches <==> k in knownKeys.vals && start <= k.text
    {
      forall k
        ensures k in matches <==> k in knownKeys.vals && start <= k.text
      {
        assert TerminalIsKnown(k.text, knownKeys.vals);
      }
    }

    /** The known keys under a node, each once. */
    method CollectFromNode(node: TrieNode, prefix: Path) returns (matches: seq<Key>)
      requires Valid() && prefix in nodes && nodes[prefix] == node
      ensures NoDuplicates(matches)
      ensures forall k :: k in matches <==> k in knownKeys.vals && prefix <= k.text
    {
      matches := [];
      var stack := [(node, prefix)];
      ghost var visited: set<Path> := {};
      WalkStarts(node, prefix);
      while |stack| > 0
        invariant Walking(stack, visited, prefix) && Collected(matches, visited)
        decreases nodes.Keys - visited
      {
        var n := |stack| - 1;
        var current := stack[n];
        var order := ChildChars(current.0.children);
        VisitKeepsWalking(stack, visited, prefix, order);
        if current.0.terminal {
          matches := matches + [Key(current.1)];
        }
        visited := visited + {current.1};
        stack := stack[..n] + Kids(current.0.children, order, current.1);
      }
      WalkEnds(visited, prefix, matches);
    }

    /** Exactly the known keys with the prefix, each once. */
    method KeysForPrefix(prefix: Path) returns (keys: seq<Key>)
      requires Valid()
      ensures NoDuplicates(keys)
      ensures forall k :: k in keys <==> k in knownKeys.vals && prefix <= k.text
    {
      var node := FindNode(prefix);
      if node == null {
        return [];
      }
      keys := CollectFromNode(node, prefix);
    }

    static method LiteralPrefix(pattern: Path) returns (prefix: Path)
      ensures prefix <= pattern
      ensures forall c :: c in prefix ==> c != '*' && c != '?'
    {
      for i := 0 to |pattern|
        invariant forall c :: c in pattern[..i] ==> c != '*' && c != '?'
      {
        assert pattern[..i+1] == pattern[..i] + [pattern[i]];
        if pattern[i] == '*' || pattern[i] == '?' {
          return pattern[..i];
        }
      }
      assert pattern[..|pattern|] == pattern;
      return pattern;
    }

    /** A matching value begins with the literal beginning of its pattern. */
    static lemma {:induction false} MatchHasPrefix(pattern: Path, prefix: Path, value: Path)
      requires prefix <= pattern && PatternMatcher.Matches(pattern, value)
      requires forall c :: c in prefix ==> c != '*' && c != '?'
      ensures prefix <= value
      decreases |prefix|
    {
      if prefix == [] {
      } else {
        assert prefix[0] in prefix && prefix[0] == pattern[0];
        assert prefix[1..] <= pattern[1..] && forall c :: c in prefix[1..] ==> c in prefix;
        MatchHasPrefix(pattern[1..], prefix[1..], value[1..]);
        assert prefix == [prefix[0]] + prefix[1..] && value == [value[0]] + value[1..];
      }
    }

    /** Exactly the known keys that match the pattern, each once. */
    method MatchPattern(pattern: Path) returns (keys: seq<Key>)
      requires Valid()
      ensures NoDuplicates(keys)
      ensures forall k :: k in keys <==> k in knownKeys.vals && PatternMatcher.Matches(pattern, k.text)
    {
      keys := [];
      var literalPrefix := LiteralPrefix(pattern);
      forall k: Key | PatternMatcher.Matches(pattern, k.text)
        ensures literalPrefix <= k.text
      {
        MatchHasPrefix(pattern, literalPrefix, k.text);
      }
      var candidates := KeysForPrefix(literalPrefix);
      for i := 0 to |candidates|
        invariant NoDuplicates(keys)
        invariant forall k :: k in keys <==> k in candidates[..i] && PatternMatcher.Matches(pattern, k.text)
      {
        assert candidates[i] !in candidates[..i];
        var matched, _ := PatternMatcher.MatchLinear(pattern, candidates[i].text);
        if matched {
          keys := keys + [candidates[i]];
        }
      }
    }

    method KeysForTag(t: Tag) returns (keys: set<Key>)
      requires Valid()
      ensures forall k :: k in keys <==> t in TagsOf(k)
    {
      keys := if t in tagToKeys then tagToKeys[t] else {};
      forall k
        ensures k in keys <==> t in TagsOf(k)
      {
        assert Paired(t, k);
      }
    }

    method TagsForKey(k: Key) returns (tags: set<Tag>)
      requires Valid()
      ensures forall t :: t in tags <==> k in KeysOf(t)
    {
      tags := if k in keyToTags then keyToTags[k] else {};
      forall t
        ensures t in tags <==> k in KeysOf(t)
      {
        assert Paired(t, k);
      }
    }

    /** No dead branches, globally: every node lies on the path of some known key. */
    lemma EveryNodeLeadsToAKey(p: Path) returns (k: Key)
      requires Valid() && p in nodes && knownKeys.vals != map[]
      ensures k in knownKeys.vals && p <= k.text
    {
      if p == [] {
        var j :| j in knownKeys.vals;
        k := j;
      } else {
        k := DeepestKey(p, nodes.Keys);
      }
    }

    lemma {:induction false} DeepestKey(p: Path, unseen: set<Path>) returns (k: Key)
      requires Valid() && p in nodes && p != []
      requires forall q :: q in nodes && p <= q ==> q in unseen
      ensures k in knownKeys.vals && p <= k.text
      decreases unseen
    {
      assert Alive(p);
      if nodes[p].terminal {
        assert TerminalIsKnown(p, knownKeys.vals);
        k := Key(p);
      } else {
        var c :| c in nodes[p].children;
        assert ChildLeads(p, c);
        assert p <= p;
        forall q | q in nodes && p + [c] <= q
          ensures q in unseen - {p}
        {
          PrefixIsTransitive(p, c, q);
        }
        k := DeepestKey(p + [c], unseen - {p});
        PrefixIsTransitive(p, c, k.text);
      }
    }
  }
}
