/** Layers of a finite directed graph, and the invariant of a breadth-first search that stops at a depth cap. */
module BreadthFirst {
  type Graph<K> = map<K, set<K>>

  type Frontier<K> = seq<(K, nat)>

  function Next<K>(g: Graph<K>, p: K): set<K> {
    if p in g then g[p] else {}
  }

  ghost function NextOf<K>(g: Graph<K>, from: set<K>): set<K> {
    set p, c | p in from && c in Next(g, p) :: c
  }

  /** The nodes at most `d` steps from the root. */
  ghost function Within<K>(g: Graph<K>, root: K, d: nat): set<K> {
    if d == 0 then {root}
    else Within(g, root, d - 1) + NextOf(g, Within(g, root, d - 1))
  }

  /** The nodes whose shortest distance from the root is exactly `d`. */
  ghost function Layer<K>(g: Graph<K>, root: K, d: nat): set<K> {
    if d == 0 then {root} else Within(g, root, d) - Within(g, root, d - 1)
  }

  ghost predicate Path<K>(g: Graph<K>, path: seq<K>) {
    && 0 < |path|
    && forall i {:trigger path[i]} :: 0 < i < |path| ==> path[i] in Next(g, path[i - 1])
  }

  lemma WithinStep<K>(g: Graph<K>, root: K, d: nat, p: K, c: K)
    requires p in Within(g, root, d) && c in Next(g, p)
    ensures c in Within(g, root, d + 1)
  {
  }

  lemma {:induction false} WithinGrows<K>(g: Graph<K>, root: K, d: nat, e: nat)
    requires d <= e
    ensures root in Within(g, root, d)
    ensures Within(g, root, d) <= Within(g, root, e)
  {
    if d < e {
      WithinGrows(g, root, d, e - 1);
    } else if 0 < d {
      WithinGrows(g, root, d - 1, d - 1);
    }
  }

  /** Every node other than the root is entered by an edge. */
  lemma {:induction false} WithinIsEntered<K>(g: Graph<K>, root: K, d: nat, k: K)
    requires k in Within(g, root, d) && k != root
    ensures exists p :: p in g && k in g[p]
  {
    if k in Within(g, root, d - 1) {
      WithinIsEntered(g, root, d - 1, k);
    } else {
      var p :| p in Within(g, root, d - 1) && k in Next(g, p);
      assert p in g && k in g[p];
    }
  }

  lemma {:induction false} PathTo<K>(g: Graph<K>, root: K, d: nat, k: K) returns (path: seq<K>)
    requires k in Within(g, root, d)
    ensures Path(g, path) && path[0] == root && path[|path| - 1] == k && |path| <= d + 1
  {
    if d == 0 {
      path := [root];
    } else if k in Within(g, root, d - 1) {
      path := PathTo(g, root, d - 1, k);
    } else {
      var p :| p in Within(g, root, d - 1) && k in Next(g, p);
      var prefix := PathTo(g, root, d - 1, p);
      path := prefix + [k];
    }
  }

  lemma {:induction false} PathStaysWithin<K>(g: Graph<K>, path: seq<K>)
    requires Path(g, path)
    ensures path[|path| - 1] in Within(g, path[0], |path| - 1)
  {
    var n := |path| - 1;
    if 0 < n {
      var prefix := path[..n];
      assert path[n - 1] == prefix[n - 1];
      PathStaysWithin(g, prefix);
      WithinStep(g, path[0], n - 1, path[n - 1], path[n]);
    }
  }

  /** `Within` is exactly reachability by a path of bounded length. */
  lemma WithinIsBoundedReachability<K>(g: Graph<K>, root: K, d: nat, k: K)
    ensures k in Within(g, root, d) <==>
            exists path :: Path(g, path) && path[0] == root && path[|path| - 1] == k && |path| <= d + 1
  {
    if k in Within(g, root, d) {
      var path := PathTo(g, root, d, k);
    }
    if path :| Path(g, path) && path[0] == root && path[|path| - 1] == k && |path| <= d + 1 {
      PathStaysWithin(g, path);
      WithinGrows(g, root, |path| - 1, d);
    }
  }

  /** Once a layer is empty all later ones are: nothing lies at any greater distance. */
  lemma {:induction false} LayersSaturate<K>(g: Graph<K>, root: K, d: nat, e: nat)
    requires Layer(g, root, d + 1) == {} && d <= e
    ensures Within(g, root, e) == Within(g, root, d)
  {
    WithinGrows(g, root, d, d + 1);
    if d < e {
      LayersSaturate(g, root, d, e - 1);
      assert Within(g, root, d + 1) == Within(g, root, d);
    }
  }

  // ---------------------------------------------------------------- the search invariant

  ghost function KeysOf<K>(frontier: Frontier<K>): set<K> {
    set i | 0 <= i < |frontier| :: frontier[i].0
  }

  /** Recorded depths are the lengths of real paths, within the cap. */
  ghost predicate Sound<K>(g: Graph<K>, root: K, cap: nat, depth: map<K, nat>) {
    && root in depth && depth[root] == 0
    && forall k :: k in depth ==> depth[k] <= cap && k in Within(g, root, depth[k])
  }

  /** Every successor of a closed node above the cap has been seen, one level down at most. */
  ghost predicate Explored<K>(g: Graph<K>, cap: nat, depth: map<K, nat>, closed: set<K>) {
    forall p, c :: p in closed && p in depth && depth[p] < cap && c in Next(g, p)
                   ==> c in depth && depth[c] <= depth[p] + 1
  }

  /** The seen nodes are the closed ones and those of the frontier, which carries their recorded depths. */
  ghost predicate Keyed<K>(frontier: Frontier<K>, depth: map<K, nat>, closed: set<K>) {
    && depth.Keys == closed + KeysOf(frontier)
    && forall i :: 0 <= i < |frontier| ==> frontier[i].0 !in closed && depth[frontier[i].0] == frontier[i].1
  }

  /** The frontier holds no node twice and is sorted by depth. */
  ghost predicate Sorted<K>(frontier: Frontier<K>) {
    forall i, j :: 0 <= i < j < |frontier| ==> frontier[i].0 != frontier[j].0 && frontier[i].1 <= frontier[j].1
  }

  /** Closed nodes lie no deeper than `level`, the front of the frontier, and the rest of it at most one deeper. */
  ghost predicate Spread<K>(frontier: Frontier<K>, depth: map<K, nat>, closed: set<K>, level: nat) {
    && closed <= depth.Keys
    && (forall k :: k in closed ==> depth[k] <= level)
    && (forall i :: 0 <= i < |frontier| ==> level <= frontier[i].1 <= level + 1)
  }

  ghost predicate Queued<K>(frontier: Frontier<K>, depth: map<K, nat>, closed: set<K>) {
    && Keyed(frontier, depth, closed)
    && Sorted(frontier)
    && (0 < |frontier| ==> Spread(frontier, depth, closed, frontier[0].1))
  }

  ghost predicate Searching<K>(g: Graph<K>, root: K, cap: nat, frontier: Frontier<K>, depth: map<K, nat>, closed: set<K>) {
    && Sound(g, root, cap, depth)
    && Explored(g, cap, depth, closed)
    && Queued(frontier, depth, closed)
  }

  ghost function Extended<K>(depth: map<K, nat>, children: seq<K>, level: nat): map<K, nat> {
    depth + map c | c in children :: level
  }

  ghost function Entries<K>(children: seq<K>, level: nat): (r: Frontier<K>)
    ensures |r| == |children| && forall i :: 0 <= i < |r| ==> r[i] == (children[i], level)
  {
    seq(|children|, i requires 0 <= i < |children| => (children[i], level))
  }

  lemma StartSearch<K>(g: Graph<K>, root: K, cap: nat)
    ensures Searching(g, root, cap, [(root, 0)], map[root := 0], {})
  {
    var frontier: Frontier<K> := [(root, 0)];
    assert frontier[0] == (root, 0);
    assert KeysOf(frontier) == {root};
  }

  lemma DepthsNearFront<K>(frontier: Frontier<K>, depth: map<K, nat>, closed: set<K>)
    requires Queued(frontier, depth, closed) && 0 < |frontier|
    ensures frontier[0].0 in depth && frontier[0].0 !in closed && depth[frontier[0].0] == frontier[0].1
    ensures forall k :: k in depth ==> depth[k] <= frontier[0].1 + 1
  {
    FrontierIsSeen(frontier, depth, closed, 0);
  }

  lemma KeysOfConcat<K>(a: Frontier<K>, b: Frontier<K>)
    ensures KeysOf(a + b) == KeysOf(a) + KeysOf(b)
  {
    var ab := a + b;
    forall k | k in KeysOf(a) + KeysOf(b) ensures k in KeysOf(ab) {
      if k in KeysOf(a) {
        var i :| 0 <= i < |a| && a[i].0 == k;
        assert ab[i].0 == k;
      } else {
        var i :| 0 <= i < |b| && b[i].0 == k;
        assert ab[|a| + i].0 == k;
      }
    }
  }

  lemma EntriesConcat<K>(frontier: Frontier<K>, children: seq<K>, level: nat, i: nat)
    requires i < |frontier| + |children|
    ensures (frontier + Entries(children, level))[i]
            == if i < |frontier| then frontier[i] else (children[i - |frontier|], level)
  {
  }

  lemma KeysOfEntries<K>(children: seq<K>, level: nat)
    ensures KeysOf(Entries(children, level)) == set c | c in children
  {
    var entries := Entries(children, level);
    forall c | c in children ensures c in KeysOf(entries) {
      var i :| 0 <= i < |children| && children[i] == c;
      assert entries[i].0 == c;
    }
  }

  lemma QueueKeyed<K>(frontier: Frontier<K>, depth: map<K, nat>, closed: set<K>, children: seq<K>, level: nat)
    requires Keyed(frontier, depth, closed)
    requires forall c :: c in children ==> c !in depth
    ensures Keyed(frontier + Entries(children, level), Extended(depth, children, level), closed)
  {
    hide KeysOf, Entries;
    var longer, deeper := frontier + Entries(children, level), Extended(depth, children, level);
    KeysOfConcat(frontier, Entries(children, level));
    KeysOfEntries(children, level);
    assert deeper.Keys == closed + KeysOf(longer);
    forall i | 0 <= i < |longer|
      ensures longer[i].0 !in closed && longer[i].0 in deeper && deeper[longer[i].0] == longer[i].1
    {
      EntriesConcat(frontier, children, level, i);
      if i < |frontier| { FrontierIsSeen(frontier, depth, closed, i); }
    }
  }

  lemma FrontierIsSeen<K>(frontier: Frontier<K>, depth: map<K, nat>, closed: set<K>, i: nat)
    requires Keyed(frontier, depth, closed) && i < |frontier|
    ensures frontier[i].0 in depth && frontier[i].0 !in closed && depth[frontier[i].0] == frontier[i].1
  {
  }

  lemma QueueSorted<K>(frontier: Frontier<K>, depth: map<K, nat>, closed: set<K>, children: seq<K>, level: nat)
    requires Keyed(frontier, depth, closed) && Sorted(frontier)
    requires forall i :: 0 <= i < |frontier| ==> frontier[i].1 <= level
    requires forall c :: c in children ==> c !in depth
    requires forall i, j :: 0 <= i < j < |children| ==> children[i] != children[j]
    ensures Sorted(frontier + Entries(children, level))
  {
    hide Keyed, Entries;
    var longer := frontier + Entries(children, level);
    forall i, j | 0 <= i < j < |longer|
      ensures longer[i].0 != longer[j].0 && longer[i].1 <= longer[j].1
    {
      EntriesConcat(frontier, children, level, i);
      EntriesConcat(frontier, children, level, j);
      if i < |frontier| { FrontierIsSeen(frontier, depth, closed, i); }
    }
  }

  lemma QueueSpread<K>(frontier: Frontier<K>, depth: map<K, nat>, closed: set<K>, children: seq<K>, level: nat)
    requires Spread(frontier, depth, closed, level)
    requires forall c :: c in children ==> c !in depth
    ensures Spread(frontier + Entries(children, level + 1), Extended(depth, children, level + 1), closed, level)
  {
    var longer := frontier + Entries(children, level + 1);
    forall i | 0 <= i < |longer| ensures level <= longer[i].1 <= level + 1 {
      EntriesConcat(frontier, children, level + 1, i);
    }
  }

  lemma SoundAfterAppending<K>(g: Graph<K>, root: K, cap: nat, depth: map<K, nat>, p: K, children: seq<K>, level: nat)
    requires Sound(g, root, cap, depth) && p in depth && level == depth[p] + 1 <= cap
    requires forall c :: c in children ==> c !in depth && c in Next(g, p)
    ensures Sound(g, root, cap, Extended(depth, children, level))
  {
    hide Within;
    forall c | c in children ensures c in Within(g, root, level) {
      WithinStep(g, root, depth[p], p, c);
    }
  }

  lemma ExploredAfterAppending<K>(g: Graph<K>, cap: nat, depth: map<K, nat>, closed: set<K>, children: seq<K>, level: nat)
    requires Explored(g, cap, depth, closed) && closed <= depth.Keys
    requires forall c :: c in children ==> c !in depth
    ensures Explored(g, cap, Extended(depth, children, level), closed)
  {
    hide Next;
  }

  /** Appending unseen successors of the front node, one level below it, keeps the invariant. */
  lemma AppendChildren<K>(g: Graph<K>, root: K, cap: nat, frontier: Frontier<K>, depth: map<K, nat>, closed: set<K>,
                          children: seq<K>, level: nat)
    requires Searching(g, root, cap, frontier, depth, closed)
    requires 0 < |frontier| && level == frontier[0].1 + 1 <= cap
    requires forall c :: c in children ==> c !in depth && c in Next(g, frontier[0].0)
    requires forall i, j :: 0 <= i < j < |children| ==> children[i] != children[j]
    ensures Searching(g, root, cap, frontier + Entries(children, level), Extended(depth, children, level), closed)
  {
    hide Sound, Explored, Keyed, Sorted, Extended, Next;
    FrontierIsSeen(frontier, depth, closed, 0);
    SoundAfterAppending(g, root, cap, depth, frontier[0].0, children, level);
    ExploredAfterAppending(g, cap, depth, closed, children, level);
    QueueKeyed(frontier, depth, closed, children, level);
    QueueSorted(frontier, depth, closed, children, level);
    QueueSpread(frontier, depth, closed, children, level - 1);
    assert (frontier + Entries(children, level))[0] == frontier[0];
  }

  lemma ExploredAfterClosing<K>(g: Graph<K>, cap: nat, depth: map<K, nat>, closed: set<K>, p: K)
    requires Explored(g, cap, depth, closed) && p in depth
    requires depth[p] < cap ==> forall c :: c in Next(g, p) ==> c in depth && depth[c] <= depth[p] + 1
    ensures Explored(g, cap, depth, closed + {p})
  {
    hide Next;
  }

  lemma KeyedAfterClosing<K>(frontier: Frontier<K>, depth: map<K, nat>, closed: set<K>)
    requires Keyed(frontier, depth, closed) && Sorted(frontier) && 0 < |frontier|
    ensures Keyed(frontier[1..], depth, closed + {frontier[0].0})
  {
    var front, rest := frontier[..1], frontier[1..];
    assert frontier == front + rest;
    KeysOfConcat(front, rest);
    assert KeysOf(front) == {frontier[0].0} by { assert front[0] == frontier[0]; }
  }

  /** A front node whose successors have all been seen, or that sits at the cap, can be closed. */
  lemma CloseFront<K>(g: Graph<K>, root: K, cap: nat, frontier: Frontier<K>, depth: map<K, nat>, closed: set<K>)
    requires Searching(g, root, cap, frontier, depth, closed) && 0 < |frontier|
    requires frontier[0].1 < cap ==>
      forall c :: c in Next(g, frontier[0].0) ==> c in depth && depth[c] <= frontier[0].1 + 1
    ensures Searching(g, root, cap, frontier[1..], depth, closed + {frontier[0].0})
  {
    hide Sound, Explored, Keyed, Next;
    FrontierIsSeen(frontier, depth, closed, 0);
    ExploredAfterClosing(g, cap, depth, closed, frontier[0].0);
    KeyedAfterClosing(frontier, depth, closed);
  }

  /** With nothing left to visit, whatever lies within `d` was seen at depth at most `d`. */
  lemma {:induction false} SearchIsComplete<K>(g: Graph<K>, root: K, cap: nat, depth: map<K, nat>, d: nat)
    requires root in depth && depth[root] == 0 && Explored(g, cap, depth, depth.Keys) && d <= cap
    ensures forall k :: k in Within(g, root, d) ==> k in depth && depth[k] <= d
  {
    if 0 < d {
      SearchIsComplete(g, root, cap, depth, d - 1);
      forall k | k in Within(g, root, d) && k !in Within(g, root, d - 1)
        ensures k in depth && depth[k] <= d
      {
        var p :| p in Within(g, root, d - 1) && k in Next(g, p);
        assert p in depth && depth[p] < cap;
      }
    }
  }

  lemma SeenAtItsLayer<K>(g: Graph<K>, root: K, cap: nat, depth: map<K, nat>, k: K, d: nat)
    requires Sound(g, root, cap, depth) && Explored(g, cap, depth, depth.Keys) && k in depth
    ensures k in Layer(g, root, d) <==> d == depth[k]
  {
    hide Explored;
    assert k in Within(g, root, depth[k]);
    if d < depth[k] {
      SearchIsComplete(g, root, cap, depth, d);
    } else if depth[k] < d {
      WithinGrows(g, root, depth[k], d - 1);
    } else if 0 < d {
      SearchIsComplete(g, root, cap, depth, d - 1);
    }
  }

  /** A finished search has seen exactly the nodes within the cap, each at its shortest distance. */
  lemma FinishedSearch<K>(g: Graph<K>, root: K, cap: nat, depth: map<K, nat>, closed: set<K>)
    requires Searching(g, root, cap, [], depth, closed)
    ensures closed == depth.Keys == Within(g, root, cap)
    ensures forall k, d: nat :: k in depth ==> (k in Layer(g, root, d) <==> d == depth[k])
  {
    hide Within, Explored, Layer;
    assert closed == depth.Keys;
    SearchIsComplete(g, root, cap, depth, cap);
    forall k | k in depth ensures k in Within(g, root, cap) {
      WithinGrows(g, root, depth[k], cap);
    }
    forall k, d: nat | k in depth ensures k in Layer(g, root, d) <==> d == depth[k] {
      SeenAtItsLayer(g, root, cap, depth, k, d);
    }
  }
}
