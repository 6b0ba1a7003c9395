/** Undirected graphs as adjacency maps, and a breadth-first search proved to return a shortest path. */
module Graph {
  type Node = string

  /** `graph[u][v]` is the data of the edge between `u` and `v`. */
  type Graph<E> = map<Node, map<Node, E>>

  predicate HasEdge<E>(g: Graph<E>, u: Node, v: Node) {
    u in g && v in g[u]
  }

  /** Every neighbour is a node. */
  ghost predicate Closed<E>(g: Graph<E>) {
    forall u, v :: HasEdge(g, u, v) ==> v in g
  }

  /** One hop, or standing still. */
  predicate Hop<E>(g: Graph<E>, u: Node, v: Node) {
    u == v || HasEdge(g, u, v)
  }

  /** A walk that may also stand still. */
  ghost predicate LazyWalk<E>(g: Graph<E>, p: seq<Node>, src: Node, tgt: Node) {
    p != [] && p[0] == src && p[|p| - 1] == tgt && forall i :: 0 <= i < |p| - 1 ==> Hop(g, p[i], p[i + 1])
  }

  ghost predicate Walk<E>(g: Graph<E>, p: seq<Node>, src: Node, tgt: Node) {
    p != [] && p[0] == src && p[|p| - 1] == tgt && forall i :: 0 <= i < |p| - 1 ==> HasEdge(g, p[i], p[i + 1])
  }

  /** Every node but the source has a parent one level up. */
  ghost predicate Tree<E>(g: Graph<E>, src: Node, level: map<Node, nat>, parent: map<Node, Node>) {
    && src in level && level[src] == 0
    && forall v :: v in level && v != src ==>
         v in parent && parent[v] in level && HasEdge(g, parent[v], v) && level[v] == level[parent[v]] + 1
  }

  /** Nodes found so far are either finished, all their neighbours found at most one level down, or
      waiting in the queue, on levels `d` and `d + 1`, in order. */
  ghost predicate Frontier<E>(g: Graph<E>, level: map<Node, nat>, done: set<Node>, queue: seq<Node>, d: nat) {
    && (forall v :: v in level <==> v in done || v in queue)
    && (forall v :: v in done ==> v !in queue && level[v] <= d)
    && (forall i :: 0 <= i < |queue| ==> d <= level[queue[i]] <= d + 1)
    && (forall i, j :: 0 <= i < j < |queue| ==> queue[i] != queue[j] && level[queue[i]] <= level[queue[j]])
    && (forall u, v :: u in done && HasEdge(g, u, v) ==> v in level && level[v] <= level[u] + 1)
  }

  /** Along any walk from the source, the k-th node is finished and on level at most k, or k has already
      reached the level of the head of the queue. */
  lemma {:induction false} WalkLevels<E>(g: Graph<E>, src: Node, level: map<Node, nat>, done: set<Node>,
                                         queue: seq<Node>,
                                         d: nat, p: seq<Node>, k: nat)
    requires src in level && level[src] == 0 && Frontier(g, level, done, queue, d)
    requires k < |p| && p[0] == src && forall i :: 0 <= i < |p| - 1 ==> Hop(g, p[i], p[i + 1])
    ensures (p[k] in done && level[p[k]] <= k) || (queue != [] && level[queue[0]] <= k)
  {
    if k > 0 {
      WalkLevels(g, src, level, done, queue, d, p, k - 1);
      assert Hop(g, p[k - 1], p[k - 1 + 1]);
    }
  }

  lemma ShortestAtHead<E>(g: Graph<E>, src: Node, tgt: Node, level: map<Node, nat>, done: set<Node>,
                          queue: seq<Node>, d: nat)
    requires src in level && level[src] == 0 && Frontier(g, level, done, queue, d)
    requires queue != [] && queue[0] == tgt
    ensures forall p :: LazyWalk(g, p, src, tgt) ==> level[tgt] + 1 <= |p|
  {
    forall p | LazyWalk(g, p, src, tgt) ensures level[tgt] + 1 <= |p| {
      WalkLevels(g, src, level, done, queue, d, p, |p| - 1);
    }
  }

  lemma NoWalkWhenExhausted<E>(g: Graph<E>, src: Node, tgt: Node, level: map<Node, nat>, done: set<Node>, d: nat)
    requires src in level && level[src] == 0 && Frontier(g, level, done, [], d) && tgt !in done
    ensures forall p :: !LazyWalk(g, p, src, tgt)
  {
    forall p ensures !LazyWalk(g, p, src, tgt) {
      if LazyWalk(g, p, src, tgt) {
        WalkLevels(g, src, level, done, [], d, p, |p| - 1);
      }
    }
  }

  /** Follow the parents back from `tgt`. */
  method PathBack<E>(g: Graph<E>, src: Node, tgt: Node, level: map<Node, nat>, parent: map<Node, Node>)
    returns (path: seq<Node>)
    requires Tree(g, src, level, parent) && tgt in level
    ensures Walk(g, path, src, tgt) && |path| == level[tgt] + 1
    ensures forall i, j :: 0 <= i < j < |path| ==> path[i] != path[j]
  {
    path := [tgt];
    while path[0] != src
      invariant path != [] && path[|path| - 1] == tgt && path[0] in level
      invariant forall i :: 0 <= i < |path| ==> path[i] in level && level[path[i]] == level[path[0]] + i
      invariant forall i :: 0 <= i < |path| - 1 ==> HasEdge(g, path[i], path[i + 1])
      decreases level[path[0]]
    {
      path := [parent[path[0]]] + path;
    }
  }

  /** The frontier while the neighbours of `u` are being entered; those in `todo` are still to come. */
  ghost predicate Visiting<E>(g: Graph<E>, level: map<Node, nat>, done: set<Node>, queue: seq<Node>, u: Node,
                              todo: set<Node>) {
    && u in level && u in g && u !in done && u !in queue
    && (forall v :: v in level <==> v in done || v == u || v in queue)
    && (forall v :: v in done ==> v !in queue && level[v] <= level[u])
    && (forall i :: 0 <= i < |queue| ==> level[u] <= level[queue[i]] <= level[u] + 1)
    && (forall i, j :: 0 <= i < j < |queue| ==> queue[i] != queue[j] && level[queue[i]] <= level[queue[j]])
    && (forall x, v :: x in done && HasEdge(g, x, v) ==> v in level && level[v] <= level[x] + 1)
    && (forall v :: v in g[u] && v !in todo ==> v in level && level[v] <= level[u] + 1)
  }

  lemma StartsVisiting<E>(g: Graph<E>, level: map<Node, nat>, done: set<Node>, queue: seq<Node>, u: Node)
    requires u in level && u in g && Frontier(g, level, done, [u] + queue, level[u])
    ensures Visiting(g, level, done, queue, u, g[u].Keys)
  {
    var q := [u] + queue;
    assert q[0] == u && q[1..] == queue;
    assert forall i :: 0 <= i < |queue| ==> queue[i] == q[i + 1];
  }

  lemma EndsVisiting<E>(g: Graph<E>, level: map<Node, nat>, done: set<Node>, queue: seq<Node>, u: Node)
    requires Visiting(g, level, done, queue, u, {})
    ensures Frontier(g, level, done + {u}, queue, level[u])
  {
  }

  lemma EnterOne<E>(g: Graph<E>, level: map<Node, nat>, done: set<Node>, queue: seq<Node>, u: Node, todo: set<Node>,
                    v: Node)
    requires Visiting(g, level, done, queue, u, todo) && v !in level
    ensures Visiting(g, level[v := level[u] + 1], done, queue + [v], u, todo - {v})
  {
    var level', queue' := level[v := level[u] + 1], queue + [v];
    assert forall i :: 0 <= i < |queue'| ==> queue'[i] == if i < |queue| then queue[i] else v;
    assert forall i :: 0 <= i < |queue| ==> queue[i] in level;
    forall x ensures x in level' <==> x in done || x == u || x in queue' {
      assert x in queue' <==> x in queue || x == v;
    }
  }

  lemma TreeOne<E>(g: Graph<E>, src: Node, level: map<Node, nat>, parent: map<Node, Node>, u: Node, v: Node)
    requires Tree(g, src, level, parent) && u in level && v !in level && HasEdge(g, u, v)
    ensures Tree(g, src, level[v := level[u] + 1], parent[v := u])
  {
  }

  /** Enter the neighbours of `u` that were not seen before. */
  method Visit<E>(g: Graph<E>, src: Node, u: Node, level0: map<Node, nat>, parent0: map<Node, Node>,
                  ghost done: set<Node>,
                  queue0: seq<Node>)
    returns (level: map<Node, nat>, parent: map<Node, Node>, queue: seq<Node>)
    requires u in g && u in level0 && Closed(g) && level0.Keys <= g.Keys
    requires Tree(g, src, level0, parent0) && Frontier(g, level0, done, [u] + queue0, level0[u])
    ensures Tree(g, src, level, parent) && Frontier(g, level, done + {u}, queue, level0[u])
    ensures level.Keys <= g.Keys
  {
    hide Tree, Frontier, Visiting;
    StartsVisiting(g, level0, done, queue0, u);
    level, parent, queue := level0, parent0, queue0;
    var todo := g[u].Keys;
    while todo != {}
      invariant todo <= g[u].Keys
      invariant level.Keys <= g.Keys && u in level && level[u] == level0[u]
      invariant Tree(g, src, level, parent) && Visiting(g, level, done, queue, u, todo)
      decreases todo
    {
      var v :| v in todo;
      if v !in level {
        assert HasEdge(g, u, v);
        EnterOne(g, level, done, queue, u, todo, v);
        TreeOne(g, src, level, parent, u, v);
        level, parent, queue := level[v := level[u] + 1], parent[v := u], queue + [v];
      } else {
        SkipOne(g, level, done, queue, u, todo, v);
      }
      todo := todo - {v};
    }
    EndsVisiting(g, level, done, queue, u);
  }

  lemma SkipOne<E>(g: Graph<E>, level: map<Node, nat>, done: set<Node>, queue: seq<Node>, u: Node, todo: set<Node>,
                   v: Node)
    requires Visiting(g, level, done, queue, u, todo) && v in level
    ensures Visiting(g, level, done, queue, u, todo - {v})
  {
    if v in queue {
      var i :| 0 <= i < |queue| && queue[i] == v;
    }
  }

  /** Breadth-first search between two different nodes: the empty sequence when no walk joins them,
      otherwise a walk without repetition that no walk, lazy or not, undercuts. */
  method ShortestPath<E>(g: Graph<E>, src: Node, tgt: Node) returns (path: seq<Node>)
    requires Closed(g) && src != tgt
    ensures path == [] <==> forall p :: !LazyWalk(g, p, src, tgt)
    ensures path != [] ==> Walk(g, path, src, tgt)
    ensures path != [] ==> forall i, j :: 0 <= i < j < |path| ==> path[i] != path[j]
    ensures path != [] ==> forall p :: LazyWalk(g, p, src, tgt) ==> |path| <= |p|
  {
    if src !in g {
      IsolatedSource(g, src, tgt);
      return [];
    }
    var level: map<Node, nat>, parent: map<Node, Node>, queue := map[src := 0], map[], [src];
    ghost var done: set<Node>, d := {}, 0;
    while queue != []
      invariant level.Keys <= g.Keys && done <= g.Keys && tgt !in done
      invariant Tree(g, src, level, parent)
      invariant Frontier(g, level, done, queue, d)
      decreases g.Keys - done
    {
      var u := queue[0];
      if u == tgt {
        ShortestAtHead(g, src, tgt, level, done, queue, d);
        path := PathBack(g, src, tgt, level, parent);
        assert LazyWalk(g, path, src, tgt);
        return;
      }
      assert queue == [u] + queue[1..];
      d := level[u];
      level, parent, queue := Visit(g, src, u, level, parent, done, queue[1..]);
      done := done + {u};
    }
    NoWalkWhenExhausted(g, src, tgt, level, done, d);
    path := [];
  }

  /** A node without edges leads nowhere. */
  lemma IsolatedSource<E>(g: Graph<E>, src: Node, tgt: Node)
    requires src !in g && src != tgt
    ensures forall p :: !LazyWalk(g, p, src, tgt)
  {
    forall p ensures !LazyWalk(g, p, src, tgt) {
      if LazyWalk(g, p, src, tgt) {
        StaysPut(g, p, src, |p| - 1);
      }
    }
  }

  lemma {:induction false} StaysPut<E>(g: Graph<E>, p: seq<Node>, src: Node, k: nat)
    requires src !in g && k < |p| && p[0] == src && forall i :: 0 <= i < |p| - 1 ==> Hop(g, p[i], p[i + 1])
    ensures p[k] == src
  {
    if k > 0 {
      StaysPut(g, p, src, k - 1);
      assert Hop(g, p[k - 1], p[k - 1 + 1]);
    }
  }
}
