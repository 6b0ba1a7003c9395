/** The topology service: a cached graph of the active links, and shortest paths on it. */
module Topology {
  import opened Wrappers
  import opened Graph

  datatype LinkStatus = Active | Inactive | Planned

  datatype Link = Link(id: string, source: nat, target: nat, linkType: string, speed: Option<int>, status: LinkStatus)

  /** The two tables the graph is built from: links in the order the query returns them, and the device
      of each interface. */
  datatype Db = Db(links: seq<Link>, devices: map<nat, Node>)

  datatype Edge = Edge(linkId: string, linkType: string, speed: Option<int>, status: LinkStatus)

  datatype Hops = Hops(from: Node, to: Node, link: Option<Edge>)

  datatype PathResult = PathResult(from: Node, to: Node, hopCount: int, devices: seq<Node>, reachable: bool,
    edges: seq<Hops>)

  function EdgeOf(l: Link): Edge {
    Edge(l.id, l.linkType, l.speed, l.status)
  }

  /** The link is not inactive and runs between the two devices, in either direction. */
  predicate Joins(db: Db, l: Link, u: Node, v: Node) {
    && l.status != Inactive && l.source in db.devices && l.target in db.devices
    && ((db.devices[l.source] == u && db.devices[l.target] == v) || (db.devices[l.source] ==
         v && db.devices[l.target] == u))
  }

  /** The last link, in query order, that joins the two devices. */
  function LastJoin(db: Db, links: seq<Link>, u: Node, v: Node): (last: Option<Link>)
    ensures last == None <==> forall i :: 0 <= i < |links| ==> !Joins(db, links[i], u, v)
    ensures last != None ==> last.value in links && Joins(db, last.value, u, v)
  {
    if links == [] then None
    else if Joins(db, links[|links| - 1], u, v) then Some(links[|links| - 1])
    else LastJoin(db, links[..|links| - 1], u, v)
  }

  /** It stands at some position, after which no link joins the two. */
  lemma {:induction false} LastJoinIsLast(db: Db, links: seq<Link>, u: Node, v: Node) returns (i: nat)
    requires LastJoin(db, links, u, v) != None
    ensures i < |links| && LastJoin(db, links, u, v) == Some(links[i]) && Joins(db, links[i], u, v)
    ensures forall j :: i < j < |links| ==> !Joins(db, links[j], u, v)
  {
    hide Joins;
    i := |links| - 1;
    if !Joins(db, links[i], u, v) {
      i := LastJoinIsLast(db, links[..|links| - 1], u, v);
    }
  }

  ghost predicate Linked(db: Db, u: Node, v: Node) {
    exists i :: 0 <= i < |db.links| && Joins(db, db.links[i], u, v)
  }

  /** A walk over links that are not inactive. */
  ghost predicate LinkWalk(db: Db, p: seq<Node>, src: Node, tgt: Node) {
    p != [] && p[0] == src && p[|p| - 1] == tgt && forall i :: 0 <= i < |p| - 1 ==> Linked(db, p[i], p[i + 1])
  }

  /** The graph of a link table: one edge per joined pair of different devices, carrying the data of
      the last link that joins them. */
  ghost predicate Represents(g: Graph<Edge>, db: Db, links: seq<Link>) {
    && (forall u, v :: HasEdge(g, u, v) <==> u != v && LastJoin(db, links, u, v) != None)
    && (forall u, v :: HasEdge(g, u, v) ==> g[u][v] == EdgeOf(LastJoin(db, links, u, v).value))
    && (forall u :: u in g ==> g[u] != map[])
  }

  /** `g.add_edge(u, v, **data)`. */
  function AddEdge(g: Graph<Edge>, u: Node, v: Node, e: Edge): Graph<Edge> {
    var g1 := g[u := (if u in g then g[u] else map[])[v := e]];
    g1[v := (if v in g1 then g1[v] else map[])[u := e]]
  }

  lemma AddEdgeReads(g: Graph<Edge>, u: Node, v: Node, e: Edge)
    requires u != v
    ensures
      var g' := AddEdge(g, u, v, e);
      && (forall x, y :: HasEdge(g', x, y) <==> HasEdge(g, x, y) || (x == u && y == v) || (x == v && y == u))
      && (forall x, y :: HasEdge(g', x, y) ==>
            g'[x][y] == if (x == u && y == v) || (x == v && y == u) then e else g[x][y])
      && ((forall x :: x in g ==> g[x] != map[]) ==> forall x :: x in g' ==> g'[x] != map[])
  {
    var g' := AddEdge(g, u, v, e);
    assert v in g'[u] && u in g'[v];
  }

  lemma LastJoinOneMore(db: Db, links: seq<Link>, l: Link, u: Node, v: Node)
    ensures LastJoin(db, links + [l], u, v) == if Joins(db, l, u, v) then Some(l) else LastJoin(db, links, u, v)
  {
    assert (links + [l])[..|links|] == links;
  }

  /** One more row of the query. */
  lemma RepresentsOneMore(g: Graph<Edge>, db: Db, links: seq<Link>, l: Link)
    requires Represents(g, db, links)
    requires l.status != Inactive && l.source in db.devices && l.target in db.devices
    requires db.devices[l.source] != db.devices[l.target]
    ensures Represents(AddEdge(g, db.devices[l.source], db.devices[l.target], EdgeOf(l)), db, links + [l])
  {
    hide LastJoin, AddEdge, HasEdge;
    AddEdgeReads(g, db.devices[l.source], db.devices[l.target], EdgeOf(l));
    forall u, v
      ensures LastJoin(db, links + [l], u, v) == if Joins(db, l, u, v) then Some(l) else LastJoin(db, links, u, v)
    {
      LastJoinOneMore(db, links, l, u, v);
    }
  }

  /** A row that is filtered out, or a link between two interfaces of one device. */
  lemma RepresentsSkipped(g: Graph<Edge>, db: Db, links: seq<Link>, l: Link)
    requires Represents(g, db, links)
    requires forall u, v :: Joins(db, l, u, v) ==> u == v
    ensures Represents(g, db, links + [l])
  {
    hide LastJoin;
    forall u, v | u != v ensures LastJoin(db, links + [l], u, v) == LastJoin(db, links, u, v) {
      LastJoinOneMore(db, links, l, u, v);
    }
  }

  lemma NeighboursAgree(g: Graph<Edge>, h: Graph<Edge>, db: Db, u: Node)
    requires Represents(g, db, db.links) && Represents(h, db, db.links) && u in g
    ensures u in h && forall w :: w in g[u] ==> w in h[u] && h[u][w] == g[u][w]
  {
    hide LastJoin;
    forall w | w in g[u] ensures u in h && w in h[u] && h[u][w] == g[u][w] {
      assert HasEdge(g, u, w) && HasEdge(h, u, w);
    }
    var v :| v in g[u];
  }

  /** A link table determines its graph. */
  lemma RepresentsIsUnique(g: Graph<Edge>, h: Graph<Edge>, db: Db)
    requires Represents(g, db, db.links) && Represents(h, db, db.links)
    ensures g == h
  {
    hide Represents, LastJoin, HasEdge;
    forall u | u in g ensures u in h && g[u] == h[u] {
      NeighboursAgree(g, h, db, u);
      NeighboursAgree(h, g, db, u);
    }
    forall u | u in h ensures u in g {
      NeighboursAgree(h, g, db, u);
    }
  }

  lemma RepresentsIsClosed(g: Graph<Edge>, db: Db)
    requires Represents(g, db, db.links)
    ensures Closed(g)
  {
    hide LastJoin;
    forall u, v | HasEdge(g, u, v) ensures v in g {
      var l := LastJoin(db, db.links, u, v).value;
      var i :| 0 <= i < |db.links| && db.links[i] == l;
      assert Joins(db, l, v, u);
      assert HasEdge(g, v, u);
    }
  }

  /** Walks over links, which may loop at a device, are the lazy walks of the graph. */
  lemma LinkWalkIsLazyWalk(g: Graph<Edge>, db: Db, p: seq<Node>, src: Node, tgt: Node)
    requires Represents(g, db, db.links) && LinkWalk(db, p, src, tgt)
    ensures LazyWalk(g, p, src, tgt)
  {
    forall i | 0 <= i < |p| - 1 ensures Hop(g, p[i], p[i + 1]) {
      assert Linked(db, p[i], p[i + 1]);
    }
  }

  lemma WalkIsLinkWalk(g: Graph<Edge>, db: Db, p: seq<Node>, src: Node, tgt: Node)
    requires Represents(g, db, db.links) && Walk(g, p, src, tgt)
    ensures LinkWalk(db, p, src, tgt)
  {
    hide LastJoin, Joins, EdgeOf;
    forall i | 0 <= i < |p| - 1 ensures Linked(db, p[i], p[i + 1]) {
      assert HasEdge(g, p[i], p[i + 1]);
      var l := LastJoin(db, db.links, p[i], p[i + 1]).value;
      var j :| 0 <= j < |db.links| && db.links[j] == l;
    }
  }

  /** What `get_path` has to answer for a link table. */
  ghost predicate Answers(r: PathResult, db: Db, src: Node, tgt: Node) {
    && r.from == src && r.to == tgt
    && (r.reachable <==> src == tgt || exists p :: LinkWalk(db, p, src, tgt))
    && (!r.reachable ==> r.hopCount == -1 && r.devices == [] && r.edges == [])
    && (r.reachable ==>
          && r.hopCount == |r.devices| - 1 == |r.edges|
          && LinkWalk(db, r.devices, src, tgt)
          && (forall i, j :: 0 <= i < j < |r.devices| ==> r.devices[i] != r.devices[j])
          && (forall p :: LinkWalk(db, p, src, tgt) ==> r.hopCount <= |p| - 1)
          && (forall i :: 0 <= i < |r.edges| ==> Reports(db, r.edges[i], r.devices[i], r.devices[i + 1])))
  }

  /** The hop runs from `u` to `v` and carries the data of the last link, in query order, that joins them. */
  ghost predicate Reports(db: Db, hop: Hops, u: Node, v: Node) {
    && hop.from == u && hop.to == v && hop.link != None
    && exists i :: 0 <= i < |db.links| && IsLastJoin(db, i, u, v)
                   && hop.link.value.linkId == db.links[i].id
                   && hop.link.value.linkType == db.links[i].linkType
                   && hop.link.value.speed == db.links[i].speed
                   && hop.link.value.status == db.links[i].status
  }

  ghost predicate IsLastJoin(db: Db, i: int, u: Node, v: Node)
    requires 0 <= i < |db.links|
  {
    Joins(db, db.links[i], u, v) && forall j :: i < j < |db.links| ==> !Joins(db, db.links[j], u, v)
  }

  lemma EdgeReports(db: Db, u: Node, v: Node)
    requires LastJoin(db, db.links, u, v) != None
    ensures Reports(db, Hops(u, v, Some(EdgeOf(LastJoin(db, db.links, u, v).value))), u, v)
  {
    var i := LastJoinIsLast(db, db.links, u, v);
    assert IsLastJoin(db, i, u, v);
  }

  /** Edges run between different joined devices, and carry their last link's data. */
  lemma EdgesReport(g: Graph<Edge>, db: Db)
    requires Represents(g, db, db.links)
    ensures forall u, v :: HasEdge(g, u, v) <==> u != v && Linked(db, u, v)
    ensures forall u, v :: HasEdge(g, u, v) ==> Reports(db, Hops(u, v, Some(g[u][v])), u, v)
  {
    hide Reports, EdgeOf;
    forall u, v | HasEdge(g, u, v) ensures Reports(db, Hops(u, v, Some(g[u][v])), u, v) {
      EdgeReports(db, u, v);
    }
  }

  lemma OneEdgeReports(g: Graph<Edge>, db: Db, u: Node, v: Node)
    requires Represents(g, db, db.links) && HasEdge(g, u, v)
    ensures Reports(db, Hops(u, v, Some(g[u][v])), u, v)
  {
    EdgesReport(g, db);
  }

  class TopologyService {
    var graph: Graph<Edge>
    var dirty: bool
    // The link table the cached graph was built from.
    ghost var source: Db

    ghost predicate Valid()
      reads this
    {
      Represents(graph, source, source.links)
    }

    constructor ()
      ensures Valid() && dirty
    {
      graph := map[];
      dirty := true;
      source := Db([], map[]);
    }

    method MarkDirty()
      modifies this`dirty
      ensures dirty
    {
      dirty := true;
    }

    method Rebuild(db: Db)
      modifies this
      ensures Valid() && !dirty && source == db
      ensures forall u, v :: HasEdge(graph, u, v) <==> u != v && Linked(db, u, v)
      ensures forall u, v :: HasEdge(graph, u, v) ==> Reports(db, Hops(u, v, Some(graph[u][v])), u, v)
    {
      hide Reports, LastJoin, EdgeOf, AddEdge;
      var g: Graph<Edge> := map[];
      for i := 0 to |db.links|
        invariant Represents(g, db, db.links[..i])
      {
        var l := db.links[i];
        assert db.links[..i + 1] == db.links[..i] + [l];
        // the inner joins and the status filter of the query
        if l.status == Inactive || l.source !in db.devices || l.target !in db.devices {
          RepresentsSkipped(g, db, db.links[..i], l);
          continue;
        }
        var src, tgt := db.devices[l.source], db.devices[l.target];
        if src == tgt {
          RepresentsSkipped(g, db, db.links[..i], l);
          continue;
        }
        RepresentsOneMore(g, db, db.links[..i], l);
        g := AddEdge(g, src, tgt, EdgeOf(l));
      }
      assert db.links[..|db.links|] == db.links;
      graph := g;
      dirty := false;
      source := db;
      EdgesReport(g, db);
    }

    /** The answer is exact for the link table the cached graph was built from, which is the current
        one whenever the flag was set. */
    method GetPath(db: Db, src: Node, tgt: Node) returns (r: PathResult)
      requires Valid()
      modifies this
      ensures Valid() && !dirty
      ensures source == if old(dirty) then db else old(source)
      ensures Answers(r, source, src, tgt)
    {
      if dirty {
        Rebuild(db);
      }
      if src == tgt {
        assert LinkWalk(source, [src], src, tgt);
        return PathResult(src, tgt, 0, [src], true, []);
      }
      RepresentsIsClosed(graph, source);
      var path := ShortestPath(graph, src, tgt);
      forall p | LinkWalk(source, p, src, tgt) ensures LazyWalk(graph, p, src, tgt) {
        LinkWalkIsLazyWalk(graph, source, p, src, tgt);
      }
      if path == [] {
        return PathResult(src, tgt, -1, [], false, []);
      }
      WalkIsLinkWalk(graph, source, path, src, tgt);
      var edges := CollectEdges(path, src, tgt);
      r := PathResult(src, tgt, |path| - 1, path, true, edges);
    }

    /** Edge data of each hop. */
    method CollectEdges(path: seq<Node>, src: Node, tgt: Node) returns (edges: seq<Hops>)
      requires Valid() && Walk(graph, path, src, tgt)
      ensures |edges| == |path| - 1
      ensures forall i :: 0 <= i < |edges| ==> Reports(source, edges[i], path[i], path[i + 1])
    {
      hide Reports, Represents;
      edges := [];
      for i := 0 to |path| - 1
        invariant |edges| == i
        invariant forall k :: 0 <= k < i ==> Reports(source, edges[k], path[k], path[k + 1])
      {
        var u, v := path[i], path[i + 1];
        assert HasEdge(graph, u, v);
        OneEdgeReports(graph, source, u, v);
        edges := edges + [Hops(u, v, if u in graph && v in graph[u] then Some(graph[u][v]) else None)];
      }
    }
  }
}
