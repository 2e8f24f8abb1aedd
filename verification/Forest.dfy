/**
 Link maps that only ever gain a fresh node pointing at an old one: the shape of
 both the parent links and the predecessor links of the schema registry.
 */
module Forest {
  import opened Base

  type Links = map<Uid, Uid>

  /** `depth` counts the links from each node to its root, at most `bound`. */
  datatype Graph = Graph(nodes: set<Uid>, links: Links, depth: map<Uid, nat>, bound: nat)

  ghost predicate IsForest(g: Graph) {
    && g.depth.Keys == g.nodes && g.links.Keys <= g.nodes
    && (forall u :: u in g.links ==> g.links[u] in g.nodes && g.depth[u] == g.depth[g.links[u]] + 1)
    && (forall u :: u in g.nodes ==> g.depth[u] <= g.bound && (u !in g.links ==> g.depth[u] == 0))
  }

  /** The node and its ancestors, up to the root. */
  ghost function Chain(g: Graph, u: Uid): seq<Uid>
    requires IsForest(g) && u in g.nodes
    decreases g.depth[u]
  {
    if u in g.links then [u] + Chain(g, g.links[u]) else [u]
  }

  /** `c` starts at `u`, follows the links, and ends where there are none. */
  ghost predicate Follows(links: Links, u: Uid, c: seq<Uid>) {
    && c != [] && c[0] == u && c[|c| - 1] !in links
    && forall i :: 0 <= i < |c| - 1 ==> c[i] in links && links[c[i]] == c[i + 1]
  }

  /** A chain is as long as its depth says, ends at a root, follows the links,
      stays within the nodes, and never meets a node twice. */
  lemma {:induction false} ChainShape(g: Graph, u: Uid)
    requires IsForest(g) && u in g.nodes
    ensures var c := Chain(g, u);
            && |c| == g.depth[u] + 1 <= g.bound + 1 && Follows(g.links, u, c) && Distinct(c)
            && (forall i :: 0 <= i < |c| ==> c[i] in g.nodes && g.depth[c[i]] == g.depth[u] - i)
    decreases g.depth[u]
  {
    if u in g.links {
      ChainShape(g, g.links[u]);
      var rest := Chain(g, g.links[u]);
      var c := Chain(g, u);
      assert forall i :: 0 < i < |c| ==> c[i] == rest[i - 1];
    }
  }

  /** Following the links, however far, never leads back. */
  lemma NoCycle(g: Graph, path: seq<Uid>)
    requires IsForest(g) && |path| > 1
    requires forall i :: 0 <= i < |path| - 1 ==> path[i] in g.links && g.links[path[i]] == path[i + 1]
    ensures path[|path| - 1] != path[0]
  {
    DepthFalls(g, path, |path| - 1);
  }

  lemma {:induction false} DepthFalls(g: Graph, path: seq<Uid>, n: nat)
    requires IsForest(g) && n < |path| && path[0] in g.nodes
    requires forall i :: 0 <= i < |path| - 1 ==> path[i] in g.links && g.links[path[i]] == path[i + 1]
    ensures path[n] in g.nodes && g.depth[path[n]] == g.depth[path[0]] - n
  {
    if n > 0 {
      DepthFalls(g, path, n - 1);
      assert g.links[path[n - 1]] == path[n];
    }
  }

  function Linked(links: Links, u: Uid, up: Option<Uid>): Links {
    if up.Some? then links[u := up.value] else links
  }

  /** A fresh node: a root, or a child of `up`. */
  ghost function Grown(g: Graph, u: Uid, up: Option<Uid>): Graph {
    var below := if up.Some? then Get(g.depth, up.value).GetOr(0) + 1 else 0;
    Graph(g.nodes + {u}, Linked(g.links, u, up), g.depth[u := below], g.bound)
  }

  /** There is room for a link to `up`. */
  ghost predicate Room(g: Graph, up: Option<Uid>) {
    up.Some? ==> up.value in g.nodes && up.value in g.depth && g.depth[up.value] < g.bound
  }

  /** There is room below a node exactly when its chain is not full. */
  lemma RoomIsShortChain(g: Graph, u: Uid)
    requires IsForest(g) && u in g.nodes
    ensures Room(g, Some(u)) <==> |Chain(g, u)| <= g.bound
  {
    ChainShape(g, u);
  }

  lemma GrownForest(g: Graph, u: Uid, up: Option<Uid>)
    requires IsForest(g) && u !in g.nodes && Room(g, up)
    ensures IsForest(Grown(g, u, up))
  {}

  /** Growing leaves every older chain alone. */
  lemma {:induction false} ChainStays(g: Graph, u: Uid, up: Option<Uid>, v: Uid)
    requires IsForest(g) && u !in g.nodes && (up.Some? ==> up.value in g.nodes) && v in g.nodes
    requires IsForest(Grown(g, u, up))
    ensures Chain(Grown(g, u, up), v) == Chain(g, v)
    decreases g.depth[v]
  {
    if v in g.links {
      ChainStays(g, u, up, g.links[v]);
    }
  }

  /** The new node's chain is itself and then the chain it was attached to. */
  lemma NewChain(g: Graph, u: Uid, up: Option<Uid>)
    requires IsForest(g) && u !in g.nodes && (up.Some? ==> up.value in g.nodes)
    requires IsForest(Grown(g, u, up))
    ensures Chain(Grown(g, u, up), u) == [u] + (if up.Some? then Chain(g, up.value) else [])
  {
    if up.Some? {
      ChainStays(g, u, up, up.value);
    }
  }

  /** `n` links up from `u`, if there are so many. */
  function Up(links: Links, u: Uid, n: nat): Option<Uid> {
    if n == 0 then Some(u)
    else match Up(links, u, n - 1)
         case Some(v) => Get(links, v)
         case None => None
  }

  lemma {:induction false} UpReads(links: Links, c: seq<Uid>, n: nat)
    requires c != [] && Follows(links, c[0], c)
    ensures Up(links, c[0], n) == if n < |c| then Some(c[n]) else None
  {
    if n > 0 {
      UpReads(links, c, n - 1);
      assert n < |c| ==> links[c[n - 1]] == c[n];
    }
  }

  /** In a forest, `Up` reads the chain. */
  lemma UpIsChain(g: Graph, u: Uid, n: nat)
    requires IsForest(g) && u in g.nodes
    ensures Up(g.links, u, n) == if n < |Chain(g, u)| then Some(Chain(g, u)[n]) else None
  {
    ChainShape(g, u);
    UpReads(g.links, Chain(g, u), n);
  }
}
