/**
 * The social graph kept in the graph store (config/neo4j.js): one `User`
 * node per username and directed relationships between them. A Cypher
 * `CREATE` always adds a new relationship, so two nodes can be joined by
 * several relationships of the same type; the relationships are therefore a
 * multiset, and each query's effect is written as a multiset update.
 */
module ConnectionGraph {
  import opened Wrappers

  datatype EdgeKind = Requested | ConnectedTo

  /** A directed relationship `(from)-[:kind]->(to)`. */
  datatype Edge = Edge(from: string, to: string, kind: EdgeKind)

  datatype GraphError =
    | UserMissing   // a MATCH found no row, so `records[0]` is undefined and reading it throws
    | EdgeExists    // 'Connection or request already exists'

  /** Some relationship, of either type, goes from `from` to `to`. */
  predicate HasEdge(edges: multiset<Edge>, from: string, to: string)
  {
    Edge(from, to, Requested) in edges || Edge(from, to, ConnectedTo) in edges
  }

  /** `createConnectionRequest`: the check query, then one new REQUESTED relationship. */
  function RequestStep(nodes: set<string>, edges: multiset<Edge>, from: string, to: string): (r: Result<multiset<Edge>, GraphError>)
    ensures r == Err(UserMissing) <==> from !in nodes || to !in nodes
    ensures r == Err(EdgeExists) <==> from in nodes && to in nodes && HasEdge(edges, from, to)
    ensures r.Ok? ==> r.value == edges + multiset{Edge(from, to, Requested)}
  {
    if from !in nodes || to !in nodes then Err(UserMissing)
    else if HasEdge(edges, from, to) then Err(EdgeExists)
    else Ok(edges + multiset{Edge(from, to, Requested)})
  }

  /**
   * `acceptConnectionRequest`: every matched REQUESTED relationship from
   * `from` to `to` is deleted, and for each one a CONNECTED_TO pair is created.
   */
  function AcceptStep(edges: multiset<Edge>, from: string, to: string): (r: multiset<Edge>)
  {
    var k := edges[Edge(from, to, Requested)];
    var cleared := edges[Edge(from, to, Requested) := 0];
    var forward := cleared[Edge(from, to, ConnectedTo) := cleared[Edge(from, to, ConnectedTo)] + k];
    forward[Edge(to, from, ConnectedTo) := forward[Edge(to, from, ConnectedTo)] + k]
  }

  /**
   * `removeConnection`: the two MATCH clauses produce rows only when both
   * directions exist, and then every CONNECTED_TO between the two is deleted.
   */
  function RemoveStep(edges: multiset<Edge>, from: string, to: string): (r: multiset<Edge>)
  {
    if Edge(from, to, ConnectedTo) in edges && Edge(to, from, ConnectedTo) in edges then
      edges[Edge(from, to, ConnectedTo) := 0][Edge(to, from, ConnectedTo) := 0]
    else
      edges
  }

  /** Every relationship joins two existing nodes. */
  ghost predicate EdgesWithin(nodes: set<string>, edges: multiset<Edge>)
  {
    forall e :: e in edges ==> e.from in nodes && e.to in nodes
  }

  /** At most one pending request from any user to any other. */
  ghost predicate AtMostOneRequest(edges: multiset<Edge>)
  {
    forall a, b :: edges[Edge(a, b, Requested)] <= 1
  }

  /** CONNECTED_TO comes in pairs: as many `a -> b` relationships as `b -> a`. */
  ghost predicate Symmetric(edges: multiset<Edge>)
  {
    forall a, b :: edges[Edge(a, b, ConnectedTo)] == edges[Edge(b, a, ConnectedTo)]
  }

  ghost predicate GraphInvariant(nodes: set<string>, edges: multiset<Edge>)
  {
    EdgesWithin(nodes, edges) && AtMostOneRequest(edges) && Symmetric(edges)
  }

  /** The duplicate check looks only at `from -> to`: a relationship the other way does not block a request. */
  lemma RequestIgnoresReverse(nodes: set<string>, edges: multiset<Edge>, from: string, to: string)
    requires from in nodes && to in nodes && !HasEdge(edges, from, to) && from != to
    requires HasEdge(edges, to, from)
    ensures RequestStep(nodes, edges, from, to) == Ok(edges + multiset{Edge(from, to, Requested)})
  {
  }

  /** A new request keeps the invariant. */
  lemma RequestKeepsInvariant(nodes: set<string>, edges: multiset<Edge>, from: string, to: string)
    requires GraphInvariant(nodes, edges)
    requires RequestStep(nodes, edges, from, to).Ok?
    ensures GraphInvariant(nodes, RequestStep(nodes, edges, from, to).value)
  {
    var after := RequestStep(nodes, edges, from, to).value;
    forall a, b ensures after[Edge(a, b, Requested)] <= 1 {
      if a == from && b == to {
        assert edges[Edge(a, b, Requested)] == 0;
      }
    }
    forall a, b ensures after[Edge(a, b, ConnectedTo)] == after[Edge(b, a, ConnectedTo)] {
      assert after[Edge(a, b, ConnectedTo)] == edges[Edge(a, b, ConnectedTo)];
      assert after[Edge(b, a, ConnectedTo)] == edges[Edge(b, a, ConnectedTo)];
    }
  }

  /** Accepting with no matching request changes nothing. */
  lemma AcceptWithoutRequest(edges: multiset<Edge>, from: string, to: string)
    requires Edge(from, to, Requested) !in edges
    ensures AcceptStep(edges, from, to) == edges
  {
    assert edges[Edge(from, to, Requested) := 0] == edges;
  }

  /** Accepting the one pending request swaps it for a CONNECTED_TO in each direction, and touches nothing else. */
  lemma AcceptSwapsRequest(edges: multiset<Edge>, from: string, to: string)
    requires edges[Edge(from, to, Requested)] == 1 && from != to
    ensures AcceptStep(edges, from, to)
         == edges - multiset{Edge(from, to, Requested)} + multiset{Edge(from, to, ConnectedTo), Edge(to, from, ConnectedTo)}
  {
    var after := AcceptStep(edges, from, to);
    var expected := edges - multiset{Edge(from, to, Requested)} + multiset{Edge(from, to, ConnectedTo), Edge(to, from, ConnectedTo)};
    forall e ensures after[e] == expected[e] {
    }
  }

  /** Accepting keeps the invariant. */
  lemma AcceptKeepsInvariant(nodes: set<string>, edges: multiset<Edge>, from: string, to: string)
    requires GraphInvariant(nodes, edges)
    ensures GraphInvariant(nodes, AcceptStep(edges, from, to))
  {
    var after := AcceptStep(edges, from, to);
    var k := edges[Edge(from, to, Requested)];
    forall e | e in after ensures e.from in nodes && e.to in nodes {
      if e !in edges {
        assert k > 0 && Edge(from, to, Requested) in edges;
      }
    }
    forall a, b ensures after[Edge(a, b, ConnectedTo)] == after[Edge(b, a, ConnectedTo)] {
      assert edges[Edge(a, b, ConnectedTo)] == edges[Edge(b, a, ConnectedTo)];
    }
    forall a, b ensures after[Edge(a, b, Requested)] <= 1 {
      assert edges[Edge(a, b, Requested)] <= 1;
    }
  }

  /** Removing deletes both directions together, or nothing. */
  lemma RemoveBothOrNothing(edges: multiset<Edge>, from: string, to: string)
    ensures var after := RemoveStep(edges, from, to);
            || after == edges
            || (Edge(from, to, ConnectedTo) !in after && Edge(to, from, ConnectedTo) !in after)
    ensures Edge(from, to, ConnectedTo) !in edges || Edge(to, from, ConnectedTo) !in edges ==> RemoveStep(edges, from, to) == edges
  {
  }

  /** Removing keeps the invariant. */
  lemma RemoveKeepsInvariant(nodes: set<string>, edges: multiset<Edge>, from: string, to: string)
    requires GraphInvariant(nodes, edges)
    ensures GraphInvariant(nodes, RemoveStep(edges, from, to))
  {
    var after := RemoveStep(edges, from, to);
    forall e | e in after ensures e.from in nodes && e.to in nodes {
      assert after[e] <= edges[e];
    }
    forall a, b ensures after[Edge(a, b, ConnectedTo)] == after[Edge(b, a, ConnectedTo)] {
      assert edges[Edge(a, b, ConnectedTo)] == edges[Edge(b, a, ConnectedTo)];
    }
    forall a, b ensures after[Edge(a, b, Requested)] <= 1 {
      assert edges[Edge(a, b, Requested)] <= 1;
    }
  }

  /**
   * Two users who request each other and then both accept end up joined by
   * two CONNECTED_TO relationships in each direction, because accepting
   * creates the pair without looking for an existing one.
   */
  lemma CrossedRequestsDoubleConnection(a: string, b: string)
    requires a != b
    ensures var e0 := multiset{};
            var e1 := RequestStep({a, b}, e0, a, b);
            e1.Ok? &&
            var e2 := RequestStep({a, b}, e1.value, b, a);
            e2.Ok? &&
            var e3 := AcceptStep(e2.value, a, b);
            var e4 := AcceptStep(e3, b, a);
            e4[Edge(a, b, ConnectedTo)] == 2 && e4[Edge(b, a, ConnectedTo)] == 2
            && Edge(a, b, Requested) !in e4 && Edge(b, a, Requested) !in e4
  {
    var e1 := multiset{Edge(a, b, Requested)};
    assert !HasEdge(e1, b, a);
    var e2 := e1 + multiset{Edge(b, a, Requested)};
    var e3 := AcceptStep(e2, a, b);
    assert e3[Edge(b, a, Requested)] == 1 && e3[Edge(a, b, ConnectedTo)] == 1 && e3[Edge(b, a, ConnectedTo)] == 1;
  }

  /** The relationship store of the graph database, restricted to users. */
  class Graph {
    var nodes: set<string>
    var edges: multiset<Edge>

    ghost predicate Valid()
      reads this
    {
      GraphInvariant(nodes, edges)
    }

    constructor ()
      ensures Valid() && nodes == {} && edges == multiset{}
    {
      nodes := {};
      edges := multiset{};
    }

    /** `createUserNode`: a node for `username`. */
    method CreateUserNode(username: string)
      requires Valid()
      modifies this
      ensures Valid()
      ensures nodes == old(nodes) + {username} && edges == old(edges)
    {
      nodes := nodes + {username};
    }

    /** `createConnectionRequest`: fails when a user is missing or any `from -> to` relationship exists. */
    method CreateConnectionRequest(from: string, to: string) returns (r: Outcome<GraphError>)
      requires Valid()
      modifies this
      ensures Valid()
      ensures var step := RequestStep(old(nodes), old(edges), from, to);
              && (r == if step.Ok? then Pass else Fail(step.error))
              && edges == (if step.Ok? then step.value else old(edges))
      ensures nodes == old(nodes)
    {
      if from !in nodes || to !in nodes {
        return Fail(UserMissing);
      }
      if Edge(from, to, Requested) in edges || Edge(from, to, ConnectedTo) in edges {
        return Fail(EdgeExists);
      }
      RequestKeepsInvariant(nodes, edges, from, to);
      edges := edges + multiset{Edge(from, to, Requested)};
      r := Pass;
    }

    /** `acceptConnectionRequest`: the matched requests become CONNECTED_TO pairs. */
    method AcceptConnectionRequest(from: string, to: string)
      requires Valid()
      modifies this
      ensures Valid()
      ensures edges == AcceptStep(old(edges), from, to) && nodes == old(nodes)
    {
      AcceptKeepsInvariant(nodes, edges, from, to);
      var k := edges[Edge(from, to, Requested)];
      var cleared := edges[Edge(from, to, Requested) := 0];
      var forward := cleared[Edge(from, to, ConnectedTo) := cleared[Edge(from, to, ConnectedTo)] + k];
      edges := forward[Edge(to, from, ConnectedTo) := forward[Edge(to, from, ConnectedTo)] + k];
    }

    /** `removeConnection`: both CONNECTED_TO directions go, or nothing does. */
    method RemoveConnection(from: string, to: string)
      requires Valid()
      modifies this
      ensures Valid()
      ensures edges == RemoveStep(old(edges), from, to) && nodes == old(nodes)
    {
      RemoveKeepsInvariant(nodes, edges, from, to);
      if Edge(from, to, ConnectedTo) in edges && Edge(to, from, ConnectedTo) in edges {
        edges := edges[Edge(from, to, ConnectedTo) := 0][Edge(to, from, ConnectedTo) := 0];
      }
    }

    /** `getPendingRequests`: the users with a REQUESTED relationship into `username`. */
    function GetPendingRequests(username: string): (r: set<string>)
      reads this
      ensures forall x :: x in r <==> Edge(x, username, Requested) in edges
    {
      set e | e in edges && e.to == username && e.kind == Requested :: e.from
    }

    /** `getUserConnections`: the users a CONNECTED_TO relationship out of `username` leads to. */
    function GetUserConnections(username: string): (r: set<string>)
      reads this
      ensures forall x :: x in r <==> Edge(username, x, ConnectedTo) in edges
    {
      set e | e in edges && e.from == username && e.kind == ConnectedTo :: e.to
    }
  }

  /** Under the invariant CONNECTED_TO is symmetric as a relation: `a` lists `b` exactly when `b` lists `a`. */
  lemma ConnectionsSymmetric(g: Graph, a: string, b: string)
    requires g.Valid()
    ensures b in g.GetUserConnections(a) <==> a in g.GetUserConnections(b)
  {
    assert g.edges[Edge(a, b, ConnectedTo)] == g.edges[Edge(b, a, ConnectedTo)];
  }
}
