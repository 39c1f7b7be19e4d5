/** The directed graph the queries run against, as it is once loaded from a
    DOT file: a node sequence in the loader's iteration order, and for each
    node its predecessors and its successors, each in iteration order. */
module Digraphs {

  type Node = string

  /** Which way a walk follows the edges: `Up` to predecessors, `Down` to successors. */
  datatype Direction = Up | Down {
    function Flip(): Direction
    {
      if Up? then Down else Up
    }
  }

  ghost predicate NoDuplicates(s: seq<Node>)
  {
    forall i, j :: 0 <= i < j < |s| ==> s[i] != s[j]
  }

  datatype Digraph = Digraph(nodes: seq<Node>, pred: map<Node, seq<Node>>, succ: map<Node, seq<Node>>)
  {
    /** The invariants of a loaded `DiGraph`: every node appears once, both
        adjacency maps have exactly the nodes as keys, `p` is listed as a
        predecessor of `n` exactly when `n` is listed as a successor of `p`,
        and no neighbour is listed twice (a `DiGraph` has no parallel edges). */
    ghost predicate Valid()
    {
      && NoDuplicates(nodes)
      && (forall n :: n in pred <==> n in nodes)
      && (forall n :: n in succ <==> n in nodes)
      && (forall n, m :: n in pred && m in pred[n] ==> m in succ && n in succ[m])
      && (forall n, m :: n in succ && m in succ[n] ==> m in pred && n in pred[m])
      && (forall n :: n in pred ==> NoDuplicates(pred[n]))
      && (forall n :: n in succ ==> NoDuplicates(succ[n]))
    }

    /** `G.predecessors(n)` for `Up`, `G.successors(n)` for `Down`. The lookup
        is made total so that the walks can be stated without preconditions;
        on a node of a valid graph it is the loaded list (see `NeighboursOfNode`),
        and every queried name is a node. */
    function Neighbours(dir: Direction, n: Node): seq<Node>
    {
      var adjacency := if dir == Up then pred else succ;
      if n in adjacency then adjacency[n] else []
    }
  }

  /** On a valid graph, the neighbours of a node are the loaded lists, they are
      nodes, and each edge is recorded from both ends. */
  lemma NeighboursOfNode(g: Digraph, dir: Direction, n: Node)
    requires g.Valid() && n in g.nodes
    ensures g.Neighbours(dir, n) == if dir == Up then g.pred[n] else g.succ[n]
    ensures forall m :: m in g.Neighbours(dir, n) ==> m in g.nodes && n in g.Neighbours(dir.Flip(), m)
  {
    forall m | m in g.Neighbours(dir, n)
      ensures m in g.nodes && n in g.Neighbours(dir.Flip(), m)
    {
      NeighbourIsNode(g, dir, n, m);
    }
  }

  /** A neighbour of a node is a node, and has that node as a neighbour in
      the other direction. */
  lemma NeighbourIsNode(g: Digraph, dir: Direction, n: Node, m: Node)
    requires g.Valid() && n in g.nodes && m in g.Neighbours(dir, n)
    ensures m in g.nodes && n in g.Neighbours(dir.Flip(), m)
  {
    if dir == Up {
      assert n in g.pred && m in g.pred[n];
      assert m in g.succ && n in g.succ[m];
    } else {
      assert n in g.succ && m in g.succ[n];
      assert m in g.pred && n in g.pred[m];
    }
  }
}
