/** Small concrete graphs and what the queries print on them. */
module Scenarios {
  import opened Format
  import opened Digraphs
  import Search = SearchGraphvizDot
  import Runme

  /** The chain `start -> a0 -> a1 -> end`. */
  function Chain(): Digraph
  {
    Digraph(["start", "a0", "a1", "end"],
            map["start" := [], "a0" := ["start"], "a1" := ["a0"], "end" := ["a1"]],
            map["start" := ["a0"], "a0" := ["a1"], "a1" := ["end"], "end" := []])
  }

  lemma ChainNeighbours()
    ensures Chain().Neighbours(Down, "start") == ["a0"]
    ensures Chain().Neighbours(Down, "a0") == ["a1"]
    ensures Chain().Neighbours(Down, "a1") == ["end"]
  {
  }

  /** The chain is a loaded graph: the walks and queries that require
      `Valid()` apply to it. */
  lemma ChainValid()
    ensures Chain().Valid()
  {
    ChainNodes();
    ChainEdges();
    ChainLists();
  }

  /** The chain's nodes are distinct and are the keys of both adjacency maps. */
  lemma ChainNodes()
    ensures NoDuplicates(Chain().nodes)
    ensures forall n :: n in Chain().pred <==> n in Chain().nodes
    ensures forall n :: n in Chain().succ <==> n in Chain().nodes
  {
    var g := Chain();
    forall i, j | 0 <= i < j < |g.nodes|
      ensures g.nodes[i] != g.nodes[j]
    {
      assert |g.nodes[i]| != |g.nodes[j]| || g.nodes[i][1] != g.nodes[j][1];
    }
    forall n ensures n in g.pred <==> n in g.nodes {
      assert n in g.nodes <==> n == "start" || n == "a0" || n == "a1" || n == "end";
    }
    forall n ensures n in g.succ <==> n in g.nodes {
      assert n in g.nodes <==> n == "start" || n == "a0" || n == "a1" || n == "end";
    }
  }

  /** No neighbour list of the chain repeats a node: each has at most one. */
  lemma ChainLists()
    ensures forall n :: n in Chain().pred ==> NoDuplicates(Chain().pred[n])
    ensures forall n :: n in Chain().succ ==> NoDuplicates(Chain().succ[n])
  {
    var g := Chain();
    forall n | n in g.pred ensures NoDuplicates(g.pred[n]) {
      assert |g.pred[n]| <= 1;
    }
    forall n | n in g.succ ensures NoDuplicates(g.succ[n]) {
      assert |g.succ[n]| <= 1;
    }
  }

  /** Each edge of the chain is recorded at both of its ends. */
  lemma ChainEdges()
    ensures forall n, m :: n in Chain().pred && m in Chain().pred[n] ==> m in Chain().succ && n in Chain().succ[m]
    ensures forall n, m :: n in Chain().succ && m in Chain().succ[n] ==> m in Chain().pred && n in Chain().pred[m]
  {
    var g := Chain();
    forall n, m | n in g.pred && m in g.pred[n]
      ensures m in g.succ && n in g.succ[m]
    {
      if n == "a0" {
        assert m == "start" && g.succ[m] == ["a0"];
      } else if n == "a1" {
        assert m == "a0" && g.succ[m] == ["a1"];
      } else if n == "end" {
        assert m == "a1" && g.succ[m] == ["end"];
      } else {
        assert false;
      }
    }
    forall n, m | n in g.succ && m in g.succ[n]
      ensures m in g.pred && n in g.pred[m]
    {
      if n == "start" {
        assert m == "a0" && g.pred[m] == ["start"];
      } else if n == "a0" {
        assert m == "a1" && g.pred[m] == ["a0"];
      } else if n == "a1" {
        assert m == "end" && g.pred[m] == ["a1"];
      } else {
        assert false;
      }
    }
  }

  /** `recursive_successors` from `start` to depth 3 walks the whole chain,
      one more edge per line: it prints `1: start -> a0`,
      `2: start -> a0 -> a1` and `3: start -> a0 -> a1 -> end`. The chain is a
      loaded graph (`ChainValid`), so these are the lines `RecursiveSuccessors`
      prints. */
  lemma ChainWalk()
    ensures Search.Walk(Chain(), Down, "", "start", 3, 1)
            == [Search.Line(Down, 1, "a0", "start", ""),
                Search.Line(Down, 2, "a1", "a0", "start -> "),
                Search.Line(Down, 3, "end", "a1", "start -> a0 -> ")]
    ensures RenderAll(Search.Walk(Chain(), Down, "", "start", 3, 1), Search.Render)
            == ["1: start -> a0", "2: start -> a0 -> a1", "3: start -> a0 -> a1 -> end"]
  {
    ChainWalkLines();
    ChainWalkTexts();
    RenderAllAt([Search.Line(Down, 1, "a0", "start", ""),
                 Search.Line(Down, 2, "a1", "a0", "start -> "),
                 Search.Line(Down, 3, "end", "a1", "start -> a0 -> ")], Search.Render);
  }

  lemma ChainWalkLines()
    ensures Search.Walk(Chain(), Down, "", "start", 3, 1)
            == [Search.Line(Down, 1, "a0", "start", ""),
                Search.Line(Down, 2, "a1", "a0", "start -> "),
                Search.Line(Down, 3, "end", "a1", "start -> a0 -> ")]
  {
    var g := Chain();
    ChainNeighbours();
    var l1 := Search.Line(Down, 1, "a0", "start", "");
    var l2 := Search.Line(Down, 2, "a1", "a0", "start -> ");
    var l3 := Search.Line(Down, 3, "end", "a1", "start -> a0 -> ");
    assert Search.Grow(Down, "", "start") == "start -> ";
    assert Search.Grow(Down, "start -> ", "a0") == "start -> a0 -> ";
    assert Search.Loop(g, Down, ["end"], "start -> a0 -> ", "a1", 1, 3) == [l3] by {
      Search.LoopUnfold(g, Down, ["end"], "start -> a0 -> ", "a1", 1, 3);
      assert ["end"][1..] == [];
    }
    assert Search.Loop(g, Down, ["a1"], "start -> ", "a0", 2, 2) == [l2, l3] by {
      Search.LoopUnfold(g, Down, ["a1"], "start -> ", "a0", 2, 2);
      assert ["a1"][1..] == [];
    }
    Search.LoopUnfold(g, Down, ["a0"], "", "start", 3, 1);
    assert ["a0"][1..] == [];
  }

  /** How the chain's downstream walk lines print. */
  lemma ChainWalkTexts()
    ensures Search.Render(Search.Line(Down, 1, "a0", "start", "")) == "1: start -> a0"
    ensures Search.Render(Search.Line(Down, 2, "a1", "a0", "start -> ")) == "2: start -> a0 -> a1"
    ensures Search.Render(Search.Line(Down, 3, "end", "a1", "start -> a0 -> ")) == "3: start -> a0 -> a1 -> end"
  {
    ChainWalkTexts1();
    ChainWalkTexts2();
    ChainWalkTexts3();
  }

  lemma ChainWalkTexts1()
    ensures Search.Render(Search.Line(Down, 1, "a0", "start", "")) == "1: start -> a0"
  {
    assert IntToString(1) == "1";
    assert "1" + ": " + "" == "1: ";
    assert "start" + " -> " + "a0" == "start -> a0";
    assert "1: " + "start -> a0" == "1: start -> a0";
  }

  lemma ChainWalkTexts2()
    ensures Search.Render(Search.Line(Down, 2, "a1", "a0", "start -> ")) == "2: start -> a0 -> a1"
  {
    assert IntToString(2) == "2";
    assert "2" + ": " + "start -> " == "2: start -> ";
    assert "a0" + " -> " + "a1" == "a0 -> a1";
    assert "2: start -> " + "a0 -> a1" == "2: start -> a0 -> a1";
  }

  lemma ChainWalkTexts3()
    ensures Search.Render(Search.Line(Down, 3, "end", "a1", "start -> a0 -> ")) == "3: start -> a0 -> a1 -> end"
  {
    assert IntToString(3) == "3";
    assert "3" + ": " + "start -> a0 -> " == "3: start -> a0 -> ";
    assert "a1" + " -> " + "end" == "a1 -> end";
    assert "3: start -> a0 -> " + "a1 -> end" == "3: start -> a0 -> a1 -> end";
  }

  /** `recursive_predecessors` from `end` to depth 3 also walks the whole
      chain, but the suffix grows by appending each frontier node after the
      ones before it, so from the third line on the path is printed
      out of order: `3: start -> a0 -> end -> a1`, not `start -> a0 -> a1 -> end`. */
  lemma UpstreamSuffixOrder()
    ensures Search.Walk(Chain(), Up, "", "end", 3, 1)
            == [Search.Line(Up, 1, "a1", "end", ""),
                Search.Line(Up, 2, "a0", "a1", " -> end"),
                Search.Line(Up, 3, "start", "a0", " -> end -> a1")]
    ensures RenderAll(Search.Walk(Chain(), Up, "", "end", 3, 1), Search.Render)
            == ["1: a1 -> end", "2: a0 -> a1 -> end", "3: start -> a0 -> end -> a1"]
  {
    UpstreamChainLines();
    UpstreamChainTexts();
    RenderAllAt([Search.Line(Up, 1, "a1", "end", ""),
                 Search.Line(Up, 2, "a0", "a1", " -> end"),
                 Search.Line(Up, 3, "start", "a0", " -> end -> a1")], Search.Render);
  }

  lemma UpstreamChainLines()
    ensures Search.Walk(Chain(), Up, "", "end", 3, 1)
            == [Search.Line(Up, 1, "a1", "end", ""),
                Search.Line(Up, 2, "a0", "a1", " -> end"),
                Search.Line(Up, 3, "start", "a0", " -> end -> a1")]
  {
    var g := Chain();
    assert g.Neighbours(Up, "end") == ["a1"] && g.Neighbours(Up, "a1") == ["a0"];
    assert g.Neighbours(Up, "a0") == ["start"];
    var l1 := Search.Line(Up, 1, "a1", "end", "");
    var l2 := Search.Line(Up, 2, "a0", "a1", " -> end");
    var l3 := Search.Line(Up, 3, "start", "a0", " -> end -> a1");
    assert Search.Grow(Up, "", "end") == " -> end";
    assert Search.Grow(Up, " -> end", "a1") == " -> end -> a1";
    assert Search.Loop(g, Up, ["start"], " -> end -> a1", "a0", 1, 3) == [l3] by {
      Search.LoopUnfold(g, Up, ["start"], " -> end -> a1", "a0", 1, 3);
      assert ["start"][1..] == [];
    }
    assert Search.Loop(g, Up, ["a0"], " -> end", "a1", 2, 2) == [l2, l3] by {
      Search.LoopUnfold(g, Up, ["a0"], " -> end", "a1", 2, 2);
      assert ["a0"][1..] == [];
    }
    Search.LoopUnfold(g, Up, ["a1"], "", "end", 3, 1);
    assert ["a1"][1..] == [];
  }

  /** How the chain's upstream walk lines print. */
  lemma UpstreamChainTexts()
    ensures Search.Render(Search.Line(Up, 1, "a1", "end", "")) == "1: a1 -> end"
    ensures Search.Render(Search.Line(Up, 2, "a0", "a1", " -> end")) == "2: a0 -> a1 -> end"
    ensures Search.Render(Search.Line(Up, 3, "start", "a0", " -> end -> a1")) == "3: start -> a0 -> end -> a1"
  {
    UpstreamChainTexts1();
    UpstreamChainTexts2();
    UpstreamChainTexts3();
  }

  lemma UpstreamChainTexts1()
    ensures Search.Render(Search.Line(Up, 1, "a1", "end", "")) == "1: a1 -> end"
  {
    assert IntToString(1) == "1";
    assert "1" + ": " + "a1" == "1: a1";
    assert " -> " + "end" + "" == " -> end";
    assert "1: a1" + " -> end" == "1: a1 -> end";
  }

  lemma UpstreamChainTexts2()
    ensures Search.Render(Search.Line(Up, 2, "a0", "a1", " -> end")) == "2: a0 -> a1 -> end"
  {
    assert IntToString(2) == "2";
    assert "2" + ": " + "a0" == "2: a0";
    assert " -> " + "a1" + " -> end" == " -> a1 -> end";
    assert "2: a0" + " -> a1 -> end" == "2: a0 -> a1 -> end";
  }

  lemma UpstreamChainTexts3()
    ensures Search.Render(Search.Line(Up, 3, "start", "a0", " -> end -> a1")) == "3: start -> a0 -> end -> a1"
  {
    assert IntToString(3) == "3";
    assert "3" + ": " + "start" == "3: start";
    assert " -> " + "a0" + " -> end -> a1" == " -> a0 -> end -> a1";
    assert "3: start" + " -> a0 -> end -> a1" == "3: start -> a0 -> end -> a1";
  }

  /** `runme.py --list_downstream start` lists the same three walks, as
      `depth=1: start -> a0` and so on. */
  lemma ChainTree()
    ensures Runme.DownTree(Chain(), "start")
            == [Runme.WalkLine(1, ["start", "a0"]), Runme.WalkLine(2, ["start", "a0", "a1"]),
                Runme.WalkLine(3, ["start", "a0", "a1", "end"])]
  {
    var g := Chain();
    ChainNeighbours();
    var w1 := Runme.WalkLine(1, ["start", "a0"]);
    var w2 := Runme.WalkLine(2, ["start", "a0", "a1"]);
    var w3 := Runme.WalkLine(3, ["start", "a0", "a1", "end"]);
    assert Runme.Expand(g, ["start", "a0", "a1"], ["end"], 1) == [w3] by {
      Runme.ExpandUnfold(g, ["start", "a0", "a1"], ["end"], 1);
      assert ["start", "a0", "a1"] + ["end"] == ["start", "a0", "a1", "end"];
      assert ["end"][1..] == [];
    }
    assert Runme.Expand(g, ["start", "a0"], ["a1"], 2) == [w2, w3] by {
      Runme.ExpandUnfold(g, ["start", "a0"], ["a1"], 2);
      assert ["start", "a0"] + ["a1"] == ["start", "a0", "a1"];
      assert ["a1"][1..] == [];
    }
    Runme.ExpandUnfold(g, ["start"], ["a0"], 3);
    assert ["start"] + ["a0"] == ["start", "a0"];
    assert ["a0"][1..] == [];
  }

  /** `n` with two predecessors `a` and `b`, which have none. */
  function Fork(): Digraph
  {
    Digraph(["n", "a", "b"],
            map["n" := ["a", "b"], "a" := [], "b" := []],
            map["n" := [], "a" := ["n"], "b" := ["n"]])
  }

  /** The fork is a loaded graph. */
  lemma ForkValid()
    ensures Fork().Valid()
  {
    ForkNodes();
    ForkEdges();
    ForkLists();
  }

  lemma ForkNodes()
    ensures NoDuplicates(Fork().nodes)
    ensures forall n :: n in Fork().pred <==> n in Fork().nodes
    ensures forall n :: n in Fork().succ <==> n in Fork().nodes
  {
    var g := Fork();
    forall i, j | 0 <= i < j < |g.nodes|
      ensures g.nodes[i] != g.nodes[j]
    {
      assert g.nodes[i][0] != g.nodes[j][0];
    }
    forall n ensures n in g.pred <==> n in g.nodes {
      assert n in g.nodes <==> n == "n" || n == "a" || n == "b";
    }
    forall n ensures n in g.succ <==> n in g.nodes {
      assert n in g.nodes <==> n == "n" || n == "a" || n == "b";
    }
  }

  lemma ForkEdges()
    ensures forall n, m :: n in Fork().pred && m in Fork().pred[n] ==> m in Fork().succ && n in Fork().succ[m]
    ensures forall n, m :: n in Fork().succ && m in Fork().succ[n] ==> m in Fork().pred && n in Fork().pred[m]
  {
    var g := Fork();
    forall n, m | n in g.pred && m in g.pred[n]
      ensures m in g.succ && n in g.succ[m]
    {
      if n == "n" {
        assert (m == "a" || m == "b") && g.succ[m] == ["n"];
      } else {
        assert false;
      }
    }
    forall n, m | n in g.succ && m in g.succ[n]
      ensures m in g.pred && n in g.pred[m]
    {
      if n == "a" || n == "b" {
        assert m == "n" && g.pred[m] == ["a", "b"];
      } else {
        assert false;
      }
    }
  }

  lemma ForkLists()
    ensures forall n :: n in Fork().pred ==> NoDuplicates(Fork().pred[n])
    ensures forall n :: n in Fork().succ ==> NoDuplicates(Fork().succ[n])
  {
    var g := Fork();
    forall n | n in g.pred ensures NoDuplicates(g.pred[n]) {
      if n == "n" {
        assert g.pred[n] == ["a", "b"] && "a"[0] != "b"[0];
      } else {
        assert |g.pred[n]| == 0;
      }
    }
    forall n | n in g.succ ensures NoDuplicates(g.succ[n]) {
      assert |g.succ[n]| <= 1;
    }
  }

  /** A larger depth does not print a superset: at depth 1 both predecessors
      of `n` are printed as depth-1 lines; at depth 2 the budget spent on `a`
      is missing for `b`, which is printed with counter 2 and the suffix
      grown for `a`. The fork is a loaded graph (`ForkValid`), so this is
      what `RecursivePredecessors` prints. */
  lemma DepthIsNotMonotone()
    ensures RenderAll(Search.Walk(Fork(), Up, "", "n", 1, 1), Search.Render) == ["1: a -> n", "1: b -> n"]
    ensures RenderAll(Search.Walk(Fork(), Up, "", "n", 2, 1), Search.Render) == ["1: a -> n", "2: b -> n -> n"]
  {
    ForkWalks();
    ForkTexts();
    var a1 := Search.Line(Up, 1, "a", "n", "");
    var b1 := Search.Line(Up, 1, "b", "n", "");
    var b2 := Search.Line(Up, 2, "b", "n", " -> n");
    RenderAllAt([a1, b1], Search.Render);
    RenderAllAt([a1, b2], Search.Render);
  }

  /** The upstream walks from `n` to depths 1 and 2, line by line. */
  lemma ForkWalks()
    ensures Search.Walk(Fork(), Up, "", "n", 1, 1)
            == [Search.Line(Up, 1, "a", "n", ""), Search.Line(Up, 1, "b", "n", "")]
    ensures Search.Walk(Fork(), Up, "", "n", 2, 1)
            == [Search.Line(Up, 1, "a", "n", ""), Search.Line(Up, 2, "b", "n", " -> n")]
  {
    var g := Fork();
    assert g.Neighbours(Up, "n") == ["a", "b"] && g.Neighbours(Up, "a") == [];
    assert ["a", "b"][1..] == ["b"] && ["b"][1..] == [];
    Search.LoopUnfold(g, Up, ["a", "b"], "", "n", 1, 1);
    Search.LoopUnfold(g, Up, ["b"], "", "n", 0, 1);
    assert Search.Grow(Up, "", "n") == " -> n";
    Search.LoopUnfold(g, Up, ["a", "b"], "", "n", 2, 1);
    Search.LoopUnfold(g, Up, ["b"], " -> n", "n", 1, 2);
  }

  /** How the fork's walk lines print. */
  lemma ForkTexts()
    ensures Search.Render(Search.Line(Up, 1, "a", "n", "")) == "1: a -> n"
    ensures Search.Render(Search.Line(Up, 1, "b", "n", "")) == "1: b -> n"
    ensures Search.Render(Search.Line(Up, 2, "b", "n", " -> n")) == "2: b -> n -> n"
  {
    ForkTexts1();
    ForkTexts2();
    ForkTexts3();
  }

  lemma ForkTexts1()
    ensures Search.Render(Search.Line(Up, 1, "a", "n", "")) == "1: a -> n"
  {
    assert IntToString(1) == "1";
    assert "1" + ": " + "a" == "1: a";
    assert " -> " + "n" + "" == " -> n";
    assert "1: a" + " -> n" == "1: a -> n";
  }

  lemma ForkTexts2()
    ensures Search.Render(Search.Line(Up, 1, "b", "n", "")) == "1: b -> n"
  {
    assert IntToString(1) == "1";
    assert "1" + ": " + "b" == "1: b";
    assert " -> " + "n" + "" == " -> n";
    assert "1: b" + " -> n" == "1: b -> n";
  }

  lemma ForkTexts3()
    ensures Search.Render(Search.Line(Up, 2, "b", "n", " -> n")) == "2: b -> n -> n"
  {
    assert IntToString(2) == "2";
    assert "2" + ": " + "b" == "2: b";
    assert " -> " + "n" + " -> n" == " -> n -> n";
    assert "2: b" + " -> n -> n" == "2: b -> n -> n";
  }
}
