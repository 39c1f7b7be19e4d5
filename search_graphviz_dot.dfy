/** The recursive neighbour walks of `search_graphviz_dot.py`, the three
    node-classification listings and the three neighbour queries built on the
    walks. Every operation returns the lines it prints, in printing order. */
module SearchGraphvizDot {
  import opened Format
  import opened Digraphs

  /** One printed line of a walk, before it is turned into text: the depth
      counter, the neighbour `node` just visited, the node `frontier` whose
      neighbour it is, and the accumulated display string (`suffix_str` of an
      upstream walk, `prefix_str` of a downstream walk). */
  datatype Line = Line(dir: Direction, counter: int, node: Node, frontier: Node, affix: string)

  /** The line as printed: `<counter>: <node> -> <frontier><suffix>` upstream,
      `<counter>: <prefix><frontier> -> <node>` downstream. */
  function Render(l: Line): string
  {
    if l.dir == Up then IntToString(l.counter) + ": " + l.node + " -> " + l.frontier + l.affix
    else IntToString(l.counter) + ": " + l.affix + l.frontier + " -> " + l.node
  }

  /** How the display string grows when a walk descends from `frontier`:
      `suffix_str += " -> " + parent` upstream, `prefix_str += parent + " -> "`
      downstream. */
  function Grow(dir: Direction, affix: string, frontier: Node): string
  {
    if dir == Up then affix + " -> " + frontier else affix + frontier + " -> "
  }

  /** The display string after `e` descents from the same frontier. */
  function GrowN(dir: Direction, affix: string, frontier: Node, e: nat): string
  {
    if e == 0 then affix else Grow(dir, GrowN(dir, affix, frontier, e - 1), frontier)
  }

  function Pos(i: int): nat
  {
    if i > 0 then i else 0
  }

  /** What the `for` loop of one call of the walk prints from the neighbour
      list `ns` onwards, with the loop's mutable state `budget` (`max_depth`),
      `counter` and `affix` as they stand when it reaches `ns[0]`. The line is
      printed first; the budget is then lowered once per neighbour; only while
      it stays positive are the counter and the display string advanced, and
      they stay advanced for the later neighbours too. */
  function Loop(g: Digraph, dir: Direction, ns: seq<Node>, affix: string, frontier: Node,
                budget: int, counter: int): seq<Line>
    decreases Pos(budget), |ns|
  {
    if ns == [] then []
    else
      var head := Line(dir, counter, ns[0], frontier, affix);
      var b := budget - 1;
      if b > 0 then
        var grown := Grow(dir, affix, frontier);
        [head]
        + Loop(g, dir, g.Neighbours(dir, ns[0]), grown, ns[0], b, counter + 1)
        + Loop(g, dir, ns[1..], grown, frontier, b, counter + 1)
      else
        [head] + Loop(g, dir, ns[1..], affix, frontier, b, counter)
  }

  /** Everything one call `recursive_predecessors(G, affix, parent, maxDepth, counter)`
      (for `Up`) or `recursive_successors(...)` (for `Down`) prints. */
  function Walk(g: Digraph, dir: Direction, affix: string, parent: Node, maxDepth: int, counter: int): seq<Line>
  {
    Loop(g, dir, g.Neighbours(dir, parent), affix, parent, maxDepth, counter)
  }

  /** `Loop` on a non-empty list, unfolded once. */
  lemma LoopUnfold(g: Digraph, dir: Direction, ns: seq<Node>, affix: string, frontier: Node,
                   budget: int, counter: int)
    requires ns != []
    ensures budget - 1 > 0 ==>
      Loop(g, dir, ns, affix, frontier, budget, counter)
      == [Line(dir, counter, ns[0], frontier, affix)]
         + Walk(g, dir, Grow(dir, affix, frontier), ns[0], budget - 1, counter + 1)
         + Loop(g, dir, ns[1..], Grow(dir, affix, frontier), frontier, budget - 1, counter + 1)
    ensures budget - 1 <= 0 ==>
      Loop(g, dir, ns, affix, frontier, budget, counter)
      == [Line(dir, counter, ns[0], frontier, affix)] + Loop(g, dir, ns[1..], affix, frontier, budget - 1, counter)
  {
  }

  /** One turn of the walk's loop at `ns[i]`, in printed text: what was printed
      before, the line for `ns[i]`, what the descent into `ns[i]` prints (when
      the lowered budget allows one) and the rest of the loop add up to the
      same output. */
  lemma Advance(g: Digraph, dir: Direction, ns: seq<Node>, i: nat, affix: string, frontier: Node,
                budget: int, counter: int, before: seq<string>, total: seq<string>)
    requires i < |ns|
    requires before + RenderAll(Loop(g, dir, ns[i..], affix, frontier, budget, counter), Render) == total
    ensures budget - 1 > 0 ==>
      before + [Render(Line(dir, counter, ns[i], frontier, affix))]
      + RenderAll(Walk(g, dir, Grow(dir, affix, frontier), ns[i], budget - 1, counter + 1), Render)
      + RenderAll(Loop(g, dir, ns[i + 1..], Grow(dir, affix, frontier), frontier, budget - 1, counter + 1), Render)
      == total
    ensures budget - 1 <= 0 ==>
      before + [Render(Line(dir, counter, ns[i], frontier, affix))]
      + RenderAll(Loop(g, dir, ns[i + 1..], affix, frontier, budget - 1, counter), Render)
      == total
  {
    if budget - 1 > 0 {
      AdvanceInto(g, dir, ns, i, affix, frontier, budget, counter, before, total);
    } else {
      AdvancePast(g, dir, ns, i, affix, frontier, budget, counter, before, total);
    }
  }

  /** `Advance` when the lowered budget lets the walk descend into `ns[i]`. */
  lemma AdvanceInto(g: Digraph, dir: Direction, ns: seq<Node>, i: nat, affix: string, frontier: Node,
                    budget: int, counter: int, before: seq<string>, total: seq<string>)
    requires i < |ns| && budget - 1 > 0
    requires before + RenderAll(Loop(g, dir, ns[i..], affix, frontier, budget, counter), Render) == total
    ensures before + [Render(Line(dir, counter, ns[i], frontier, affix))]
            + RenderAll(Walk(g, dir, Grow(dir, affix, frontier), ns[i], budget - 1, counter + 1), Render)
            + RenderAll(Loop(g, dir, ns[i + 1..], Grow(dir, affix, frontier), frontier, budget - 1, counter + 1), Render)
            == total
  {
    var head := Line(dir, counter, ns[i], frontier, affix);
    var grown := Grow(dir, affix, frontier);
    var sub := Walk(g, dir, grown, ns[i], budget - 1, counter + 1);
    var rest := Loop(g, dir, ns[i + 1..], grown, frontier, budget - 1, counter + 1);
    assert Loop(g, dir, ns[i..], affix, frontier, budget, counter) == [head] + sub + rest by {
      assert ns[i..][0] == ns[i] && ns[i..][1..] == ns[i + 1..];
      LoopUnfold(g, dir, ns[i..], affix, frontier, budget, counter);
    }
    var rh, rs, rr := [Render(head)], RenderAll(sub, Render), RenderAll(rest, Render);
    assert RenderAll([head], Render) == rh;
    RenderAllAppend([head] + sub, rest, Render);
    RenderAllAppend([head], sub, Render);
    assert RenderAll([head] + sub + rest, Render) == rh + rs + rr;
    assert before + (rh + rs + rr) == before + rh + rs + rr;
  }

  /** `Advance` when the lowered budget stops the walk at `ns[i]`. */
  lemma AdvancePast(g: Digraph, dir: Direction, ns: seq<Node>, i: nat, affix: string, frontier: Node,
                    budget: int, counter: int, before: seq<string>, total: seq<string>)
    requires i < |ns| && budget - 1 <= 0
    requires before + RenderAll(Loop(g, dir, ns[i..], affix, frontier, budget, counter), Render) == total
    ensures before + [Render(Line(dir, counter, ns[i], frontier, affix))]
            + RenderAll(Loop(g, dir, ns[i + 1..], affix, frontier, budget - 1, counter), Render)
            == total
  {
    var head := Line(dir, counter, ns[i], frontier, affix);
    var rest := Loop(g, dir, ns[i + 1..], affix, frontier, budget - 1, counter);
    assert Loop(g, dir, ns[i..], affix, frontier, budget, counter) == [head] + rest by {
      assert ns[i..][0] == ns[i] && ns[i..][1..] == ns[i + 1..];
      LoopUnfold(g, dir, ns[i..], affix, frontier, budget, counter);
    }
    assert RenderAll([head], Render) == [Render(head)];
    RenderAllAppend([head], rest, Render);
    assert before + RenderAll([head] + rest, Render) == before + [Render(head)] + RenderAll(rest, Render);
  }

  /** `Advance` for `recursive_predecessors`, in the text its `print` builds. */
  lemma PredecessorStep(g: Digraph, ns: seq<Node>, i: nat, suffix: string, parent: Node,
                        budget: int, counter: int, before: seq<string>, total: seq<string>)
    requires i < |ns|
    requires before + RenderAll(Loop(g, Up, ns[i..], suffix, parent, budget, counter), Render) == total
    ensures budget - 1 > 0 ==>
      before + [IntToString(counter) + ": " + ns[i] + " -> " + parent + suffix]
      + RenderAll(Walk(g, Up, suffix + " -> " + parent, ns[i], budget - 1, counter + 1), Render)
      + RenderAll(Loop(g, Up, ns[i + 1..], suffix + " -> " + parent, parent, budget - 1, counter + 1), Render)
      == total
    ensures budget - 1 <= 0 ==>
      before + [IntToString(counter) + ": " + ns[i] + " -> " + parent + suffix]
      + RenderAll(Loop(g, Up, ns[i + 1..], suffix, parent, budget - 1, counter), Render)
      == total
  {
    Advance(g, Up, ns, i, suffix, parent, budget, counter, before, total);
  }

  /** `Advance` for `recursive_successors`, in the text its `print` builds. */
  lemma SuccessorStep(g: Digraph, ns: seq<Node>, i: nat, prefix: string, parent: Node,
                      budget: int, counter: int, before: seq<string>, total: seq<string>)
    requires i < |ns|
    requires before + RenderAll(Loop(g, Down, ns[i..], prefix, parent, budget, counter), Render) == total
    ensures budget - 1 > 0 ==>
      before + [IntToString(counter) + ": " + prefix + parent + " -> " + ns[i]]
      + RenderAll(Walk(g, Down, prefix + parent + " -> ", ns[i], budget - 1, counter + 1), Render)
      + RenderAll(Loop(g, Down, ns[i + 1..], prefix + parent + " -> ", parent, budget - 1, counter + 1), Render)
      == total
    ensures budget - 1 <= 0 ==>
      before + [IntToString(counter) + ": " + prefix + parent + " -> " + ns[i]]
      + RenderAll(Loop(g, Down, ns[i + 1..], prefix, parent, budget - 1, counter), Render)
      == total
  {
    Advance(g, Down, ns, i, prefix, parent, budget, counter, before, total);
  }

  /** `recursive_predecessors`: prints `<counter>: <p> -> <parent><suffix>` for
      each predecessor `p`, and descends into `p` while the shared budget lasts. */
  method RecursivePredecessors(g: Digraph, suffixStr: string, parent: Node, maxDepth: int, counter: int)
    returns (out: seq<string>)
    requires g.Valid() && parent in g.nodes
    ensures out == RenderAll(Walk(g, Up, suffixStr, parent, maxDepth, counter), Render)
    decreases maxDepth
  {
    var preds := g.Neighbours(Up, parent);
    var depth, count, suffix := maxDepth, counter, suffixStr;
    ghost var total := RenderAll(Walk(g, Up, suffixStr, parent, maxDepth, counter), Render);
    out := [];
    for i := 0 to |preds|
      invariant depth == maxDepth - i
      invariant out + RenderAll(Loop(g, Up, preds[i..], suffix, parent, depth, count), Render) == total
    {
      var thisNode := preds[i];
      NeighbourIsNode(g, Up, parent, thisNode);
      PredecessorStep(g, preds, i, suffix, parent, depth, count, out, total);
      out := out + [IntToString(count) + ": " + thisNode + " -> " + parent + suffix];
      depth := depth - 1;
      if depth > 0 {
        count := count + 1;
        suffix := suffix + " -> " + parent;
        var deeper := RecursivePredecessors(g, suffix, thisNode, depth, count);
        out := out + deeper;
      }
    }
  }

  /** `recursive_successors`: prints `<counter>: <prefix><parent> -> <s>` for
      each successor `s`, and descends into `s` while the shared budget lasts. */
  method RecursiveSuccessors(g: Digraph, prefixStr: string, parent: Node, maxDepth: int, counter: int)
    returns (out: seq<string>)
    requires g.Valid() && parent in g.nodes
    ensures out == RenderAll(Walk(g, Down, prefixStr, parent, maxDepth, counter), Render)
    decreases maxDepth
  {
    var succs := g.Neighbours(Down, parent);
    var depth, count, prefix := maxDepth, counter, prefixStr;
    ghost var total := RenderAll(Walk(g, Down, prefixStr, parent, maxDepth, counter), Render);
    out := [];
    for i := 0 to |succs|
      invariant depth == maxDepth - i
      invariant out + RenderAll(Loop(g, Down, succs[i..], prefix, parent, depth, count), Render) == total
    {
      var thisNode := succs[i];
      NeighbourIsNode(g, Down, parent, thisNode);
      SuccessorStep(g, succs, i, prefix, parent, depth, count, out, total);
      out := out + [IntToString(count) + ": " + prefix + parent + " -> " + thisNode];
      depth := depth - 1;
      if depth > 0 {
        count := count + 1;
        prefix := prefix + parent + " -> ";
        var deeper := RecursiveSuccessors(g, prefix, thisNode, depth, count);
        out := out + deeper;
      }
    }
  }

  // ---------------------------------------------------------------------
  // The walk in closed form: one block per neighbour

  /** How many of the neighbours before the `k`-th (counted from 0) were
      descended into, given the budget the loop started with. Neighbour `k`
      sees the budget `budget - (k + 1)` after its decrement, so exactly the
      first `budget - 1` neighbours are descended into. */
  function Expanded(budget: int, k: nat): nat
  {
    if budget <= 1 then 0 else if k < budget - 1 then k else budget - 1
  }

  /** What the loop prints for its `k`-th neighbour (counted from 0), written
      without the loop: the line for `ns[k]`, with the counter raised and the
      display string grown once per earlier neighbour that was descended into,
      and then, if `budget - (k + 1) > 0`, the walk from `ns[k]` with exactly
      that budget. */
  function Block(g: Digraph, dir: Direction, ns: seq<Node>, affix: string, frontier: Node,
                 budget: int, counter: int, k: nat): seq<Line>
    requires k < |ns|
  {
    var e := Expanded(budget, k);
    [Line(dir, counter + e, ns[k], frontier, GrowN(dir, affix, frontier, e))]
    + if budget - (k + 1) > 0
      then Walk(g, dir, GrowN(dir, affix, frontier, e + 1), ns[k], budget - (k + 1), counter + e + 1)
      else []
  }

  /** The blocks of the neighbours `ns[k..]`, in order. */
  function Blocks(g: Digraph, dir: Direction, ns: seq<Node>, affix: string, frontier: Node,
                  budget: int, counter: int, k: nat): seq<Line>
    requires k <= |ns|
    decreases |ns| - k
  {
    if k == |ns| then [] else Block(g, dir, ns, affix, frontier, budget, counter, k)
                              + Blocks(g, dir, ns, affix, frontier, budget, counter, k + 1)
  }

  /** The loop from neighbour `k` on, entered in the state the earlier
      neighbours left: budget `b`, counter `c` and display string `grown`. */
  lemma {:induction false} LoopFrom(g: Digraph, dir: Direction, ns: seq<Node>, affix: string, frontier: Node,
                                    budget: int, counter: int, k: nat, b: int, c: int, grown: string)
    requires k <= |ns|
    requires b == budget - k && c == counter + Expanded(budget, k)
    requires grown == GrowN(dir, affix, frontier, Expanded(budget, k))
    ensures Loop(g, dir, ns[k..], grown, frontier, b, c) == Blocks(g, dir, ns, affix, frontier, budget, counter, k)
    decreases |ns| - k, 1
  {
    if k < |ns| {
      BlockUnfold(g, dir, ns, affix, frontier, budget, counter, k, b, c, grown);
      if b - 1 > 0 {
        LoopFromInto(g, dir, ns, affix, frontier, budget, counter, k, b, c, grown);
      } else {
        LoopFromPast(g, dir, ns, affix, frontier, budget, counter, k, b, c, grown);
      }
    } else {
      assert ns[k..] == [];
    }
  }

  /** `LoopFrom` at a neighbour that is descended into. */
  lemma {:induction false} LoopFromInto(g: Digraph, dir: Direction, ns: seq<Node>, affix: string, frontier: Node,
                                        budget: int, counter: int, k: nat, b: int, c: int, grown: string)
    requires k < |ns| && b - 1 > 0
    requires b == budget - k && c == counter + Expanded(budget, k)
    requires grown == GrowN(dir, affix, frontier, Expanded(budget, k))
    ensures Loop(g, dir, ns[k..], grown, frontier, b, c)
            == Block(g, dir, ns, affix, frontier, budget, counter, k)
               + Blocks(g, dir, ns, affix, frontier, budget, counter, k + 1)
    decreases |ns| - k, 0
  {
    var head := Line(dir, c, ns[k], frontier, grown);
    var grown' := Grow(dir, grown, frontier);
    var sub := Walk(g, dir, grown', ns[k], b - 1, c + 1);
    var tail := Loop(g, dir, ns[k + 1..], grown', frontier, b - 1, c + 1);
    assert Loop(g, dir, ns[k..], grown, frontier, b, c) == [head] + sub + tail by {
      assert ns[k..][0] == ns[k] && ns[k..][1..] == ns[k + 1..];
      LoopUnfold(g, dir, ns[k..], grown, frontier, b, c);
    }
    assert Block(g, dir, ns, affix, frontier, budget, counter, k) == [head] + sub by {
      BlockUnfold(g, dir, ns, affix, frontier, budget, counter, k, b, c, grown);
    }
    assert tail == Blocks(g, dir, ns, affix, frontier, budget, counter, k + 1) by {
      assert Expanded(budget, k + 1) == Expanded(budget, k) + 1;
      LoopFrom(g, dir, ns, affix, frontier, budget, counter, k + 1, b - 1, c + 1, grown');
    }
  }

  /** `LoopFrom` at a neighbour that the budget stops at. */
  lemma {:induction false} LoopFromPast(g: Digraph, dir: Direction, ns: seq<Node>, affix: string, frontier: Node,
                                        budget: int, counter: int, k: nat, b: int, c: int, grown: string)
    requires k < |ns| && b - 1 <= 0
    requires b == budget - k && c == counter + Expanded(budget, k)
    requires grown == GrowN(dir, affix, frontier, Expanded(budget, k))
    ensures Loop(g, dir, ns[k..], grown, frontier, b, c)
            == Block(g, dir, ns, affix, frontier, budget, counter, k)
               + Blocks(g, dir, ns, affix, frontier, budget, counter, k + 1)
    decreases |ns| - k, 0
  {
    var head := Line(dir, c, ns[k], frontier, grown);
    var tail := Loop(g, dir, ns[k + 1..], grown, frontier, b - 1, c);
    assert Loop(g, dir, ns[k..], grown, frontier, b, c) == [head] + tail by {
      assert ns[k..][0] == ns[k] && ns[k..][1..] == ns[k + 1..];
      LoopUnfold(g, dir, ns[k..], grown, frontier, b, c);
    }
    assert Block(g, dir, ns, affix, frontier, budget, counter, k) == [head] by {
      BlockUnfold(g, dir, ns, affix, frontier, budget, counter, k, b, c, grown);
    }
    assert tail == Blocks(g, dir, ns, affix, frontier, budget, counter, k + 1) by {
      assert Expanded(budget, k + 1) == Expanded(budget, k);
      LoopFrom(g, dir, ns, affix, frontier, budget, counter, k + 1, b - 1, c, grown);
    }
  }

  /** `Blocks` and `Block` at neighbour `k`, unfolded once, in terms of the
      loop state `b`, `c`, `grown` that neighbour `k` is reached with. */
  lemma BlockUnfold(g: Digraph, dir: Direction, ns: seq<Node>, affix: string, frontier: Node,
                    budget: int, counter: int, k: nat, b: int, c: int, grown: string)
    requires k < |ns|
    requires b == budget - k && c == counter + Expanded(budget, k)
    requires grown == GrowN(dir, affix, frontier, Expanded(budget, k))
    ensures Blocks(g, dir, ns, affix, frontier, budget, counter, k)
            == Block(g, dir, ns, affix, frontier, budget, counter, k)
               + Blocks(g, dir, ns, affix, frontier, budget, counter, k + 1)
    ensures b - 1 > 0 ==>
              Block(g, dir, ns, affix, frontier, budget, counter, k)
              == [Line(dir, c, ns[k], frontier, grown)] + Walk(g, dir, Grow(dir, grown, frontier), ns[k], b - 1, c + 1)
    ensures b - 1 <= 0 ==> Block(g, dir, ns, affix, frontier, budget, counter, k) == [Line(dir, c, ns[k], frontier, grown)]
  {
    var e := Expanded(budget, k);
    assert GrowN(dir, affix, frontier, e + 1) == Grow(dir, grown, frontier);
    assert budget - (k + 1) == b - 1 && counter + e + 1 == c + 1;
  }

  /** The walk is the concatenation of the neighbours' blocks. Hence every
      direct neighbour gets exactly one line of its own, in iteration order,
      whatever `maxDepth` is (the print comes before the budget check); the
      `k`-th neighbour (from 1) is descended into iff `maxDepth - k > 0`, and
      the descent gets exactly the budget `maxDepth - k`; and the counter and
      display string of a neighbour's line carry one increment and one growth
      for each earlier neighbour that was descended into. */
  lemma WalkIsBlocks(g: Digraph, dir: Direction, affix: string, parent: Node, maxDepth: int, counter: int)
    ensures Walk(g, dir, affix, parent, maxDepth, counter)
            == Blocks(g, dir, g.Neighbours(dir, parent), affix, parent, maxDepth, counter, 0)
  {
    var ns := g.Neighbours(dir, parent);
    LoopFrom(g, dir, ns, affix, parent, maxDepth, counter, 0, maxDepth, counter, affix);
    assert ns[0..] == ns;
  }

  lemma {:induction false} BlocksLength(g: Digraph, dir: Direction, ns: seq<Node>, affix: string, frontier: Node,
                                        budget: int, counter: int, k: nat)
    requires k <= |ns|
    ensures |Blocks(g, dir, ns, affix, frontier, budget, counter, k)| >= |ns| - k
    decreases |ns| - k
  {
    if k < |ns| {
      BlocksLength(g, dir, ns, affix, frontier, budget, counter, k + 1);
    }
  }

  /** Each of the neighbours `ns[k..]` has a line of its own among their blocks. */
  lemma {:induction false} BlocksCover(g: Digraph, dir: Direction, ns: seq<Node>, affix: string, frontier: Node,
                                       budget: int, counter: int, k: nat, j: nat)
    requires k <= j < |ns|
    ensures exists l :: l in Blocks(g, dir, ns, affix, frontier, budget, counter, k)
                        && l.node == ns[j] && l.frontier == frontier
    decreases |ns| - k
  {
    var block := Block(g, dir, ns, affix, frontier, budget, counter, k);
    var rest := Blocks(g, dir, ns, affix, frontier, budget, counter, k + 1);
    assert Blocks(g, dir, ns, affix, frontier, budget, counter, k) == block + rest;
    if j == k {
      assert block[0] in block + rest && block[0].node == ns[j] && block[0].frontier == frontier;
    } else {
      BlocksCover(g, dir, ns, affix, frontier, budget, counter, k + 1, j);
      var l :| l in rest && l.node == ns[j] && l.frontier == frontier;
      assert l in block + rest;
    }
  }

  /** A walk prints a line for each direct neighbour, naming that neighbour
      and the start node, whatever the depth; so it has at least as many lines
      as there are direct neighbours. */
  lemma WalkCoversNeighbours(g: Digraph, dir: Direction, affix: string, parent: Node, maxDepth: int, counter: int)
    ensures |Walk(g, dir, affix, parent, maxDepth, counter)| >= |g.Neighbours(dir, parent)|
    ensures forall j :: 0 <= j < |g.Neighbours(dir, parent)| ==>
              exists l :: l in Walk(g, dir, affix, parent, maxDepth, counter)
                          && l.node == g.Neighbours(dir, parent)[j] && l.frontier == parent
  {
    var ns := g.Neighbours(dir, parent);
    WalkIsBlocks(g, dir, affix, parent, maxDepth, counter);
    BlocksLength(g, dir, ns, affix, parent, maxDepth, counter, 0);
    forall j | 0 <= j < |ns|
      ensures exists l :: l in Walk(g, dir, affix, parent, maxDepth, counter) && l.node == ns[j] && l.frontier == parent
    {
      BlocksCover(g, dir, ns, affix, parent, maxDepth, counter, 0, j);
    }
  }

  // ---------------------------------------------------------------------
  // Depth one or less

  lemma {:induction false} FlatLoop(g: Digraph, dir: Direction, ns: seq<Node>, affix: string, frontier: Node,
                                    budget: int, counter: int)
    requires budget <= 1
    ensures Loop(g, dir, ns, affix, frontier, budget, counter)
            == seq(|ns|, i requires 0 <= i < |ns| => Line(dir, counter, ns[i], frontier, affix))
    decreases |ns|
  {
    if ns != [] {
      FlatLoop(g, dir, ns[1..], affix, frontier, budget - 1, counter);
    }
  }

  /** With `maxDepth <= 1` (zero and negative depths included) the walk prints
      exactly one line per direct neighbour, all with the caller's counter and
      display string, and nothing deeper. */
  lemma FlatWalk(g: Digraph, dir: Direction, affix: string, parent: Node, maxDepth: int, counter: int)
    requires maxDepth <= 1
    ensures var ns := g.Neighbours(dir, parent);
            Walk(g, dir, affix, parent, maxDepth, counter)
            == seq(|ns|, i requires 0 <= i < |ns| => Line(dir, counter, ns[i], parent, affix))
  {
    FlatLoop(g, dir, g.Neighbours(dir, parent), affix, parent, maxDepth, counter);
  }

  // ---------------------------------------------------------------------
  // Every line is an edge; counters stay within the budget

  lemma {:induction false} LoopEdges(g: Digraph, dir: Direction, ns: seq<Node>, affix: string, frontier: Node,
                                     budget: int, counter: int)
    requires g.Valid() && frontier in g.nodes && forall x :: x in ns ==> x in g.Neighbours(dir, frontier)
    ensures forall l :: l in Loop(g, dir, ns, affix, frontier, budget, counter) ==>
              && l.dir == dir && l.frontier in g.nodes
              && l.node in g.Neighbours(dir, l.frontier)
              && l.frontier in g.Neighbours(dir.Flip(), l.node)
    decreases Pos(budget), |ns|
  {
    if ns != [] {
      NeighboursOfNode(g, dir, frontier);
      var b := budget - 1;
      if b > 0 {
        LoopEdges(g, dir, g.Neighbours(dir, ns[0]), Grow(dir, affix, frontier), ns[0], b, counter + 1);
        LoopEdges(g, dir, ns[1..], Grow(dir, affix, frontier), frontier, b, counter + 1);
      } else {
        LoopEdges(g, dir, ns[1..], affix, frontier, b, counter);
      }
    }
  }

  /** Every printed line names a real edge: on an upstream line the node
      before the frontier is a predecessor of it, on a downstream line the node
      after the frontier is a successor of it (and the graph records the edge
      from both ends). */
  lemma WalkEdges(g: Digraph, dir: Direction, affix: string, parent: Node, maxDepth: int, counter: int)
    requires g.Valid() && parent in g.nodes
    ensures forall l :: l in Walk(g, dir, affix, parent, maxDepth, counter) ==>
              && l.dir == dir && l.frontier in g.nodes
              && l.node in g.Neighbours(dir, l.frontier)
              && l.frontier in g.Neighbours(dir.Flip(), l.node)
  {
    LoopEdges(g, dir, g.Neighbours(dir, parent), affix, parent, maxDepth, counter);
  }

  lemma {:induction false} LoopCounters(g: Digraph, dir: Direction, ns: seq<Node>, affix: string, frontier: Node,
                                        budget: int, counter: int)
    ensures forall l :: l in Loop(g, dir, ns, affix, frontier, budget, counter) ==>
              counter <= l.counter <= counter + Pos(budget - 1)
    decreases Pos(budget), |ns|
  {
    if ns != [] {
      var b := budget - 1;
      if b > 0 {
        LoopCounters(g, dir, g.Neighbours(dir, ns[0]), Grow(dir, affix, frontier), ns[0], b, counter + 1);
        LoopCounters(g, dir, ns[1..], Grow(dir, affix, frontier), frontier, b, counter + 1);
      } else {
        LoopCounters(g, dir, ns[1..], affix, frontier, b, counter);
      }
    }
  }

  /** Every counter printed lies between the starting counter and the starting
      counter plus `maxDepth - 1`: each raise of the counter uses up budget. */
  lemma WalkCounters(g: Digraph, dir: Direction, affix: string, parent: Node, maxDepth: int, counter: int)
    ensures forall l :: l in Walk(g, dir, affix, parent, maxDepth, counter) ==>
              counter <= l.counter <= counter + Pos(maxDepth - 1)
  {
    LoopCounters(g, dir, g.Neighbours(dir, parent), affix, parent, maxDepth, counter);
  }

  // ---------------------------------------------------------------------
  // Start, end and unconnected nodes

  /** `--list_start_nodes`, `--list_end_nodes`, `--list_unconnected_nodes`. */
  datatype Kind = Source | Sink | Isolated

  /** The test each listing applies to a node, on the numbers of its
      predecessors and successors. */
  predicate IsKind(g: Digraph, n: Node, k: Kind)
    requires g.Valid() && n in g.nodes
  {
    match k
    case Source => |g.pred[n]| == 0 && |g.succ[n]| > 0
    case Sink => |g.pred[n]| > 0 && |g.succ[n]| == 0
    case Isolated => |g.pred[n]| == 0 && |g.succ[n]| == 0
  }

  /** The nodes of `ns` that pass the test for `k`, in order. */
  function NodesOfKind(g: Digraph, ns: seq<Node>, k: Kind): seq<Node>
    requires g.Valid() && forall x :: x in ns ==> x in g.nodes
  {
    if ns == [] then []
    else NodesOfKind(g, ns[..|ns| - 1], k) + (if IsKind(g, ns[|ns| - 1], k) then [ns[|ns| - 1]] else [])
  }

  lemma {:induction false} NodesOfKindMembers(g: Digraph, ns: seq<Node>, k: Kind)
    requires g.Valid() && forall x :: x in ns ==> x in g.nodes
    ensures forall n :: n in NodesOfKind(g, ns, k) <==> n in ns && IsKind(g, n, k)
  {
    if ns != [] {
      NodesOfKindMembers(g, ns[..|ns| - 1], k);
      assert ns == ns[..|ns| - 1] + [ns[|ns| - 1]];
    }
  }

  lemma NodesOfKindStep(g: Digraph, i: nat, k: Kind)
    requires g.Valid() && i < |g.nodes|
    ensures NodesOfKind(g, g.nodes[..i + 1], k)
            == NodesOfKind(g, g.nodes[..i], k) + (if IsKind(g, g.nodes[i], k) then [g.nodes[i]] else [])
  {
    assert g.nodes[..i + 1][..i] == g.nodes[..i];
  }

  /** One of the three classification loops over `G.nodes`: prints each node
      that passes the test for `k`, in node order, and exactly those. */
  method ListNodesOfKind(g: Digraph, k: Kind) returns (out: seq<Node>)
    requires g.Valid()
    ensures out == NodesOfKind(g, g.nodes, k)
    ensures forall n :: n in out <==> n in g.nodes && IsKind(g, n, k)
  {
    out := [];
    for i := 0 to |g.nodes|
      invariant out == NodesOfKind(g, g.nodes[..i], k)
    {
      var thisNode := g.nodes[i];
      NodesOfKindStep(g, i, k);
      var numPredecessors := |g.pred[thisNode]|;
      var numSuccessors := |g.succ[thisNode]|;
      var selected := match k
        case Source => numPredecessors == 0 && numSuccessors > 0
        case Sink => numPredecessors > 0 && numSuccessors == 0
        case Isolated => numPredecessors == 0 && numSuccessors == 0;
      assert selected == IsKind(g, thisNode, k);
      if selected {
        out := out + [thisNode];
      }
    }
    assert g.nodes[..|g.nodes|] == g.nodes;
    NodesOfKindMembers(g, g.nodes, k);
  }

  /** No node is printed by two of the listings, and a node with both
      predecessors and successors is printed by none of them; every other
      node is printed by exactly one. */
  lemma ClassificationPartitions(g: Digraph, n: Node)
    requires g.Valid() && n in g.nodes
    ensures forall k1, k2 :: k1 != k2 && n in NodesOfKind(g, g.nodes, k1) ==> n !in NodesOfKind(g, g.nodes, k2)
    ensures (forall k :: n !in NodesOfKind(g, g.nodes, k)) <==> |g.pred[n]| > 0 && |g.succ[n]| > 0
  {
    forall k1, k2 | k1 != k2 && n in NodesOfKind(g, g.nodes, k1)
      ensures n !in NodesOfKind(g, g.nodes, k2)
    {
      NodesOfKindMembers(g, g.nodes, k1);
      NodesOfKindMembers(g, g.nodes, k2);
      match k1
      case Source =>
      case Sink =>
      case Isolated =>
    }
    if |g.pred[n]| > 0 && |g.succ[n]| > 0 {
      forall k
        ensures n !in NodesOfKind(g, g.nodes, k)
      {
        NodesOfKindMembers(g, g.nodes, k);
        match k
        case Source =>
        case Sink =>
        case Isolated =>
      }
    } else {
      var k := if |g.pred[n]| == 0 && |g.succ[n]| > 0 then Source
               else if |g.pred[n]| > 0 then Sink
               else Isolated;
      NodesOfKindMembers(g, g.nodes, k);
      assert n in NodesOfKind(g, g.nodes, k);
    }
  }

  // ---------------------------------------------------------------------
  // The queries of the `__main__` block

  /** `--list_all_nodes`: every node, once, in node order. */
  method ListAllNodes(g: Digraph) returns (out: seq<Node>)
    ensures out == g.nodes
  {
    out := [];
    for i := 0 to |g.nodes|
      invariant out == g.nodes[..i]
    {
      assert g.nodes[..i + 1] == g.nodes[..i] + [g.nodes[i]];
      out := out + [g.nodes[i]];
    }
  }

  /** `--list_all_neighbors node depth`: the header, then the upstream walk,
      then the downstream walk; both walks start with counter 1, an empty
      display string and the same parsed depth. */
  method ListAllNeighbors(g: Digraph, node: Node, depthText: string, depth: int) returns (out: seq<string>)
    requires g.Valid() && node in g.nodes
    ensures out == [Header("neighbors of ", node, depthText)]
                   + RenderAll(Walk(g, Up, "", node, depth, 1), Render)
                   + RenderAll(Walk(g, Down, "", node, depth, 1), Render)
  {
    out := [Header("neighbors of ", node, depthText)];
    var upstream := RecursivePredecessors(g, "", node, depth, 1);
    out := out + upstream;
    var downstream := RecursiveSuccessors(g, "", node, depth, 1);
    out := out + downstream;
  }

  /** `--list_upstream node depth`: the header, then the upstream walk. */
  method ListUpstream(g: Digraph, node: Node, depthText: string, depth: int) returns (out: seq<string>)
    requires g.Valid() && node in g.nodes
    ensures out == [Header("upstream neighbors of ", node, depthText)] + RenderAll(Walk(g, Up, "", node, depth, 1), Render)
  {
    var upstream := RecursivePredecessors(g, "", node, depth, 1);
    out := [Header("upstream neighbors of ", node, depthText)] + upstream;
  }

  /** `--list_downstream node depth`: the header, then the downstream walk. */
  method ListDownstream(g: Digraph, node: Node, depthText: string, depth: int) returns (out: seq<string>)
    requires g.Valid() && node in g.nodes
    ensures out == [Header("downstream neighbors of ", node, depthText)] + RenderAll(Walk(g, Down, "", node, depth, 1), Render)
  {
    var downstream := RecursiveSuccessors(g, "", node, depth, 1);
    out := [Header("downstream neighbors of ", node, depthText)] + downstream;
  }
}
