/** The earlier, non-recursive queries of `runme.py`: one-hop upstream and
    all-neighbour listings, and a downstream listing hard-wired to three
    nested loops. Every operation returns the lines it prints, in order. */
module Runme {
  import opened Format
  import opened Digraphs
  import Search = SearchGraphvizDot

  /** A line `depth=<depth>: <w0> -> <w1> -> ...` of the downstream listing. */
  datatype WalkLine = WalkLine(depth: int, walk: seq<Node>)

  /** The line as printed. */
  function Render(l: WalkLine): string
  {
    "depth=" + IntToString(l.depth) + ": " + Join(l.walk, " -> ")
  }

  // ---------------------------------------------------------------------
  // The downstream listing

  /** What nested loops `levels` deep print for the successors `ss` of the
      last node of the walk `base`: for each `s`, the line for `base + [s]`,
      then (one level deeper) the lines for the successors of `s`. */
  function Expand(g: Digraph, base: seq<Node>, ss: seq<Node>, levels: nat): seq<WalkLine>
    decreases levels, |ss|
  {
    if ss == [] || levels == 0 then []
    else
      var w := base + [ss[0]];
      [WalkLine(|base|, w)] + Expand(g, w, g.Neighbours(Down, ss[0]), levels - 1) + Expand(g, base, ss[1..], levels)
  }

  /** The lines the three nested loops of `--list_downstream` print for `n`. */
  function DownTree(g: Digraph, n: Node): seq<WalkLine>
  {
    Expand(g, [n], g.Neighbours(Down, n), 3)
  }

  lemma ExpandUnfold(g: Digraph, base: seq<Node>, ss: seq<Node>, levels: nat)
    requires ss != [] && levels > 0
    ensures Expand(g, base, ss, levels)
            == [WalkLine(|base|, base + [ss[0]])]
               + Expand(g, base + [ss[0]], g.Neighbours(Down, ss[0]), levels - 1)
               + Expand(g, base, ss[1..], levels)
  {
  }

  /** One turn of a loop at `ss[i]`, in printed text. */
  lemma ExpandStep(g: Digraph, base: seq<Node>, ss: seq<Node>, i: nat, levels: nat)
    requires i < |ss| && levels > 0
    ensures RenderAll(Expand(g, base, ss[i..], levels), Render)
            == [Render(WalkLine(|base|, base + [ss[i]]))]
               + RenderAll(Expand(g, base + [ss[i]], g.Neighbours(Down, ss[i]), levels - 1), Render)
               + RenderAll(Expand(g, base, ss[i + 1..], levels), Render)
  {
    assert ss[i..][0] == ss[i] && ss[i..][1..] == ss[i + 1..];
    var head := WalkLine(|base|, base + [ss[i]]);
    var sub := Expand(g, base + [ss[i]], g.Neighbours(Down, ss[i]), levels - 1);
    var rest := Expand(g, base, ss[i + 1..], levels);
    assert Expand(g, base, ss[i..], levels) == [head] + sub + rest;
    RenderAllAppend([head] + sub, rest, Render);
    RenderAllAppend([head], sub, Render);
    assert RenderAll([head], Render) == [Render(head)];
  }

  /** One turn of a loop at `ss[i]`, as a step of the printed output:
      `before` is what is printed so far, `after` what the enclosing loops
      still print once this loop is done. */
  lemma Advance(g: Digraph, base: seq<Node>, ss: seq<Node>, i: nat, levels: nat,
                before: seq<string>, after: seq<string>, total: seq<string>)
    requires i < |ss| && levels > 0
    requires before + RenderAll(Expand(g, base, ss[i..], levels), Render) + after == total
    ensures (before + [Render(WalkLine(|base|, base + [ss[i]]))])
            + RenderAll(Expand(g, base + [ss[i]], g.Neighbours(Down, ss[i]), levels - 1), Render)
            + (RenderAll(Expand(g, base, ss[i + 1..], levels), Render) + after) == total
  {
    ExpandStep(g, base, ss, i, levels);
    Regroup(before, [Render(WalkLine(|base|, base + [ss[i]]))],
            RenderAll(Expand(g, base + [ss[i]], g.Neighbours(Down, ss[i]), levels - 1), Render),
            RenderAll(Expand(g, base, ss[i + 1..], levels), Render), after);
  }

  lemma Regroup(a: seq<string>, b: seq<string>, c: seq<string>, d: seq<string>, e: seq<string>)
    ensures a + (b + c + d) + e == (a + b) + c + (d + e)
  {
  }

  /** Leaving a loop that has visited all of `ss`: what remains to be printed
      is `mid`, the rest of the enclosing loop, then `outer`. */
  lemma Finish(g: Digraph, base: seq<Node>, ss: seq<Node>, levels: nat,
               before: seq<string>, mid: seq<string>, outer: seq<string>, total: seq<string>)
    requires before + RenderAll(Expand(g, base, ss[|ss|..], levels), Render) + (mid + outer) == total
    ensures before + mid + outer == total
  {
    assert ss[|ss|..] == [];
  }

  lemma RenderDepth1(n: Node, a: Node)
    ensures Render(WalkLine(1, [n, a])) == "depth=1: " + n + " -> " + a
  {
    assert Join([n, a], " -> ") == n + " -> " + a by { assert [n, a][1..] == [a]; }
    assert IntToString(1) == "1";
  }

  lemma RenderDepth2(n: Node, a: Node, b: Node)
    ensures Render(WalkLine(2, [n, a, b])) == "depth=2: " + n + " -> " + a + " -> " + b
  {
    var arrow := " -> ";
    assert Join([a, b], arrow) == a + arrow + b by { assert [a, b][1..] == [b]; }
    assert Join([n, a, b], arrow) == n + arrow + (a + arrow + b) by { assert [n, a, b][1..] == [a, b]; }
    assert IntToString(2) == "2";
  }

  lemma RenderDepth3(n: Node, a: Node, b: Node, c: Node)
    ensures Render(WalkLine(3, [n, a, b, c])) == "depth=3: " + n + " -> " + a + " -> " + b + " -> " + c
  {
    var arrow := " -> ";
    assert Join([b, c], arrow) == b + arrow + c by { assert [b, c][1..] == [c]; }
    assert Join([a, b, c], arrow) == a + arrow + (b + arrow + c) by { assert [a, b, c][1..] == [b, c]; }
    assert Join([n, a, b, c], arrow) == n + arrow + (a + arrow + (b + arrow + c)) by { assert [n, a, b, c][1..] == [a, b, c]; }
    assert n + arrow + (a + arrow + (b + arrow + c)) == n + arrow + a + arrow + b + arrow + c;
    assert IntToString(3) == "3";
    assert "depth=" + "3" + ": " == "depth=3: ";
  }

  /** A turn of the outermost loop, at the direct successor `firsts[i]`. */
  lemma Level1(g: Digraph, n: Node, firsts: seq<Node>, i: nat, before: seq<string>, total: seq<string>)
    requires i < |firsts|
    requires before + RenderAll(Expand(g, [n], firsts[i..], 3), Render) + [] == total
    ensures (before + ["depth=1: " + n + " -> " + firsts[i]])
            + RenderAll(Expand(g, [n, firsts[i]], g.Neighbours(Down, firsts[i])[0..], 2), Render)
            + (RenderAll(Expand(g, [n], firsts[i + 1..], 3), Render) + []) == total
  {
    Advance(g, [n], firsts, i, 3, before, [], total);
    assert [n] + [firsts[i]] == [n, firsts[i]];
    assert g.Neighbours(Down, firsts[i])[0..] == g.Neighbours(Down, firsts[i]);
    RenderDepth1(n, firsts[i]);
  }

  /** A turn of the middle loop, at `seconds[j]`. */
  lemma Level2(g: Digraph, n: Node, a: Node, seconds: seq<Node>, j: nat,
               before: seq<string>, after: seq<string>, total: seq<string>)
    requires j < |seconds|
    requires before + RenderAll(Expand(g, [n, a], seconds[j..], 2), Render) + after == total
    ensures (before + ["depth=2: " + n + " -> " + a + " -> " + seconds[j]])
            + RenderAll(Expand(g, [n, a, seconds[j]], g.Neighbours(Down, seconds[j])[0..], 1), Render)
            + (RenderAll(Expand(g, [n, a], seconds[j + 1..], 2), Render) + after) == total
  {
    Advance(g, [n, a], seconds, j, 2, before, after, total);
    assert [n, a] + [seconds[j]] == [n, a, seconds[j]];
    assert g.Neighbours(Down, seconds[j])[0..] == g.Neighbours(Down, seconds[j]);
    RenderDepth2(n, a, seconds[j]);
  }

  /** A turn of the innermost loop, at `thirds[k]`: one line, nothing deeper. */
  lemma Level3(g: Digraph, n: Node, a: Node, b: Node, thirds: seq<Node>, k: nat,
               before: seq<string>, after: seq<string>, total: seq<string>)
    requires k < |thirds|
    requires before + RenderAll(Expand(g, [n, a, b], thirds[k..], 1), Render) + after == total
    ensures (before + ["depth=3: " + n + " -> " + a + " -> " + b + " -> " + thirds[k]])
            + RenderAll(Expand(g, [n, a, b], thirds[k + 1..], 1), Render) + after == total
  {
    Advance(g, [n, a, b], thirds, k, 1, before, after, total);
    assert [n, a, b] + [thirds[k]] == [n, a, b, thirds[k]];
    RenderDepth3(n, a, b, thirds[k]);
    assert Expand(g, [n, a, b, thirds[k]], g.Neighbours(Down, thirds[k]), 0) == [];
  }

  /** The three nested `for` loops of `--list_downstream`. */
  method DownstreamLines(g: Digraph, n: Node) returns (out: seq<string>)
    requires n in g.nodes
    ensures out == RenderAll(DownTree(g, n), Render)
  {
    ghost var total := RenderAll(DownTree(g, n), Render);
    var firsts := g.Neighbours(Down, n);
    out := [];
    assert firsts[0..] == firsts;
    for i := 0 to |firsts|
      invariant out + RenderAll(Expand(g, [n], firsts[i..], 3), Render) + [] == total
    {
      var nearest := firsts[i];
      Level1(g, n, firsts, i, out, total);
      ghost var after1 := RenderAll(Expand(g, [n], firsts[i + 1..], 3), Render) + [];
      var seconds := g.Neighbours(Down, nearest);
      out := out + ["depth=1: " + n + " -> " + nearest];
      for j := 0 to |seconds|
        invariant out + RenderAll(Expand(g, [n, nearest], seconds[j..], 2), Render) + after1 == total
      {
        var nextNearest := seconds[j];
        Level2(g, n, nearest, seconds, j, out, after1, total);
        ghost var after2 := RenderAll(Expand(g, [n, nearest], seconds[j + 1..], 2), Render) + after1;
        var thirds := g.Neighbours(Down, nextNearest);
        out := out + ["depth=2: " + n + " -> " + nearest + " -> " + nextNearest];
        for k := 0 to |thirds|
          invariant out + RenderAll(Expand(g, [n, nearest, nextNearest], thirds[k..], 1), Render) + after2 == total
        {
          var nextNextNearest := thirds[k];
          Level3(g, n, nearest, nextNearest, thirds, k, out, after2, total);
          out := out + ["depth=3: " + n + " -> " + nearest + " -> " + nextNearest + " -> " + nextNextNearest];
        }
        Finish(g, [n, nearest, nextNearest], thirds, 1, out,
               RenderAll(Expand(g, [n, nearest], seconds[j + 1..], 2), Render), after1, total);
      }
      Finish(g, [n, nearest], seconds, 2, out, RenderAll(Expand(g, [n], firsts[i + 1..], 3), Render), [], total);
    }
    Finish(g, [n], firsts, 3, out, [], [], total);
    assert out + [] + [] == out;
  }

  /** `--list_downstream`: the header, then the three nested loops. The depth
      typed by the user appears in the header only; the nesting is fixed. */
  method ListDownstream(g: Digraph, node: Node, depthText: string) returns (out: seq<string>)
    requires node in g.nodes
    ensures out == [Header("downstream neighbors of ", node, depthText)] + RenderAll(DownTree(g, node), Render)
  {
    var lines := DownstreamLines(g, node);
    out := [Header("downstream neighbors of ", node, depthText)] + lines;
  }

  // ---------------------------------------------------------------------
  // What the downstream listing contains

  /** Every step of `w` follows an edge of `g`. */
  ghost predicate IsDownWalk(g: Digraph, w: seq<Node>)
  {
    forall i :: 0 <= i < |w| - 1 ==> w[i + 1] in g.Neighbours(Down, w[i])
  }

  lemma IsDownWalkCons(g: Digraph, x: Node, w: seq<Node>)
    ensures IsDownWalk(g, [x] + w) <==> (w == [] || w[0] in g.Neighbours(Down, x)) && IsDownWalk(g, w)
  {
    var v := [x] + w;
    if w != [] && w[0] in g.Neighbours(Down, x) && IsDownWalk(g, w) {
      forall i | 0 <= i < |v| - 1
        ensures v[i + 1] in g.Neighbours(Down, v[i])
      {
        if i > 0 {
          assert v[i] == w[i - 1] && v[i + 1] == w[i];
        }
      }
    }
    if IsDownWalk(g, v) {
      if w != [] {
        assert v[0] == x && v[1] == w[0];
      }
      forall i | 0 <= i < |w| - 1
        ensures w[i + 1] in g.Neighbours(Down, w[i])
      {
        assert v[i + 1] == w[i] && v[i + 2] == w[i + 1];
      }
    }
  }

  /** The lines of `Expand(g, base, ss, levels)` described without the
      loops: walks extending `base` by one to `levels` edges whose first new
      node is in `ss`, labelled with their number of edges. */
  ghost predicate Describes(g: Digraph, base: seq<Node>, ss: seq<Node>, levels: nat, l: WalkLine)
  {
    && l.depth == |l.walk| - 1
    && |base| < |l.walk| <= |base| + levels
    && l.walk[..|base|] == base
    && l.walk[|base|] in ss
    && IsDownWalk(g, l.walk[|base|..])
  }

  lemma {:induction false} ExpandMember(g: Digraph, base: seq<Node>, ss: seq<Node>, levels: nat, l: WalkLine)
    ensures l in Expand(g, base, ss, levels) <==> Describes(g, base, ss, levels, l)
    decreases levels, |ss|
  {
    if ss != [] && levels > 0 {
      var s0 := ss[0];
      var w := base + [s0];
      var head := WalkLine(|base|, w);
      var sub := Expand(g, w, g.Neighbours(Down, s0), levels - 1);
      var rest := Expand(g, base, ss[1..], levels);
      ExpandUnfold(g, base, ss, levels);
      ExpandMember(g, w, g.Neighbours(Down, s0), levels - 1, l);
      ExpandMember(g, base, ss[1..], levels, l);
      if l == head {
        assert w[..|base|] == base && w[|base|..] == [s0];
        assert Describes(g, base, ss, levels, l);
      }
      if Describes(g, w, g.Neighbours(Down, s0), levels - 1, l) {
        var v := l.walk;
        assert v[..|base|] == v[..|w|][..|base|];
        assert v[|base|] == v[..|w|][|base|];
        assert v[|base|..] == [s0] + v[|w|..];
        IsDownWalkCons(g, s0, v[|w|..]);
        assert Describes(g, base, ss, levels, l);
      }
      if Describes(g, base, ss[1..], levels, l) {
        assert Describes(g, base, ss, levels, l);
      }
      if Describes(g, base, ss, levels, l) {
        var v := l.walk;
        if v[|base|] !in ss[1..] {
          assert v[|base|] == s0;
          if |v| == |base| + 1 {
            assert v == v[..|base|] + [v[|base|]];
            assert l == head;
          } else {
            assert v[..|w|] == w by { assert v[..|w|] == v[..|base|] + [v[|base|]]; }
            assert v[|base|..] == [s0] + v[|w|..];
            IsDownWalkCons(g, s0, v[|w|..]);
            assert v[|w|..][0] == v[|w|];
            assert Describes(g, w, g.Neighbours(Down, s0), levels - 1, l);
          }
        }
      }
    }
  }

  /** The downstream listing holds exactly the walks of one to three edges
      out of `n`, each labelled with its number of edges. */
  lemma DownTreeMember(g: Digraph, n: Node, l: WalkLine)
    ensures l in DownTree(g, n) <==>
              1 <= l.depth <= 3 && l.depth == |l.walk| - 1 && l.walk[0] == n && IsDownWalk(g, l.walk)
  {
    ExpandMember(g, [n], g.Neighbours(Down, n), 3, l);
    var v := l.walk;
    if |v| >= 2 {
      assert v == [v[0]] + v[1..];
      IsDownWalkCons(g, v[0], v[1..]);
      assert v[1..][0] == v[1];
      assert v[..1] == [n] <==> v[0] == n;
    }
  }

  lemma NoDuplicatesAppend(a: seq<WalkLine>, b: seq<WalkLine>)
    requires NoDuplicatesLines(a) && NoDuplicatesLines(b)
    requires forall x :: x in a ==> x !in b
    ensures NoDuplicatesLines(a + b)
  {
    forall i, j | 0 <= i < j < |a + b|
      ensures (a + b)[i] != (a + b)[j]
    {
      if j < |a| {
      } else if i >= |a| {
        assert (a + b)[i] == b[i - |a|] && (a + b)[j] == b[j - |a|];
      } else {
        assert (a + b)[i] == a[i] && (a + b)[j] == b[j - |a|];
        assert a[i] in a && b[j - |a|] in b;
      }
    }
  }

  ghost predicate NoDuplicatesLines(ls: seq<WalkLine>)
  {
    forall i, j :: 0 <= i < j < |ls| ==> ls[i] != ls[j]
  }

  /** Every line below `base + [s0]` passes through `s0` and is longer. */
  lemma SubtreeLines(g: Digraph, base: seq<Node>, s0: Node, levels: nat)
    ensures forall l :: l in Expand(g, base + [s0], g.Neighbours(Down, s0), levels) ==>
              |l.walk| > |base| + 1 && l.walk[|base|] == s0
  {
    var w := base + [s0];
    forall l | l in Expand(g, w, g.Neighbours(Down, s0), levels)
      ensures |l.walk| > |base| + 1 && l.walk[|base|] == s0
    {
      ExpandMember(g, w, g.Neighbours(Down, s0), levels, l);
      assert l.walk[|base|] == l.walk[..|w|][|base|];
    }
  }

  /** Every line of an expansion of `ss` passes through an element of `ss`. */
  lemma BranchLines(g: Digraph, base: seq<Node>, ss: seq<Node>, levels: nat)
    ensures forall l :: l in Expand(g, base, ss, levels) ==> |l.walk| > |base| && l.walk[|base|] in ss
  {
    forall l | l in Expand(g, base, ss, levels)
      ensures |l.walk| > |base| && l.walk[|base|] in ss
    {
      ExpandMember(g, base, ss, levels, l);
    }
  }

  /** The three parts of one loop turn are disjoint when the turn's node is
      not visited again later in the loop. */
  lemma TurnNoDuplicates(base: seq<Node>, s0: Node, later: seq<Node>,
                         sub: seq<WalkLine>, rest: seq<WalkLine>)
    requires NoDuplicatesLines(sub) && NoDuplicatesLines(rest) && s0 !in later
    requires forall l :: l in sub ==> |l.walk| > |base| + 1 && l.walk[|base|] == s0
    requires forall l :: l in rest ==> |l.walk| > |base| && l.walk[|base|] in later
    ensures NoDuplicatesLines([WalkLine(|base|, base + [s0])] + sub + rest)
  {
    var head := WalkLine(|base|, base + [s0]);
    assert head !in sub;
    NoDuplicatesAppend([head], sub);
    forall x | x in [head] + sub
      ensures x !in rest
    {
      assert x.walk[|base|] == s0 by {
        if x == head {
          assert head.walk[|base|] == s0;
        }
      }
    }
    NoDuplicatesAppend([head] + sub, rest);
  }

  /** No node has the same successor listed twice. */
  ghost predicate DistinctSuccessors(g: Digraph)
  {
    forall n :: NoDuplicates(g.Neighbours(Down, n))
  }

  lemma NoDuplicatesTail(ss: seq<Node>)
    requires ss != [] && NoDuplicates(ss)
    ensures NoDuplicates(ss[1..]) && ss[0] !in ss[1..]
  {
  }

  /** When no successor list repeats a node, no line is printed twice. */
  lemma {:induction false} ExpandNoDuplicates(g: Digraph, base: seq<Node>, ss: seq<Node>, levels: nat)
    requires DistinctSuccessors(g) && NoDuplicates(ss)
    ensures NoDuplicatesLines(Expand(g, base, ss, levels))
    decreases levels, |ss|
  {
    if ss != [] && levels > 0 {
      var s0 := ss[0];
      NoDuplicatesTail(ss);
      ExpandNoDuplicates(g, base + [s0], g.Neighbours(Down, s0), levels - 1);
      ExpandNoDuplicates(g, base, ss[1..], levels);
      SubtreeLines(g, base, s0, levels - 1);
      BranchLines(g, base, ss[1..], levels);
      TurnNoDuplicates(base, s0, ss[1..], Expand(g, base + [s0], g.Neighbours(Down, s0), levels - 1),
                       Expand(g, base, ss[1..], levels));
      ExpandUnfold(g, base, ss, levels);
    }
  }

  /** On a valid graph the downstream listing prints no line twice. */
  lemma DownTreeNoDuplicates(g: Digraph, n: Node)
    requires g.Valid()
    ensures NoDuplicatesLines(DownTree(g, n))
  {
    assert DistinctSuccessors(g) by {
      forall m
        ensures NoDuplicates(g.Neighbours(Down, m))
      {
        if m in g.succ {
          assert g.Neighbours(Down, m) == g.succ[m];
        }
      }
    }
    ExpandNoDuplicates(g, [n], g.Neighbours(Down, n), 3);
  }

  /** The lines printed while the outer loop is at `s`: its own line, then
      everything the inner loops print below it. */
  function Subtree(g: Digraph, base: seq<Node>, s: Node, levels: nat): seq<WalkLine>
    requires levels > 0
  {
    [WalkLine(|base|, base + [s])] + Expand(g, base + [s], g.Neighbours(Down, s), levels - 1)
  }

  /** Pre-order: the loop's output splits, at any position `i`, into what the
      earlier elements print, the subtree of `ss[i]`, and what the later
      elements print. */
  lemma {:induction false} ExpandSplit(g: Digraph, base: seq<Node>, ss: seq<Node>, levels: nat, i: nat)
    requires levels > 0 && i < |ss|
    ensures Expand(g, base, ss, levels)
            == Expand(g, base, ss[..i], levels) + Subtree(g, base, ss[i], levels) + Expand(g, base, ss[i + 1..], levels)
    decreases i
  {
    ExpandUnfold(g, base, ss, levels);
    if i > 0 {
      var tail := ss[1..];
      var front := ss[..i];
      var head := [WalkLine(|base|, base + [ss[0]])];
      var sub := Expand(g, base + [ss[0]], g.Neighbours(Down, ss[0]), levels - 1);
      assert Expand(g, base, tail, levels)
                 == Expand(g, base, tail[..i - 1], levels) + Subtree(g, base, ss[i], levels) + Expand(g, base, ss[i + 1..], levels) by {
        ExpandSplit(g, base, tail, levels, i - 1);
        assert tail[i - 1] == ss[i] && tail[i..] == ss[i + 1..];
      }
      assert Expand(g, base, front, levels) == head + sub + Expand(g, base, tail[..i - 1], levels) by {
        ExpandUnfold(g, base, front, levels);
        assert front[0] == ss[0] && front[1..] == tail[..i - 1];
      }
      LinesRegroup(head + sub, Expand(g, base, tail[..i - 1], levels), Subtree(g, base, ss[i], levels),
                   Expand(g, base, ss[i + 1..], levels));
    }
  }

  lemma LinesRegroup(a: seq<WalkLine>, b: seq<WalkLine>, c: seq<WalkLine>, d: seq<WalkLine>)
    ensures a + (b + c + d) == (a + b) + c + d
  {
  }

  /** In the downstream listing, the `depth=1` line for the `i`-th successor
      `s` is followed by all the longer lines that pass through `s` and only
      by them, until the line of the next successor. */
  lemma DownTreePreOrder(g: Digraph, n: Node, i: nat)
    requires i < |g.Neighbours(Down, n)|
    ensures var ns := g.Neighbours(Down, n);
            DownTree(g, n)
            == Expand(g, [n], ns[..i], 3)
               + ([WalkLine(1, [n, ns[i]])] + Expand(g, [n, ns[i]], g.Neighbours(Down, ns[i]), 2))
               + Expand(g, [n], ns[i + 1..], 3)
    ensures var ns := g.Neighbours(Down, n);
            forall l :: l in Expand(g, [n, ns[i]], g.Neighbours(Down, ns[i]), 2) ==>
              2 <= l.depth <= 3 && |l.walk| == l.depth + 1 && l.walk[..2] == [n, ns[i]]
  {
    var ns := g.Neighbours(Down, n);
    ExpandSplit(g, [n], ns, 3, i);
    assert [n] + [ns[i]] == [n, ns[i]];
    forall l | l in Expand(g, [n, ns[i]], g.Neighbours(Down, ns[i]), 2)
      ensures 2 <= l.depth <= 3 && |l.walk| == l.depth + 1 && l.walk[..2] == [n, ns[i]]
    {
      ExpandMember(g, [n, ns[i]], g.Neighbours(Down, ns[i]), 2, l);
    }
  }

  /** The lines of `ls` labelled `depth`, in order. */
  function AtDepth(ls: seq<WalkLine>, depth: int): seq<WalkLine>
  {
    if ls == [] then []
    else (if ls[0].depth == depth then [ls[0]] else []) + AtDepth(ls[1..], depth)
  }

  lemma {:induction false} AtDepthAppend(a: seq<WalkLine>, b: seq<WalkLine>, depth: int)
    ensures AtDepth(a + b, depth) == AtDepth(a, depth) + AtDepth(b, depth)
  {
    if a != [] {
      assert (a + b)[1..] == a[1..] + b;
      AtDepthAppend(a[1..], b, depth);
    } else {
      assert a + b == b;
    }
  }

  lemma {:induction false} AtDepthNone(ls: seq<WalkLine>, depth: int)
    requires forall l :: l in ls ==> l.depth != depth
    ensures AtDepth(ls, depth) == []
  {
    if ls != [] {
      assert ls[0] in ls;
      AtDepthNone(ls[1..], depth);
    }
  }

  /** The shallowest lines of an expansion: one per element of `ss`, in order. */
  lemma {:induction false} ExpandFirstLevel(g: Digraph, base: seq<Node>, ss: seq<Node>, levels: nat)
    requires levels > 0
    ensures AtDepth(Expand(g, base, ss, levels), |base|)
            == seq(|ss|, i requires 0 <= i < |ss| => WalkLine(|base|, base + [ss[i]]))
    decreases |ss|
  {
    if ss != [] {
      var s0 := ss[0];
      var w := base + [s0];
      var head := WalkLine(|base|, w);
      var sub := Expand(g, w, g.Neighbours(Down, s0), levels - 1);
      var rest := Expand(g, base, ss[1..], levels);
      var tail := ss[1..];
      var more := seq(|tail|, i requires 0 <= i < |tail| => WalkLine(|base|, base + [tail[i]]));
      assert AtDepth(rest, |base|) == more by {
        ExpandFirstLevel(g, base, tail, levels);
      }
      assert AtDepth(sub, |base|) == [] by {
        forall l | l in sub
          ensures l.depth != |base|
        {
          ExpandMember(g, w, g.Neighbours(Down, s0), levels - 1, l);
        }
        AtDepthNone(sub, |base|);
      }
      assert AtDepth(Expand(g, base, ss, levels), |base|) == [head] + more by {
        ExpandUnfold(g, base, ss, levels);
        AtDepthAppend([head] + sub, rest, |base|);
        AtDepthAppend([head], sub, |base|);
        assert AtDepth([head], |base|) == [head] by { assert [head][1..] == []; }
      }
      assert [head] + more == seq(|ss|, i requires 0 <= i < |ss| => WalkLine(|base|, base + [ss[i]])) by {
        forall i | 1 <= i < |ss|
          ensures ([head] + more)[i] == WalkLine(|base|, base + [ss[i]])
        {
          assert tail[i - 1] == ss[i];
        }
      }
    }
  }

  /** The `depth=1` lines are one per successor of `n`, in successor order. */
  lemma DownTreeFirstLevel(g: Digraph, n: Node)
    ensures AtDepth(DownTree(g, n), 1)
            == seq(|g.Neighbours(Down, n)|, i requires 0 <= i < |g.Neighbours(Down, n)| => WalkLine(1, [n, g.Neighbours(Down, n)[i]]))
  {
    var ns := g.Neighbours(Down, n);
    ExpandFirstLevel(g, [n], ns, 3);
    assert forall i :: 0 <= i < |ns| ==> [n] + [ns[i]] == [n, ns[i]];
  }

  // ---------------------------------------------------------------------
  // The one-hop listings

  /** One line `p -> node` per predecessor `p` (`Up`), or `node -> s` per
      successor `s` (`Down`), in the order the graph stores them. */
  function HopLines(g: Digraph, dir: Direction, node: Node): seq<string>
  {
    var ns := g.Neighbours(dir, node);
    seq(|ns|, i requires 0 <= i < |ns| => if dir == Up then ns[i] + " -> " + node else node + " -> " + ns[i])
  }

  method HopLoop(g: Digraph, dir: Direction, node: Node) returns (out: seq<string>)
    requires node in g.nodes
    ensures |out| == |g.Neighbours(dir, node)|
    ensures forall i :: 0 <= i < |out| ==>
              out[i] == if dir == Up then g.Neighbours(dir, node)[i] + " -> " + node
                        else node + " -> " + g.Neighbours(dir, node)[i]
    ensures out == HopLines(g, dir, node)
  {
    var ns := g.Neighbours(dir, node);
    ghost var lines := HopLines(g, dir, node);
    out := [];
    for i := 0 to |ns|
      invariant out == lines[..i]
    {
      var thisNode := ns[i];
      if dir == Up {
        out := out + [thisNode + " -> " + node];
      } else {
        out := out + [node + " -> " + thisNode];
      }
      assert lines[..i + 1] == lines[..i] + [lines[i]];
    }
    assert lines[..|ns|] == lines;
  }

  /** `--list_upstream`: the header, then one line per direct predecessor. */
  method ListUpstream(g: Digraph, node: Node, depthText: string) returns (out: seq<string>)
    requires node in g.nodes
    ensures out == [Header("upstream neighbors of ", node, depthText)] + HopLines(g, Up, node)
  {
    var lines := HopLoop(g, Up, node);
    out := [Header("upstream neighbors of ", node, depthText)] + lines;
  }

  /** `--list_all_neighbors`: the header, the predecessor lines, then the
      successor lines. */
  method ListAllNeighbors(g: Digraph, node: Node, depthText: string) returns (out: seq<string>)
    requires node in g.nodes
    ensures out == [Header("neighbors of ", node, depthText)] + HopLines(g, Up, node) + HopLines(g, Down, node)
  {
    var ups := HopLoop(g, Up, node);
    var downs := HopLoop(g, Down, node);
    out := [Header("neighbors of ", node, depthText)] + ups + downs;
  }

  lemma RenderFirstLine(dir: Direction, node: Node, m: Node)
    ensures Search.Render(Search.Line(dir, 1, m, node, ""))
            == "1: " + (if dir == Up then m + " -> " + node else node + " -> " + m)
  {
    assert IntToString(1) == "1" by {
      assert NatToString(1) == [DigitChar(1)];
    }
    var arrow := " -> ";
    if dir == Up {
      calc {
        Search.Render(Search.Line(dir, 1, m, node, ""));
        "1" + ": " + m + arrow + node + "";
        "1: " + (m + arrow + node);
      }
    } else {
      calc {
        Search.Render(Search.Line(dir, 1, m, node, ""));
        "1" + ": " + "" + node + arrow + m;
        "1: " + (node + arrow + m);
      }
    }
  }

  /** The recursive walk at depth one or less prints the one-hop lines, each
      prefixed with the counter `1: `. */
  lemma ShallowWalkIsHop(g: Digraph, dir: Direction, node: Node, maxDepth: int)
    requires maxDepth <= 1
    ensures RenderAll(Search.Walk(g, dir, "", node, maxDepth, 1), Search.Render)
            == seq(|HopLines(g, dir, node)|, i requires 0 <= i < |HopLines(g, dir, node)| => "1: " + HopLines(g, dir, node)[i])
  {
    var ns := g.Neighbours(dir, node);
    Search.FlatWalk(g, dir, "", node, maxDepth, 1);
    var ls := Search.Walk(g, dir, "", node, maxDepth, 1);
    RenderAllAt(ls, Search.Render);
    forall i | 0 <= i < |ns|
      ensures RenderAll(ls, Search.Render)[i] == "1: " + HopLines(g, dir, node)[i]
    {
      RenderFirstLine(dir, node, ns[i]);
    }
  }
}
