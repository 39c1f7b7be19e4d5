# Neighbour walks over a Graphviz graph

This project models the query core of two command-line scripts that load a
directed graph from a Graphviz DOT file (through networkx) and print what it
contains around a node.

- `search_graphviz_dot.py` walks upstream (`recursive_predecessors`) and
  downstream (`recursive_successors`) from a node. Both walks spend a depth
  budget. They print `<counter>: <p> -> <parent><suffix>` upstream and
  `<counter>: <prefix><parent> -> <s>` downstream. The script also lists
  start, end and unconnected nodes, and its neighbour queries compose the
  walks behind a header line.
- `runme.py` is the earlier version. Its upstream and all-neighbour queries
  print one hop only (`p -> n`, `n -> s`). Its downstream query is three
  nested loops that print `depth=k: n -> ... ` for every walk of one to three
  edges.

The loaded graph is the value `Digraphs.Digraph`:

- the node sequence in the graph's own order;
- predecessor and successor lists per node, in networkx iteration order.

`Digraph.Valid` states what any networkx `DiGraph` satisfies: distinct nodes,
an adjacency entry for every node, edges recorded at both ends, and no
neighbour listed twice. Every query returns the lines it prints, in order, as
a `seq<string>`.

Each walk is specified by one function, `SearchGraphvizDot.Walk`, for both
directions. It produces `Line` records (counter, neighbour, frontier node and
display string), and `SearchGraphvizDot.Render` turns each into the printed text
(`Format.RenderAll` renders a whole sequence, for both scripts' line types). The
methods `RecursivePredecessors` and `RecursiveSuccessors` follow the Python
loops statement by statement. They mutate `max_depth`, `counter` and the
display string inside the loop, and recurse from it. Each is proved to print
exactly the rendered walk.

The walk has one behaviour that only the lemmas make visible: a single budget
is shared by all neighbours of one loop. The budget is decremented once per
neighbour, so only the first `maxDepth - 1` neighbours are descended into. The
counter and the display string are not reset between neighbours either.
`WalkIsBlocks` gives the output in closed form. `Scenarios.DepthIsNotMonotone`
shows that a larger depth can drop lines printed at a smaller one: with
predecessors `a` and `b` of `n`, depth 1 prints `1: b -> n` but depth 2
prints `2: b -> n -> n` instead. A depth of 0 or less still prints every
direct neighbour, because the print comes before the budget test (`FlatWalk`).
The upstream display string is grown by appending ` -> parent` at the end, so
from the third line of a descent on, an upstream line lists the path out of
order. On the chain `start -> a0 -> a1 -> end`, the upstream walk from `end` to
depth 3 prints `3: start -> a0 -> end -> a1` (`Scenarios.UpstreamSuffixOrder`).

`runme.py`'s nested loops are specified by `Runme.Expand`. That function
describes loops `levels` deep below a walk prefix, with no depth argument,
because the script ignores the depth it is given. The lemmas characterise the
listing without loops. It holds exactly the walks of one to three successor
edges out of the node, each once, grouped by first successor in pre-order.

## Model

| member | source | states |
|---|---|---|
| SearchGraphvizDot.RecursivePredecessors | search_graphviz_dot.py:20-33 | prints exactly the rendered upstream walk `Walk(g, Up, suffix, parent, maxDepth, counter)`: one `<counter>: <p> -> <parent><suffix>` line per visited predecessor, with the budget, counter and suffix mutated across the loop as in the source |
| SearchGraphvizDot.RecursiveSuccessors | search_graphviz_dot.py:36-50 | prints exactly the rendered downstream walk: `<counter>: <prefix><parent> -> <s>` lines, with the prefix growing by `parent -> ` on each descent |
| SearchGraphvizDot.PredecessorStep | search_graphviz_dot.py:26-32 | one loop turn of the upstream walk: the printed line, then the descent with budget `maxDepth - 1` and the grown suffix (only when that budget is positive), then the rest of the loop, make up the walk's output |
| SearchGraphvizDot.SuccessorStep | search_graphviz_dot.py:42-48 | the same loop turn for the downstream walk, in the text its print builds |
| SearchGraphvizDot.WalkIsBlocks | search_graphviz_dot.py:26-32 | closed form of the shared budget: the neighbour at 1-based position `k` gets one line, with the counter raised and the display string grown once for each earlier neighbour that was descended into; it is descended into iff `maxDepth - k > 0`, with exactly that budget |
| SearchGraphvizDot.LoopFrom | search_graphviz_dot.py:26-32 | the loop entered at neighbour `k`, in the state the earlier neighbours left (budget `maxDepth - k`, raised counter, grown string), prints the blocks of neighbours `k..` |
| SearchGraphvizDot.WalkCoversNeighbours | search_graphviz_dot.py:26-27 | for any depth, every direct neighbour `ns[j]` has a line of its own naming it and the start node as its frontier; so a walk has at least as many lines as direct neighbours |
| SearchGraphvizDot.FlatWalk | search_graphviz_dot.py:26-29 | with `maxDepth <= 1` (zero and negative included) the walk is exactly one line per direct neighbour, in order, with the caller's counter and display string, and nothing deeper |
| SearchGraphvizDot.WalkEdges | search_graphviz_dot.py:20-50 | on a valid graph every printed line is a real edge: the neighbour is a predecessor (upstream) or successor (downstream) of the frontier node, recorded at both ends |
| SearchGraphvizDot.WalkCounters | search_graphviz_dot.py:28-30 | every printed counter lies between the starting counter and the starting counter plus `maxDepth - 1` (plus 0 when `maxDepth <= 1`) |
| SearchGraphvizDot.NodesOfKindMembers | search_graphviz_dot.py:158-177 | a node is in the filtered list iff it is one of the listed nodes and passes the test for that kind |
| SearchGraphvizDot.ListNodesOfKind | search_graphviz_dot.py:158-177 | the start, end and unconnected listings print, in node order, exactly the nodes with no predecessors and some successors, some predecessors and no successors, or neither |
| SearchGraphvizDot.ClassificationPartitions | search_graphviz_dot.py:158-177 | no node is printed by two listings; a node is printed by none iff it has both predecessors and successors |
| SearchGraphvizDot.ListAllNodes | search_graphviz_dot.py:153-156 | prints every node once, in node order |
| SearchGraphvizDot.ListAllNeighbors | search_graphviz_dot.py:180-206 | the header with the depth as typed, then the upstream walk, then the downstream walk, both from counter 1 with an empty display string and the parsed depth |
| SearchGraphvizDot.ListUpstream | search_graphviz_dot.py:209-222 | the header, then the upstream walk from counter 1 |
| SearchGraphvizDot.ListDownstream | search_graphviz_dot.py:225-248 | the header, then the downstream walk from counter 1 |
| Digraphs.NeighbourIsNode | search_graphviz_dot.py:152 | in a loaded graph a neighbour of a node is itself a node and lists that node as its neighbour in the other direction |
| Runme.DownstreamLines | runme.py:96-101 | the three nested loops print exactly the rendered `DownTree(g, n)` |
| Runme.ListDownstream | runme.py:93-101 | the header, then the nested-loop lines; the depth argument is printed in the header and used nowhere else |
| Runme.Level1 | runme.py:96-97 | a turn of the outer loop prints `depth=1: n -> s` and then what the two inner loops print below `s` |
| Runme.Level2 | runme.py:98-99 | a turn of the middle loop prints `depth=2: n -> s1 -> s2` and then what the inner loop prints below `s2` |
| Runme.Level3 | runme.py:100-101 | a turn of the inner loop prints `depth=3: n -> s1 -> s2 -> s3` and nothing deeper |
| Runme.ExpandMember | runme.py:96-101 | a line is printed by loops `levels` deep below `base` iff its walk extends `base` by one to `levels` successor edges starting in the loop's list, and its label is its number of edges |
| Runme.DownTreeMember | runme.py:96-101 | the downstream listing holds exactly the lines `depth=k` with `1 <= k <= 3` whose walk starts at `n` and follows `k` successor edges, whatever depth was asked for |
| Runme.ExpandNoDuplicates | runme.py:96-101 | when no successor list repeats a node, the nested loops print no line twice |
| Runme.DownTreeNoDuplicates | runme.py:96-101 | on a loaded graph no line of the listing is printed twice; together with `DownTreeMember`, each walk of one to three edges (walks through cycles included) is printed exactly once |
| Runme.ExpandSplit | runme.py:96-101 | pre-order: the output splits, at any successor `s`, into what the earlier successors print, the line for `s` followed by everything printed below it, and what the later successors print |
| Runme.DownTreePreOrder | runme.py:96-101 | the `depth=1` line for the `i`-th successor is immediately followed by all the lines below it, each a `depth=2` or `depth=3` walk through it, and then by the next successor's line |
| Runme.ExpandFirstLevel | runme.py:96-97 | the shallowest lines of the loops are one per element of the loop's list, in order |
| Runme.DownTreeFirstLevel | runme.py:96-97 | the `depth=1` lines are one `n -> s` walk per direct successor `s`, in iteration order |
| Runme.RenderDepth3 | runme.py:101 | a three-edge walk renders as the text the innermost print builds |
| Runme.HopLoop | runme.py:80-83 | one `p -> n` line per predecessor, or one `n -> s` line per successor, in iteration order, and nothing deeper |
| Runme.ListUpstream | runme.py:86-90 | the header, then one `p -> n` line per direct predecessor |
| Runme.ListAllNeighbors | runme.py:77-83 | the header, then all `p -> n` lines, then all `n -> s` lines |
| Runme.ShallowWalkIsHop | runme.py:89-90 | the recursive walk at depth 1 or less prints the one-hop lines of the earlier script, each prefixed with `1: ` |
| Scenarios.ChainValid | search_graphviz_dot.py:152 | the chain `start -> a0 -> a1 -> end` is a loaded graph, so the methods' contracts apply to it |
| Scenarios.ForkValid | search_graphviz_dot.py:152 | the graph with predecessors `a` and `b` of `n` is a loaded graph |
| Scenarios.ChainWalk | search_graphviz_dot.py:36-50 | on `start -> a0 -> a1 -> end` at depth 3 the downstream walk, and so by `ChainValid` what `RecursiveSuccessors` prints, is the three lines that render as `1: start -> a0`, `2: start -> a0 -> a1`, `3: start -> a0 -> a1 -> end` |
| Scenarios.UpstreamSuffixOrder | search_graphviz_dot.py:26-32 | on the same chain the upstream walk from `end` at depth 3 prints `1: a1 -> end`, `2: a0 -> a1 -> end`, `3: start -> a0 -> end -> a1`: the suffix grows at its end, so the third line shows the path out of order |
| Scenarios.ChainTree | runme.py:96-101 | on the same chain the nested loops print the same three walks as `depth=1..3` lines |
| Scenarios.DepthIsNotMonotone | search_graphviz_dot.py:26-32 | on the fork (a loaded graph by `ForkValid`, so this is what `RecursivePredecessors` prints), raising the depth from 1 to 2 drops the line `1: b -> n` and prints `2: b -> n -> n` instead, because the budget, counter and suffix are shared between siblings |

## Left out

- Argument parsing and help text: both scripts' `argparse` setup. The node name, the depth as typed and the parsed depth are parameters. `int()` on the depth text is not modelled, and neither is its failure on text that is not a number.
- Loading the graph: `read_dot` and the `DiGraph` construction belong to networkx. The loaded graph is a `Digraph` value, and the order of its node and neighbour lists is taken as given.
- Unknown node names: networkx raises for a node that is not in the graph. Every query therefore requires that its node is in the graph.
- Shortest path: `nx.shortest_path` and its no-path message, in both scripts. This is a library routine with no repository logic around it.
- `runme.py --list_all_nodes`: it prints networkx's textual form of its node view. That format belongs to the library.
- The classification listings' `len()` on `G.predecessors(n)` and `G.successors(n)`: from networkx 2.0 on these return iterators without a length, so as written `len()` raises `TypeError` on the first node of any non-empty graph. The comment at runme.py:75 shows `G.nodes` printed as a list, which is how a networkx 2.x node view prints (in 1.x `G.nodes` is a method), so 2.x is the library the scripts target. The listings are modelled with the test the code evidently intends: the number of predecessors and successors.
- Printing itself: each printed line is an element of the returned sequence. Output buffering and I/O errors are not modelled.
- Depth monotonicity and per-branch budgets: the code decrements one budget across siblings and never resets the counter or the display string. The model follows the code, and `Scenarios.DepthIsNotMonotone` shows that depth-`k` output need not contain depth-`(k-1)` output.
- A depth of 0 or less still prints every direct neighbour in the code (`FlatWalk`). It prints nothing deeper.
- SearchGraphvizDot.RecursivePredecessors, SearchGraphvizDot.RecursiveSuccessors: the model has no recursion-depth limit. Each descent is one nested Python call, and a chain of descents can be up to `maxDepth - 1` calls deep, for instance around a cycle. Past CPython's default limit of about 1000 frames the program stops with `RecursionError` part-way through the walk. The model instead gives the lines that would be printed with no limit.
- Runme.DownTreeNoDuplicates: the number of lines is not stated as a number. It follows from this lemma together with `DownTreeMember`, which give the listing as exactly the walks of one to three edges, each once.
