# Explaining graph of a regular expression — Dafny model

This project models the core of a draft tool that explains regular expressions
as graphs. The model covers three parts:

- **Part tree.** A regular expression is a tree of parts: `Text`,
  `Alternative`, `BorderAssert` and `Subexpression`. The root container is an
  `ExplainingGraph`. It hands out part ids from one shared counter, and every
  container under it counts on the root's counter.
- **Lowering to DOT.** The root lowers its parts into a DOT digraph: a `begin`
  node, an `end` node, then one node and one link per part, and a final link
  into `end`. A `DotNode` renders itself as one DOT statement.
- **Branch comparison.** A score is computed for each pair of branches.
  It counts the items of the first branch that find no match ahead of a
  forward-only cursor in the second, plus the difference of the branch lengths.
  Every branch of one container is paired with every branch of another, and
  the list of pairs is meant to be ordered by score. As written, the sort call
  raises TypeError, so neither the list nor the diff graph is ever returned
  (see "## Findings").

Files:

- `wrappers.dfy` holds Option/Result.
- `dot.dfy` models `egraph/dot.py`. It is pure.
- `egraph.dfy` models `egraph/egraph.py`. `ExplainingGraph` is a class whose
  `AddPart` and `ToGraph` update `parts` and `idCounter` in place. Parts are
  values.
- `egraphdiff.dfy` models `egraph/egraphdiff.py`. `compare_branches` and the
  double loop of `find_comprasions` are methods with loops. Both are proved
  against recursive specification functions.

The final link of `ExplainingGraph.to_graph` takes the counter value without
incrementing it (`egraph/egraph.py:78`), so a lowering of `n` parts advances
the counter by `n + 2`. A second lowering therefore gives its `begin` node the
id of the first lowering's final link (`SecondToGraphReusesLastLinkId`).

The `begin`/`end` nodes are built as the code builds them. They are
created with positional arguments, so `color` is `"filled"`, `tooltip` is
`"purple"` and `style` is `"begin"`/`"end"`.

## Model

| member | source | states |
|---|---|---|
| Dot.DefaultAttributes | egraph/dot.py:11-31 | An IDotable defaults to id -1 and empty label, color, tooltip and style. A DotNode defaults to color black, style solid, shape ellipse and fillcolor white, and hands id, label, color, tooltip and style to its IDotable part. |
| Dot.IntToStringRoundTrip | egraph/dot.py:36-38 | The decimal rendering of a node id that `format` puts into the statement reads back as the same integer, negative ids included. |
| Dot.IntToStringInjective | egraph/dot.py:36-38 | Distinct ids render as distinct strings, so distinct ids give distinct `nd_` names and `graphid_` ids. |
| Dot.ToDot | egraph/dot.py:34-38 | The one-line node statement, attributes in the order shape, id, color, style, label, fillcolor, tooltip. Its shape is stated by ToDotStart, ToDotEnd and ToDotRepeatsId, its round trip by ParseToDot. |
| Dot.ToDotStart | egraph/dot.py:36 | The statement starts with the quoted name `"nd_<id>"` followed by ` [shape=<shape>`. |
| Dot.ToDotEnd | egraph/dot.py:37 | The statement ends with `];`. |
| Dot.ToDotRepeatsId | egraph/dot.py:36 | The id appears twice: once in the node name and once in the `id="graphid_<id>"` attribute. |
| Dot.ParseToDot | egraph/dot.py:34-38 | Decoding the statement gives back the node: every one of the seven attributes is recovered. This holds when label and tooltip hold no double quote and the bare attributes hold no comma. |
| Dot.UnescapedLabelIsAmbiguous | egraph/dot.py:35-38 | Label and tooltip are inserted without escaping. So two different nodes can render to the same statement: a quote in the label ends it early. |
| EGraph.NewText | egraph/egraph.py:101-103 | Text(txt): a leaf with a None id and the given text (stated by FreshParts). |
| EGraph.NewAlternative | egraph/egraph.py:88-90 | Alternative(): a leaf with a None id (stated by FreshParts). |
| EGraph.NewBorderAssert | egraph/egraph.py:115-117 | BorderAssert(inverse): a leaf with a None id and the given inverse flag (stated by FreshParts). |
| EGraph.NewSubexpression | egraph/egraph.py:128-130 | Subexpression(number): PartContainer.__init__ creates no `_id`, so it has no id attribute; no parts, no root, the given number (stated by FreshParts). |
| EGraph.FreshParts | egraph/egraph.py:11-130 | The constructors Part.__init__ (11-12), PartContainer.__init__ (33-35), Alternative (88-90), Text (101-103), BorderAssert (115-117) and Subexpression (128-130): a fresh Text, Alternative or BorderAssert has a None id. Text keeps its text and BorderAssert its inverse flag. A fresh Subexpression has no id attribute, keeps its number, and has no parts and no root. |
| EGraph.GetId | egraph/egraph.py:14-16 | The getter succeeds exactly when the `_id` attribute exists. |
| EGraph.SetId | egraph/egraph.py:18-20 | After the setter the id holds the value set. |
| EGraph.GetSetId | egraph/egraph.py:14-20 | After the id setter runs, the getter returns the value that was set, on every kind of part. Nothing else about the part changes. |
| EGraph.GetIdFails | egraph/egraph.py:14-16 | The getter raises AttributeError exactly on a container whose `_id` was never created. It returns None exactly when the id is unset. |
| EGraph.Adopt | egraph/egraph.py:37-43 | A part stored by add_part always carries an id, and a preset id is kept. The full effect is stated by AdoptedPart. |
| EGraph.AdoptedPart | egraph/egraph.py:37-43 | add_part numbers a part only when its id is None, and keeps a preset id. It points a container part at the adder's root. Kind, text, inverse flag, number and sub-parts are unchanged. |
| EGraph.ExplainingGraph.constructor | egraph/egraph.py:55-59 | A new root has id "explaining_graph", no parts, counter 1, and is its own root. |
| EGraph.ExplainingGraph.AddPart | egraph/egraph.py:37-43 | The counter rises by one. The part is appended, adopted with the old counter value. The root stays valid. If every part so far was auto-numbered and this one has no id, part k still has id k + 1. |
| EGraph.AddPartToSubexpression | egraph/egraph.py:37-43 | Adding to a Subexpression takes the id from, and increments, the counter of the container's root. The root's own parts are left alone. |
| EGraph.TextToGraph | egraph/egraph.py:105-107 | Text.to_graph returns a one-node list whose only node is also the returned `new` node. |
| EGraph.TextNode | egraph/egraph.py:105-107 | The node is a default DotNode carrying the part's id and text. It does not depend on `current`. |
| EGraph.BeginNode | egraph/egraph.py:64 | The begin node, labelled "begin", is named by the counter value it is built with. |
| EGraph.EndNode | egraph/egraph.py:67 | The end node, labelled "end", is named by the counter value it is built with. |
| EGraph.BeginEndAttributes | egraph/egraph.py:64-67 | The begin and end nodes carry the positional arguments: label begin/end, color filled, tooltip purple, style begin/end, shape rect, fillcolor purple. |
| EGraph.ExplainingGraph.ToGraph | egraph/egraph.py:61-80 | The digraph's items are exactly GraphItems(parts, old counter). The parts are unchanged. The counter rises by the number of parts plus 2. |
| EGraph.GraphLayout | egraph/egraph.py:62-78 | For n parts there are 2n + 3 items: begin (counter c), end (c + 1), then each part's node followed by the link into it (link id c + 2 + j), then the link into end (c + 2 + n). |
| EGraph.GraphIsPath | egraph/egraph.py:71-78 | The n + 1 links run begin → part 1 → … → part n → end in the order appended, each from the previous `current` to the next. |
| EGraph.GraphIds | egraph/egraph.py:64-78 | begin has id c, end c + 1, the node of part j the part's own id, link j the value c + 2 + j and the final link c + 2 + n. |
| EGraph.IdAt | egraph/egraph.py:64-78 | Every item index belongs to begin, end, a part node or a link, and its id is the one GraphIds gives for that item. |
| EGraph.GraphIdsDistinct | egraph/egraph.py:64-78 | If the parts' ids are pairwise distinct and below the counter, no two items of the digraph share an id. |
| EGraph.AutoNumberedGraphIdsDistinct | egraph/egraph.py:38-40 | On a root whose parts were all numbered by add_part, parts hold ids 1..n, begin n + 1 and end n + 2, the final link 2n + 3, and all item ids are distinct. |
| EGraph.SecondToGraphReusesLastLinkId | egraph/egraph.py:74-78 | The final link does not consume its counter value. So a second to_graph gives its begin node the id of the first call's final link. |
| EGraphDiff.CompareItems | egraph/egraphdiff.py:41-45 | Two items compare equal exactly when they are equal. |
| EGraphDiff.CompareItemsIsEquality | egraph/egraphdiff.py:41-45 | Items of different classes never compare equal. Otherwise the comparison is equality. |
| EGraphDiff.FirstMatch | egraph/egraphdiff.py:29-32 | The inner while stops at the first position from the cursor whose item matches, or at the end. It never moves backwards and skips no match. |
| EGraphDiff.Score | egraph/egraphdiff.py:24-38 | The score lies between the length difference and that difference plus the length of the first branch. |
| EGraphDiff.CompareBranches | egraph/egraphdiff.py:24-38 | The loop with its forward-only cursor and `while … else` returns Score: misses plus the length difference. |
| EGraphDiff.ScoreOfEmpty | egraph/egraphdiff.py:24-38 | An empty first branch scores the length of the second. |
| EGraphDiff.ExhaustedCursor | egraph/egraphdiff.py:29-34 | Once the cursor is at the end, every remaining item counts as a difference. |
| EGraphDiff.MissStaysMissed | egraph/egraphdiff.py:29-34 | An item that finds no match leaves the cursor at the end, so every later item counts too. |
| EGraphDiff.ScoreReflexive | egraph/egraphdiff.py:24-38 | A branch scores 0 against itself. |
| EGraphDiff.ScoreZeroForDifferentBranches | egraph/egraphdiff.py:29-32 | Score 0 does not imply equal branches: the cursor stays on a match, so one item can match several. |
| EGraphDiff.ScoreNotSymmetric | egraph/egraphdiff.py:24-38 | The score is not symmetric: [a] against [b, a] scores 1, the reverse scores 3. |
| EGraphDiff.BuildComparisons | egraph/egraphdiff.py:15-18 | The double loop produces AllPairs: one (score, branch1, branch2) triple per pair, first container outer. |
| EGraphDiff.RowAt | egraph/egraphdiff.py:17-18 | The inner loop yields one entry per branch of the second container, in order, each scored by compare_branches. |
| EGraphDiff.AllPairsLength | egraph/egraphdiff.py:15-18 | There are \|cont1\| × \|cont2\| entries. |
| EGraphDiff.AllPairsAt | egraph/egraphdiff.py:15-18 | The pair (i, j) sits at position i × \|cont2\| + j with the score of branch i against branch j. |
| EGraphDiff.SortByScore | egraph/egraphdiff.py:20 | The sort that line 20 evidently means keeps the number of entries. Order and permutation are stated by SortByScoreSpec. |
| EGraphDiff.InsertSorted | egraph/egraphdiff.py:20 | Inserting into a score-sorted list keeps it sorted and adds exactly the new entry. |
| EGraphDiff.SortByScoreSpec | egraph/egraphdiff.py:20 | The sort orders entries by score and is a permutation of its input. |
| EGraphDiff.FindComparisonsAsWritten | egraph/egraphdiff.py:14-21 | As written, find_comprasions fails with TypeError on every input. |
| EGraphDiff.FindComparisons | egraph/egraphdiff.py:14-21 | With the key passed by name: \|cont1\| × \|cont2\| entries, sorted by score, and a permutation of all pairs. |
| EGraphDiff.DiffEgraphs | egraph/egraphdiff.py:6-11 | As written, diffegraphs fails with TypeError on every input: the call to find_comprasions at line 9 raises, so no graph is returned. |
| EGraphDiff.DiffEgraphsCorrected | egraph/egraphdiff.py:6-11 | With the corrected find_comprasions, diffegraphs returns a fresh DiffExplainingGraph with id "diffegraph". The comparisons are computed and discarded. |

## Left out

- The Tk GUI and the rendering of DOT text by Graphviz are outside this model. They are I/O.
- `DotLink` and `DotDigraph` are not defined in `egraph/dot.py`. They are modelled as plain records (`Dot.DotItem`, `Dot.DotDigraph`) and their serialisation is not modelled.
- `IGraph`, the base class of `DiffExplainingGraph` (`egraph/egraphdiff.py:48`), is defined in neither `egraph/egraph.py` nor `egraph/dot.py`, so without it importing `egraph/egraphdiff.py` raises NameError and none of its functions can be called. The model, and both rows under "## Findings", assume an `IGraph` whose `__init__` accepts the id, as they assume `DotLink` and `DotDigraph` exist. Only that id is modelled.
- The `to_graph` of Alternative, BorderAssert and Subexpression is an empty stub that returns None. `to_graph` on the root would fail on such parts.
- EGraph.ExplainingGraph.ToGraph: requires every root part to be Text, because of the stubs above.
- The classes DiffAlt, DiffSubexpresion, DiffConditionalSubexpression, DiffAssert and DiffAssertComplex are not modelled. Their `__init__` passes an id to `Part.__init__` (or, for DiffSubexpresion and DiffAssertComplex, to `PartContainer.__init__`), which accepts none. Their `to_graph` calls `_set_id_if_not_exist`, which does not exist, and passes `comment=` to DotNode, which `DotNode.__init__` does not accept.
- Alternative's `branches` set is never filled in this code, so it is not modelled.
- Parts are values. Python objects can be shared between containers, and a later id change through one reference would show through the other. That aliasing is not modelled.
- EGraph.AddPartToSubexpression: returns the updated container as a new value rather than updating it in place, and requires it to have a root. add_part on a container without a root fails on `None._idcounter`, and that failure is not modelled.
- EGraph.ExplainingGraph.AddPart: requires the part to have an id attribute. A container that was never adopted has none, and add_part would raise AttributeError on it.
- EGraph.TextToGraph: requires the Text part to have an id. Text parts stored in a root always have one. A bare Text with a None id would give a node with id None, which the integer node id cannot hold.
- Preset part ids are modelled as integers only. Python accepts any value as an id.
- EGraphDiff.CompareItems: compares by value rather than by identity, for the reason on the next line.
- EGraphDiff.CompareItemsIsEquality: Part defines no `__eq__`, so Python compares parts by identity. The model compares them as values, so two distinct but identical parts match here.
- PartContainer defines no iteration, so `find_comprasions` on two containers would already raise TypeError at line 16, before the sort at line 20. The model takes each container as the sequence of its branches, so the double loop and the sort are modelled as they are meant to work.
- EGraphDiff.FindComparisons: proves sorted and permutation, but not stability. With `key=` the sort would also keep equal scores in input order; the insertion sort does too, but no lemma states it.

## Findings

| source | as written | input that shows it | evidently intended | confidence | as-written member | corrected member |
|---|---|---|---|---|---|---|
| egraph/egraphdiff.py:20 | Given an `IGraph` that lets the module import, `result.sort(lambda k: k[0])` passes the key positionally. `list.sort` accepts only keyword arguments, so it raises TypeError. | Any two lists of branches, e.g. two empty lists (a PartContainer argument already fails at line 16). | `result.sort(key=lambda k: k[0])`: the pairs ordered by score. | not executed | EGraphDiff.FindComparisonsAsWritten | EGraphDiff.FindComparisons |
| egraph/egraphdiff.py:9 | Given an `IGraph` that lets the module import, diffegraphs calls find_comprasions, which raises TypeError at line 20, and does not catch it, so diffegraphs never returns its graph. | Any two lists of branches, e.g. two empty lists. | The fresh DiffExplainingGraph is returned once the comparisons are computed. | not executed | EGraphDiff.DiffEgraphs | EGraphDiff.DiffEgraphsCorrected |
