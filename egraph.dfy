/**
 * The part/container model of egraph/egraph.py: regex parts, the root
 * ExplainingGraph that hands out ids from one shared counter, and the
 * lowering of a root whose parts are all Text into the chain
 * begin -> part_1 -> ... -> part_n -> end.
 */
module EGraph {
  import opened Wrappers
  import opened Dot

  /**
   * The `_id` attribute of a part. PartContainer.__init__ never runs
   * Part.__init__, so a fresh container has no `_id` at all (Absent); every
   * other fresh part has `_id = None` (Unassigned).
   */
  datatype PartId = Absent | Unassigned | Assigned(value: int)

  datatype Error = AttributeError

  /**
   * A part of a regular expression. Alternative keeps no branches here (its set
   * stays empty in this code); a Subexpression is a container with its own
   * parts and the root it was adopted by (`_gmain`).
   */
  datatype Part =
    | Text(id: PartId, text: string)
    | Alternative(id: PartId)
    | BorderAssert(id: PartId, inverse: bool)
    | Subexpression(id: PartId, number: int, parts: seq<Part>, gmain: ExplainingGraph?)

  function NewText(txt: string := ""): (p: Part) {
    Text(Unassigned, txt)
  }

  function NewAlternative(): (p: Part) {
    Alternative(Unassigned)
  }

  function NewBorderAssert(inverse: bool := false): (p: Part) {
    BorderAssert(Unassigned, inverse)
  }

  function NewSubexpression(number: int := 0): (p: Part) {
    Subexpression(Absent, number, [], null)
  }

  /** A fresh leaf part has a None id; a fresh Subexpression has no id attribute, no parts and no root. */
  lemma FreshParts(txt: string, inverse: bool, number: int)
    ensures NewText(txt).id == Unassigned && NewText(txt).text == txt
    ensures NewAlternative().id == Unassigned
    ensures NewBorderAssert(inverse).id == Unassigned && NewBorderAssert(inverse).inverse == inverse
    ensures var s := NewSubexpression(number);
            s.id == Absent && s.number == number && s.parts == [] && s.gmain == null
  {
  }

  /** The getter of Part.id: the `_id` attribute, or an AttributeError when it was never created. */
  function GetId(p: Part): (r: Result<Option<int>, Error>)
    ensures r.Success? <==> p.id != Absent
  {
    match p.id
    case Absent => Failure(AttributeError)
    case Unassigned => Success(None)
    case Assigned(v) => Success(Some(v))
  }

  /** The setter of Part.id. */
  function SetId(p: Part, v: int): (r: Part)
    ensures r.id == Assigned(v)
  {
    p.(id := Assigned(v))
  }

  /** Reading the id back gives what was set, on every kind of part, and nothing else changes. */
  lemma GetSetId(p: Part, v: int)
    ensures GetId(SetId(p, v)) == Success(Some(v))
    ensures SetId(p, v).(id := p.id) == p
  {
  }

  /** The getter fails exactly on a part whose id attribute was never created. */
  lemma GetIdFails(p: Part)
    ensures GetId(p).Failure? <==> p.id == Absent
    ensures GetId(p) == Success(None) <==> p.id == Unassigned
  {
  }

  /**
   * The part as PartContainer.add_part stores it, given the root counter at the
   * time of the call and the root of the adding container.
   */
  function Adopt(part: Part, counter: int, root: ExplainingGraph?): (r: Part)
    requires part.id != Absent
    ensures r.id.Assigned?
    ensures part.id.Assigned? ==> r.id == part.id
  {
    var p := if part.id == Unassigned then SetId(part, counter) else part;
    if p.Subexpression? then p.(gmain := root) else p
  }

  /**
   * add_part numbers a part only when its id is None, keeps a preset id, points
   * a container part at the adder's root, and changes nothing else.
   */
  lemma AdoptedPart(part: Part, counter: int, root: ExplainingGraph?)
    requires part.id != Absent
    ensures var p := Adopt(part, counter, root);
            p.id == (if part.id == Unassigned then Assigned(counter) else part.id)
            && (p.Subexpression? <==> part.Subexpression?)
            && (p.Subexpression? ==> p.gmain == root && p.parts == part.parts && p.number == part.number)
            && (p.Text? <==> part.Text?) && (p.Text? ==> p.text == part.text)
            && (p.BorderAssert? <==> part.BorderAssert?) && (p.BorderAssert? ==> p.inverse == part.inverse)
  {
  }

  /** The root of an explaining graph: its parts in order and the id counter shared with every container under it. */
  class ExplainingGraph {
    const id: string
    var parts: seq<Part>
    var idCounter: int
    var gmain: ExplainingGraph?

    /**
     * The root is its own `_gmain`, the counter has only grown from 1, every
     * stored part has an id and every stored container points at this root.
     */
    ghost predicate Valid()
      reads this
    {
      && gmain == this
      && idCounter >= 1
      && forall k | 0 <= k < |parts| ::
           parts[k].id.Assigned? && (parts[k].Subexpression? ==> parts[k].gmain == this)
    }

    /** Every part was numbered by the counter in turn: part k has id k + 1. */
    ghost predicate AutoNumbered()
      reads this
    {
      && idCounter == |parts| + 1
      && forall k | 0 <= k < |parts| :: parts[k].id == Assigned(k + 1)
    }

    constructor ()
      ensures Valid() && AutoNumbered()
      ensures id == "explaining_graph" && parts == [] && idCounter == 1 && gmain == this
    {
      parts := [];
      id := "explaining_graph";
      idCounter := 1;
      new;
      gmain := this;
    }

    /** PartContainer.add_part on the root. */
    method AddPart(part: Part)
      requires Valid() && part.id != Absent
      modifies this
      ensures Valid()
      ensures idCounter == old(idCounter) + 1
      ensures parts == old(parts) + [Adopt(part, old(idCounter), this)]
      ensures old(AutoNumbered()) && part.id == Unassigned ==> AutoNumbered()
    {
      var p := part;
      if p.id == Unassigned {
        p := SetId(p, gmain.idCounter);
      }
      gmain.idCounter := gmain.idCounter + 1;
      if p.Subexpression? {
        p := p.(gmain := gmain);
      }
      parts := parts + [p];
    }

    /**
     * ExplainingGraph.to_graph for a root whose parts are all Text: begin and
     * end take the next two counter values, each part's link the next one, and
     * the final link to end reuses the counter value without consuming it.
     */
    method ToGraph() returns (graph: DotDigraph)
      requires Valid() && forall k | 0 <= k < |parts| :: parts[k].Text?
      modifies this
      ensures Valid() && parts == old(parts)
      ensures idCounter == old(idCounter) + 2 + |parts|
      ensures graph.items == GraphItems(parts, old(idCounter))
    {
      ghost var c := idCounter;
      var items: seq<DotItem> := [];
      var begin := BeginNode(idCounter);
      idCounter := idCounter + 1;
      items := items + [Node(begin)];
      var end := EndNode(idCounter);
      idCounter := idCounter + 1;
      items := items + [Node(end)];
      var current := begin;
      assert TextParts(parts);
      for k := 0 to |parts|
        invariant parts == old(parts) && gmain == old(gmain)
        invariant idCounter == c + 2 + k
        invariant current == Current(parts, begin, k)
        invariant items == [Node(begin), Node(end)] + Steps(parts, begin, c, k)
      {
        var (nodes, next) := TextToGraph(parts[k], current);
        items := items + NodeItems(nodes) + [Link(current, next, idCounter)];
        idCounter := idCounter + 1;
        current := next;
      }
      items := items + [Link(current, end, idCounter)];
      graph := DotDigraph(items);
    }
  }

  /** PartContainer.add_part on a Subexpression: the id comes from, and is counted on, the container's root. */
  method AddPartToSubexpression(sub: Part, part: Part) returns (updated: Part)
    requires sub.Subexpression? && sub.gmain != null && part.id != Absent
    modifies sub.gmain
    ensures sub.gmain.idCounter == old(sub.gmain.idCounter) + 1
    ensures sub.gmain.parts == old(sub.gmain.parts) && sub.gmain.gmain == old(sub.gmain.gmain)
    ensures updated == sub.(parts := sub.parts + [Adopt(part, old(sub.gmain.idCounter), sub.gmain)])
  {
    var root := sub.gmain;
    var p := part;
    if p.id == Unassigned {
      p := SetId(p, root.idCounter);
    }
    root.idCounter := root.idCounter + 1;
    if p.Subexpression? {
      p := p.(gmain := root);
    }
    updated := sub.(parts := sub.parts + [p]);
  }

  // ---------------------------------------------------------------------------
  // Lowering of Text parts and of the root

  /** Text.to_graph: one node named by the part's id and labelled with its text; `current` is not used. */
  function TextToGraph(t: Part, current: DotNode): (r: (seq<DotNode>, DotNode))
    requires t.Text? && t.id.Assigned?
    ensures r.0 == [r.1]
  {
    var node := DotNode(t.id.value, t.text);
    ([node], node)
  }

  /** The node is a default DotNode apart from its id and label, and does not depend on `current`. */
  lemma TextNode(t: Part, current: DotNode, other: DotNode)
    requires t.Text? && t.id.Assigned?
    ensures var n := TextToGraph(t, current).1;
            n.id == t.id.value && n.labelText == t.text
            && n == DotNode().(id := t.id.value, labelText := t.text)
            && TextToGraph(t, other) == TextToGraph(t, current)
  {
  }

  /**
   * The begin node as to_graph builds it. The call passes its arguments by
   * position, so "filled" lands in color, "purple" in tooltip and "begin" in style.
   */
  function BeginNode(counter: int): (n: DotNode)
    ensures n.id == counter && n.labelText == "begin"
  {
    DotNode(counter, "begin", "filled", "purple", "begin", "rect", "purple")
  }

  function EndNode(counter: int): (n: DotNode)
    ensures n.id == counter && n.labelText == "end"
  {
    DotNode(counter, "end", "filled", "purple", "end", "rect", "purple")
  }

  lemma BeginEndAttributes(c: int)
    ensures BeginNode(c).labelText == "begin" && BeginNode(c).color == "filled"
            && BeginNode(c).style == "begin" && BeginNode(c).tooltip == "purple"
    ensures EndNode(c).labelText == "end" && EndNode(c).color == "filled"
            && EndNode(c).style == "end" && EndNode(c).tooltip == "purple"
    ensures BeginNode(c).shape == EndNode(c).shape == "rect"
            && BeginNode(c).fillcolor == EndNode(c).fillcolor == "purple"
  {
  }

  function NodeItems(nodes: seq<DotNode>): (items: seq<DotItem>)
    ensures |items| == |nodes| && forall k | 0 <= k < |nodes| :: items[k] == Node(nodes[k])
  {
    seq(|nodes|, k requires 0 <= k < |nodes| => Node(nodes[k]))
  }

  function ItemId(item: DotItem): int {
    match item
    case Node(n) => n.id
    case Link(_, _, id) => id
  }

  /** Root parts that to_graph can lower: Text parts that carry an id. */
  predicate TextParts(parts: seq<Part>) {
    forall k | 0 <= k < |parts| :: parts[k].Text? && parts[k].id.Assigned?
  }

  /** The node that Text.to_graph gives for root part k. */
  function PartNode(parts: seq<Part>, k: nat): DotNode
    requires TextParts(parts) && k < |parts|
  {
    DotNode(parts[k].id.value, parts[k].text)
  }

  /** The value of `current` when the loop of to_graph reaches part k. */
  function Current(parts: seq<Part>, begin: DotNode, k: nat): DotNode
    requires TextParts(parts) && k <= |parts|
  {
    if k == 0 then begin else PartNode(parts, k - 1)
  }

  /** The items the loop of to_graph appends for the first k parts, counter c on entry to to_graph. */
  function Steps(parts: seq<Part>, begin: DotNode, c: int, k: nat): seq<DotItem>
    requires TextParts(parts) && k <= |parts|
  {
    if k == 0 then []
    else
      Steps(parts, begin, c, k - 1)
      + [Node(PartNode(parts, k - 1)), Link(Current(parts, begin, k - 1), PartNode(parts, k - 1), c + 2 + (k - 1))]
  }

  /** The items of the digraph that to_graph returns when the counter is c on entry. */
  function GraphItems(parts: seq<Part>, c: int): seq<DotItem>
    requires TextParts(parts)
  {
    var begin := BeginNode(c);
    [Node(begin), Node(EndNode(c + 1))] + Steps(parts, begin, c, |parts|)
    + [Link(Current(parts, begin, |parts|), EndNode(c + 1), c + 2 + |parts|)]
  }

  lemma {:induction false} StepsLength(parts: seq<Part>, begin: DotNode, c: int, k: nat)
    requires TextParts(parts) && k <= |parts|
    ensures |Steps(parts, begin, c, k)| == 2 * k
  {
    if k > 0 {
      StepsLength(parts, begin, c, k - 1);
    }
  }

  lemma {:induction false} StepsAt(parts: seq<Part>, begin: DotNode, c: int, k: nat, j: nat)
    requires TextParts(parts) && j < k <= |parts|
    ensures var s := Steps(parts, begin, c, k);
            |s| == 2 * k
            && s[2 * j] == Node(PartNode(parts, j))
            && s[2 * j + 1] == Link(Current(parts, begin, j), PartNode(parts, j), c + 2 + j)
  {
    StepsLength(parts, begin, c, k);
    StepsLength(parts, begin, c, k - 1);
    var prev := Steps(parts, begin, c, k - 1);
    var last := [Node(PartNode(parts, k - 1)), Link(Current(parts, begin, k - 1), PartNode(parts, k - 1), c + 2 + (k - 1))];
    assert Steps(parts, begin, c, k) == prev + last;
    if j < k - 1 {
      StepsAt(parts, begin, c, k - 1, j);
    }
  }

  /**
   * The layout of the items: begin, end, then for each part its node followed
   * by the link into it, then the link into end; 2n + 3 items for n parts.
   */
  lemma GraphLayout(parts: seq<Part>, c: int)
    requires TextParts(parts)
    ensures var g := GraphItems(parts, c); var n := |parts|;
            |g| == 2 * n + 3
            && g[0] == Node(BeginNode(c)) && g[1] == Node(EndNode(c + 1))
            && (forall j | 0 <= j < n ::
                  g[2 + 2 * j] == Node(PartNode(parts, j))
                  && g[3 + 2 * j] == Link(Current(parts, BeginNode(c), j), PartNode(parts, j), c + 2 + j))
            && g[2 * n + 2] == Link(Current(parts, BeginNode(c), n), EndNode(c + 1), c + 2 + n)
  {
    var n := |parts|;
    var begin := BeginNode(c);
    var steps := Steps(parts, begin, c, n);
    var g := GraphItems(parts, c);
    StepsLength(parts, begin, c, n);
    var head := [Node(begin), Node(EndNode(c + 1))];
    assert g == head + steps + [Link(Current(parts, begin, n), EndNode(c + 1), c + 2 + n)];
    forall j | 0 <= j < n
      ensures g[2 + 2 * j] == Node(PartNode(parts, j))
      ensures g[3 + 2 * j] == Link(Current(parts, begin, j), PartNode(parts, j), c + 2 + j)
    {
      StepsAt(parts, begin, c, n, j);
      assert g[2 + 2 * j] == steps[2 * j] && g[3 + 2 * j] == steps[2 * j + 1];
    }
  }

  // ---------------------------------------------------------------------------
  // The links form one path

  function LinksOf(items: seq<DotItem>): seq<DotItem> {
    if items == [] then []
    else if items[0].Link? then [items[0]] + LinksOf(items[1..])
    else LinksOf(items[1..])
  }

  lemma {:induction false} LinksOfAppend(a: seq<DotItem>, b: seq<DotItem>)
    ensures LinksOf(a + b) == LinksOf(a) + LinksOf(b)
  {
    if a == [] {
      assert a + b == b;
    } else {
      var ab := a + b;
      assert ab[0] == a[0];
      assert ab[1..] == a[1..] + b;
      LinksOfAppend(a[1..], b);
      if a[0].Link? {
        assert LinksOf(ab) == [a[0]] + LinksOf(a[1..] + b);
      } else {
        assert LinksOf(ab) == LinksOf(a[1..] + b);
      }
    }
  }

  /** Node j of the path begin -> part_1 -> ... -> part_n -> end. */
  function PathNode(parts: seq<Part>, c: int, j: nat): DotNode
    requires TextParts(parts) && j <= |parts| + 1
  {
    if j <= |parts| then Current(parts, BeginNode(c), j) else EndNode(c + 1)
  }

  lemma {:induction false} StepsLinks(parts: seq<Part>, c: int, k: nat)
    requires TextParts(parts) && k <= |parts|
    ensures var l := LinksOf(Steps(parts, BeginNode(c), c, k));
            |l| == k && forall j | 0 <= j < k :: l[j] == Link(PathNode(parts, c, j), PathNode(parts, c, j + 1), c + 2 + j)
  {
    if k > 0 {
      var begin := BeginNode(c);
      var last := [Node(PartNode(parts, k - 1)), Link(Current(parts, begin, k - 1), PartNode(parts, k - 1), c + 2 + (k - 1))];
      StepsLinks(parts, c, k - 1);
      LinksOfAppend(Steps(parts, begin, c, k - 1), last);
      assert last[1..] == [last[1]];
      assert [last[1]][1..] == [];
      assert LinksOf([last[1]]) == [last[1]];
      assert LinksOf(last) == [last[1]];
    }
  }

  /**
   * With only Text parts, the n + 1 links of the digraph, in the order they
   * are appended, run begin -> part_1 -> ... -> part_n -> end and nowhere else.
   */
  lemma GraphIsPath(parts: seq<Part>, c: int)
    requires TextParts(parts)
    ensures var l := LinksOf(GraphItems(parts, c)); var n := |parts|;
            |l| == n + 1
            && (forall j | 0 <= j <= n :: l[j] == Link(PathNode(parts, c, j), PathNode(parts, c, j + 1), c + 2 + j))
            && l[0].Link? && l[0].source == BeginNode(c) && l[n].Link? && l[n].destination == EndNode(c + 1)
  {
    var n := |parts|;
    var begin := BeginNode(c);
    var head := [Node(begin), Node(EndNode(c + 1))];
    var steps := Steps(parts, begin, c, n);
    var tail := [Link(Current(parts, begin, n), EndNode(c + 1), c + 2 + n)];
    LinksOfAppend(head + steps, tail);
    LinksOfAppend(head, steps);
    assert head[1..] == [Node(EndNode(c + 1))] && head[1..][1..] == [];
    assert LinksOf(head) == [];
    assert tail[1..] == [];
    assert LinksOf(tail) == tail;
    StepsLinks(parts, c, n);
    var l := LinksOf(GraphItems(parts, c));
    assert l == LinksOf(steps) + tail;
    assert l[n] == tail[0];
    assert l[n] == Link(PathNode(parts, c, n), PathNode(parts, c, n + 1), c + 2 + n);
    forall j | 0 <= j <= n
      ensures l[j] == Link(PathNode(parts, c, j), PathNode(parts, c, j + 1), c + 2 + j)
    {
      if j < n {
        assert l[j] == LinksOf(steps)[j];
      }
    }
    assert l[0] == Link(PathNode(parts, c, 0), PathNode(parts, c, 1), c + 2);
  }

  // ---------------------------------------------------------------------------
  // Ids

  /**
   * Where index i of the items falls: the node of part j (i = 2 + 2j), the
   * link into part j (i = 3 + 2j) or the final link (i = 2n + 2, j = n).
   */
  lemma ClassifyIndex(n: nat, i: nat) returns (j: nat, isNode: bool)
    requires 2 <= i < 2 * n + 3
    ensures isNode ==> j < n && i == 2 + 2 * j
    ensures !isNode ==> (j < n && i == 3 + 2 * j) || (j == n && i == 2 * n + 2)
  {
    j := (i - 2) / 2;
    isNode := i % 2 == 0 && i < 2 * n + 2;
  }

  /** The ids of the items: begin c, end c + 1, the node of part j its part id, link j the value c + 2 + j. */
  lemma GraphIds(parts: seq<Part>, c: int)
    requires TextParts(parts)
    ensures |GraphItems(parts, c)| == 2 * |parts| + 3
    ensures ItemId(GraphItems(parts, c)[0]) == c && ItemId(GraphItems(parts, c)[1]) == c + 1
    ensures forall j | 0 <= j < |parts| ::
              ItemId(GraphItems(parts, c)[2 + 2 * j]) == parts[j].id.value
              && ItemId(GraphItems(parts, c)[3 + 2 * j]) == c + 2 + j
    ensures ItemId(GraphItems(parts, c)[2 * |parts| + 2]) == c + 2 + |parts|
  {
    GraphLayout(parts, c);
    var g := GraphItems(parts, c);
    forall j | 0 <= j < |parts|
      ensures ItemId(g[2 + 2 * j]) == parts[j].id.value && ItemId(g[3 + 2 * j]) == c + 2 + j
    {
      assert g[2 + 2 * j] == Node(PartNode(parts, j));
      assert g[3 + 2 * j] == Link(Current(parts, BeginNode(c), j), PartNode(parts, j), c + 2 + j);
    }
  }

  /** The id of item i, with the part j it belongs to and whether it is that part's node. */
  lemma IdAt(parts: seq<Part>, c: int, i: nat) returns (j: nat, isNode: bool)
    requires TextParts(parts) && i < 2 * |parts| + 3
    ensures |GraphItems(parts, c)| == 2 * |parts| + 3
    ensures i < 2 ==> ItemId(GraphItems(parts, c)[i]) == c + i
    ensures 2 <= i && isNode ==> j < |parts| && i == 2 + 2 * j && ItemId(GraphItems(parts, c)[i]) == parts[j].id.value
    ensures 2 <= i && !isNode ==> ((j < |parts| && i == 3 + 2 * j) || (j == |parts| && i == 2 * j + 2))
                                  && ItemId(GraphItems(parts, c)[i]) == c + 2 + j
  {
    GraphIds(parts, c);
    if 2 <= i {
      j, isNode := ClassifyIndex(|parts|, i);
    } else {
      j, isNode := 0, false;
    }
  }

  /**
   * When the parts carry pairwise distinct ids below the counter value c, the
   * digraph built from counter c uses every id at most once.
   */
  lemma GraphIdsDistinct(parts: seq<Part>, c: int)
    requires TextParts(parts)
    requires forall k | 0 <= k < |parts| :: parts[k].id.value < c
    requires forall k, l | 0 <= k < l < |parts| :: parts[k].id != parts[l].id
    ensures var g := GraphItems(parts, c);
            forall i, i' | 0 <= i < i' < |g| :: ItemId(g[i]) != ItemId(g[i'])
  {
    var g := GraphItems(parts, c);
    GraphLayout(parts, c);
    forall i, i' | 0 <= i < i' < |g|
      ensures ItemId(g[i]) != ItemId(g[i'])
    {
      var j, node := IdAt(parts, c, i);
      var j', node' := IdAt(parts, c, i');
      if 2 <= i && node && node' {
        assert parts[j].id != parts[j'].id;
      } else if 2 <= i && node {
        assert parts[j].id.value < c;
      } else if 2 <= i && node' {
        assert parts[j'].id.value < c;
      } else if i < 2 && 2 <= i' && node' {
        assert parts[j'].id.value < c;
      }
    }
  }

  /**
   * On a root whose every part was numbered by add_part, parts hold 1..n,
   * begin n + 1, end n + 2 and the links n + 3 .. 2n + 3: all distinct.
   */
  lemma AutoNumberedGraphIdsDistinct(parts: seq<Part>)
    requires forall k | 0 <= k < |parts| :: parts[k].Text? && parts[k].id == Assigned(k + 1)
    ensures TextParts(parts)
    ensures var g := GraphItems(parts, |parts| + 1);
            ItemId(g[0]) == |parts| + 1 && ItemId(g[1]) == |parts| + 2
            && ItemId(g[|g| - 1]) == 2 * |parts| + 3
            && forall i, j | 0 <= i < j < |g| :: ItemId(g[i]) != ItemId(g[j])
  {
    GraphIdsDistinct(parts, |parts| + 1);
    GraphLayout(parts, |parts| + 1);
  }

  /**
   * Because the final link does not consume its counter value, a second
   * to_graph starts at that value: its begin node gets the id of the first
   * call's final link, though the two begin nodes still differ.
   */
  lemma SecondToGraphReusesLastLinkId(parts: seq<Part>, c: int)
    requires TextParts(parts)
    ensures var g1 := GraphItems(parts, c); var g2 := GraphItems(parts, c + 2 + |parts|);
            ItemId(g1[|g1| - 1]) == ItemId(g2[0]) && ItemId(g1[0]) != ItemId(g2[0])
  {
  }
}
