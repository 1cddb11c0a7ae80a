/**
 * The DOT records of egraph/dot.py: the attribute record IDotable, the node
 * record DotNode and its one-line serialisation `to_dot`. The link and digraph
 * records that egraph/egraph.py builds are declared here as plain records;
 * their serialisation is not part of this model.
 */
module Dot {
  import opened Wrappers

  /** The attributes of an IDotable, with the defaults of IDotable.__init__. */
  datatype Dotable = Dotable(id: int := -1, labelText: string := "", color: string := "",
                             tooltip: string := "", style: string := "")

  /** A DOT node: the IDotable attributes plus shape and fillcolor, with the defaults of DotNode.__init__. */
  datatype DotNode = DotNode(id: int := -1, labelText: string := "", color: string := "black",
                             tooltip: string := "", style: string := "solid",
                             shape: string := "ellipse", fillcolor: string := "white")
  {
    /** The IDotable part of the node, as DotNode.__init__ hands it to IDotable.__init__. */
    function Base(): Dotable {
      Dotable(id, labelText, color, tooltip, style)
    }
  }

  /** A link between two nodes (DotLink(source, destination, id)); only its fields are modelled. */
  datatype DotItem = Node(node: DotNode) | Link(source: DotNode, destination: DotNode, id: int)

  /** A digraph: the ordered items that `to_graph` appends to `graph.items`. */
  datatype DotDigraph = DotDigraph(items: seq<DotItem>)

  lemma DefaultAttributes()
    ensures Dotable() == Dotable(-1, "", "", "", "")
    ensures DotNode() == DotNode(-1, "", "black", "", "solid", "ellipse", "white")
    ensures DotNode().Base() == Dotable().(color := "black", style := "solid")
  {
  }

  // ---------------------------------------------------------------------------
  // Decimal rendering of ids, as Python's str.format renders an int

  predicate IsDigit(c: char) {
    '0' <= c <= '9'
  }

  predicate AllDigits(s: string) {
    forall i | 0 <= i < |s| :: IsDigit(s[i])
  }

  function DigitChar(d: nat): (c: char)
    requires d < 10
    ensures IsDigit(c)
  {
    ('0' as int + d) as char
  }

  function DigitValue(c: char): (d: nat)
    requires IsDigit(c)
    ensures d < 10 && DigitChar(d) == c
  {
    (c as int - '0' as int)
  }

  /** The decimal digits of n, most significant first, without leading zeros. */
  function NatToString(n: nat): (s: string)
    ensures |s| > 0 && AllDigits(s)
  {
    if n < 10 then [DigitChar(n)] else NatToString(n / 10) + [DigitChar(n % 10)]
  }

  /** Python's str(i) for an int: a minus sign for negative values, then the digits. */
  function IntToString(i: int): (s: string)
    ensures |s| > 0
    ensures i >= 0 ==> AllDigits(s)
    ensures i < 0 ==> s[0] == '-' && AllDigits(s[1..])
  {
    if i < 0 then "-" + NatToString(-i) else NatToString(i)
  }

  /** The value of a string of decimal digits. */
  function ParseDigits(s: string): nat
    requires AllDigits(s)
  {
    if s == [] then 0 else ParseDigits(s[..|s| - 1]) * 10 + DigitValue(s[|s| - 1])
  }

  /** Reads back what IntToString writes; None for anything else. */
  function ParseInt(s: string): Option<int> {
    if |s| > 0 && AllDigits(s) then Some(ParseDigits(s))
    else if |s| > 1 && s[0] == '-' && AllDigits(s[1..]) then Some(0 - ParseDigits(s[1..]))
    else None
  }

  lemma {:induction false} NatToStringRoundTrip(n: nat)
    ensures ParseDigits(NatToString(n)) == n
  {
    var s := NatToString(n);
    if n < 10 {
      assert s[..|s| - 1] == [];
    } else {
      assert s[..|s| - 1] == NatToString(n / 10);
      NatToStringRoundTrip(n / 10);
    }
  }

  lemma IntToStringRoundTrip(i: int)
    ensures ParseInt(IntToString(i)) == Some(i)
  {
    if i < 0 {
      var s := IntToString(i);
      assert s[1..] == NatToString(-i);
      assert !IsDigit(s[0]);
      NatToStringRoundTrip(-i);
    } else {
      NatToStringRoundTrip(i);
    }
  }

  /** Distinct ids render as distinct strings, so distinct ids give distinct `nd_` names. */
  lemma IntToStringInjective(a: int, b: int)
    ensures IntToString(a) == IntToString(b) ==> a == b
  {
    IntToStringRoundTrip(a);
    IntToStringRoundTrip(b);
  }

  // ---------------------------------------------------------------------------
  // DotNode.to_dot

  /**
   * DotNode.to_dot: one node statement from a fixed template. The attributes
   * come in the order shape, id, color, style, label, fillcolor, tooltip; only
   * id, label and tooltip are quoted, and label and tooltip are not escaped.
   * The node itself is a value and is left as it was. The template is built
   * from its end, each piece holding one attribute and everything after it.
   */
  function ToDot(n: DotNode): (s: string) {
    var id := IntToString(n.id);
    var tooltip := ", tooltip=\"" + (n.tooltip + "\"];");
    var fillcolor := "\", fillcolor=" + (n.fillcolor + tooltip);
    var lab := ", label=\"" + (n.labelText + fillcolor);
    var style := ", style=" + (n.style + lab);
    var color := "\", color=" + (n.color + style);
    var gid := ", id=\"graphid_" + (id + color);
    var shape := "\" [shape=" + (n.shape + gid);
    "\"nd_" + (id + shape)
  }

  /** The statement starts with the quoted node name and the shape attribute. */
  lemma ToDotStart(n: DotNode)
    ensures var s := ToDot(n);
            var head := "\"nd_" + IntToString(n.id) + "\" [shape=" + n.shape;
            |head| <= |s| && s[..|head|] == head
  {
  }

  /** The statement ends with `];`, whatever the attribute values are. */
  lemma ToDotEnd(n: DotNode)
    ensures var s := ToDot(n);
            |s| >= 2 && s[|s| - 2] == ']' && s[|s| - 1] == ';'
  {
  }

  /** The id that names the node (`nd_<id>`) is the same one written in its `id="graphid_<id>"` attribute. */
  lemma ToDotRepeatsId(n: DotNode)
    ensures var s := ToDot(n);
            var name := "\"nd_" + IntToString(n.id) + "\" [shape=" + n.shape;
            var idAttr := ", id=\"graphid_" + IntToString(n.id) + "\"";
            |name| + |idAttr| <= |s| && s[..|name|] == name && s[|name|..|name| + |idAttr|] == idAttr
  {
  }

  // ---------------------------------------------------------------------------
  // Reading a node statement back: the partner of ToDot

  /** The index of the first `ch` in s, or |s| when there is none. */
  function IndexOf(s: string, ch: char): (k: nat)
    ensures k <= |s|
    ensures k < |s| ==> s[k] == ch
    ensures forall i | 0 <= i < k :: s[i] != ch
  {
    if s == [] then 0 else if s[0] == ch then 0 else 1 + IndexOf(s[1..], ch)
  }

  /** Expects the literal `lit`, then returns the text up to the first `stop` and the rest from it on. */
  function Field(s: string, lit: string, stop: char): (r: Option<(string, string)>)
    ensures r.Some? ==> stop !in r.value.0
  {
    if lit <= s then
      var rest := s[|lit|..];
      var k := IndexOf(rest, stop);
      Some((rest[..k], rest[k..]))
    else
      None
  }

  /** Parses one node statement in the shape ToDot writes; the two copies of the id must agree. */
  function ParseDot(s: string): (r: Option<DotNode>)
    ensures r.Some? ==> '"' !in r.value.labelText && '"' !in r.value.tooltip
  {
    var nd :- Field(s, "\"nd_", '"');
    var shape :- Field(nd.1, "\" [shape=", ',');
    var gid :- Field(shape.1, ", id=\"graphid_", '"');
    var color :- Field(gid.1, "\", color=", ',');
    var style :- Field(color.1, ", style=", ',');
    var lab :- Field(style.1, ", label=\"", '"');
    var fill :- Field(lab.1, "\", fillcolor=", ',');
    var tip :- Field(fill.1, ", tooltip=\"", '"');
    var id :- ParseInt(nd.0);
    if gid.0 == nd.0 && tip.1 == "\"];" then
      Some(DotNode(id, lab.0, color.0, tip.0, style.0, shape.0, fill.0))
    else
      None
  }

  lemma FieldOf(lit: string, x: string, rest: string, stop: char)
    requires stop !in x && |rest| > 0 && rest[0] == stop
    ensures Field(lit + (x + rest), lit, stop) == Some((x, rest))
  {
    var s := lit + (x + rest);
    assert lit <= s;
    assert s[|lit|..] == x + rest;
    var k := IndexOf(x + rest, stop);
    assert (x + rest)[|x|] == stop;
    assert forall i | 0 <= i < |x| :: (x + rest)[i] == x[i];
    assert k == |x|;
  }

  lemma NoQuoteInId(i: int)
    ensures '"' !in IntToString(i)
  {
    var s := IntToString(i);
    if i < 0 {
      assert forall k | 1 <= k < |s| :: s[k] == s[1..][k - 1];
    }
  }

  /** Quote-free labels and tooltips and comma-free bare attributes read back unchanged. */
  lemma ParseToDot(n: DotNode)
    requires '"' !in n.labelText && '"' !in n.tooltip
    requires ',' !in n.shape && ',' !in n.color && ',' !in n.style && ',' !in n.fillcolor
    ensures ParseDot(ToDot(n)) == Some(n)
  {
    var id := IntToString(n.id);
    NoQuoteInId(n.id);
    var tooltip := ", tooltip=\"" + (n.tooltip + "\"];");
    var fillcolor := "\", fillcolor=" + (n.fillcolor + tooltip);
    var lab := ", label=\"" + (n.labelText + fillcolor);
    var style := ", style=" + (n.style + lab);
    var color := "\", color=" + (n.color + style);
    var gid := ", id=\"graphid_" + (id + color);
    var shape := "\" [shape=" + (n.shape + gid);
    FieldOf("\"nd_", id, shape, '"');
    FieldOf("\" [shape=", n.shape, gid, ',');
    FieldOf(", id=\"graphid_", id, color, '"');
    FieldOf("\", color=", n.color, style, ',');
    FieldOf(", style=", n.style, lab, ',');
    FieldOf(", label=\"", n.labelText, fillcolor, '"');
    FieldOf("\", fillcolor=", n.fillcolor, tooltip, ',');
    FieldOf(", tooltip=\"", n.tooltip, "\"];", '"');
    IntToStringRoundTrip(n.id);
  }

  /** What follows `label="` in the statement: the label, the fillcolor attribute and the tooltip attribute. */
  function LabelTail(l: string, fillcolor: string, t: string): string {
    l + ("\", fillcolor=" + (fillcolor + (", tooltip=\"" + (t + "\"];"))))
  }

  /** Two nodes that agree outside label and tooltip and agree on LabelTail give the same statement. */
  lemma SameLabelTail(a: DotNode, b: DotNode)
    requires a.(labelText := b.labelText, tooltip := b.tooltip) == b
    requires LabelTail(a.labelText, a.fillcolor, a.tooltip) == LabelTail(b.labelText, b.fillcolor, b.tooltip)
    ensures ToDot(a) == ToDot(b)
  {
    var la := ", label=\"" + LabelTail(a.labelText, a.fillcolor, a.tooltip);
    var lb := ", label=\"" + LabelTail(b.labelText, b.fillcolor, b.tooltip);
    assert la == lb;
  }

  lemma Regroup(l: string, p: string, f: string, q: string, t: string, e: string)
    ensures (l + (p + f + q) + t) + (p + (f + (q + (t + e))))
            == l + (p + (f + (q + ((t + (p + f + q) + t) + e))))
  {
    var m := p + f + q;
    assert p + (f + (q + (t + e))) == m + (t + e);
    assert p + (f + (q + ((t + m + t) + e))) == m + ((t + m + t) + e);
  }

  /** The fillcolor and tooltip attributes, written into the label, can be moved into the tooltip instead. */
  lemma LabelTailShift(l: string, fillcolor: string, t: string)
    ensures var m := "\", fillcolor=" + fillcolor + ", tooltip=\"";
            LabelTail(l + m + t, fillcolor, t) == LabelTail(l, fillcolor, t + m + t)
  {
    Regroup(l, "\", fillcolor=", fillcolor, ", tooltip=\"", t, "\"];");
  }

  /**
   * Because label and tooltip go in unescaped, two different nodes can give the
   * same statement: a quote in the label closes it early and the text after it
   * reads as the fillcolor and tooltip attributes.
   */
  lemma UnescapedLabelIsAmbiguous(n: DotNode, l: string, t: string)
    ensures var m := "\", fillcolor=" + n.fillcolor + ", tooltip=\"";
            var a := n.(labelText := l + m + t, tooltip := t);
            var b := n.(labelText := l, tooltip := t + m + t);
            a != b && ToDot(a) == ToDot(b)
  {
    var m := "\", fillcolor=" + n.fillcolor + ", tooltip=\"";
    var a := n.(labelText := l + m + t, tooltip := t);
    var b := n.(labelText := l, tooltip := t + m + t);
    assert |a.labelText| != |b.labelText|;
    LabelTailShift(l, n.fillcolor, t);
    SameLabelTail(a, b);
  }
}
