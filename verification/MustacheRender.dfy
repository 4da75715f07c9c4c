/** nanobench's renderer: templates over results and their measurements. */
module MustacheRender {
  import opened Common
  import opened Mustache
  import opened MustachePrinter

  /** What rendering reads of a Result; numbers arrive already formatted.  `cell` is a measure of
      one epoch ("0" if there is none), `tag` a config value or a command such as median(elapsed),
      None if it is not understood, `config` a config value alone. */
  datatype Result = Result(size: nat, cell: (nat, string) -> string,
                           tag: string -> Option<string>, config: string -> Option<string>)

  /** Undefined: a tag outside of any section is looked up in the last of no results. */
  datatype Rendered = Out(text: string) | Thrown | Undefined

  function Cat(a: Rendered, b: Rendered): Rendered {
    if !a.Out? then a else if b.Out? then Out(a.text + b.text) else b
  }

  function OrThrow(t: Option<string>): Rendered {
    if t.Some? then Out(t.value) else Thrown
  }

  /** A node with its text in place of the span. */
  datatype TextNode = TextNode(kind: Kind, text: string, children: seq<TextNode>)

  function View(s: string, nodes: seq<Node>): (v: seq<TextNode>)
    ensures |v| == |nodes|
    decreases nodes
  {
    if nodes == [] then [] else [ViewNode(s, nodes[0])] + View(s, nodes[1..])
  }

  function ViewNode(s: string, n: Node): TextNode
    decreases n
  {
    TextNode(n.kind, TextOf(s, n), View(s, n.children))
  }

  function TextOf(s: string, n: Node): string {
    if n.begin <= n.end <= |s| then Span(s, n.begin, n.end) else ""
  }

  lemma {:induction false} ViewAt(s: string, nodes: seq<Node>, k: nat)
    requires k < |nodes|
    ensures View(s, nodes)[k] == ViewNode(s, nodes[k])
  {
    if k > 0 { ViewAt(s, nodes[1..], k - 1); }
  }

  // ----- what each level renders -----

  /** The plain text among the children. */
  function Texts(ns: seq<TextNode>): string {
    if ns == [] then "" else Texts(ns[..|ns| - 1]) + if ns[|ns| - 1].kind == Content then ns[|ns| - 1].text else ""
  }

  /** generateFirstLast: None if the node has nothing to do with -first and -last.  Any node whose
      text is one of these names is taken, plain text included. */
  function FirstLast(n: TextNode, idx: nat, size: nat): Option<string> {
    if n.text != "-first" && n.text != "-last" then None
    else
      var here := if n.text == "-first" then idx == 0 else idx == size - 1;
      if (n.kind == Section && here) || (n.kind == Inverted && !here) then Some(Texts(n.children)) else Some("")
  }

  function MeasurementNode(n: TextNode, idx: nat, r: Result): Rendered {
    if FirstLast(n, idx, r.size).Some? then Out(FirstLast(n, idx, r.size).value)
    else match n.kind
      case Content => Out(n.text)
      case Tag => Out(r.cell(idx, n.text))
      case _ => Thrown
  }

  function MeasurementNodes(ns: seq<TextNode>, idx: nat, r: Result): Rendered {
    if ns == [] then Out("")
    else Cat(MeasurementNodes(ns[..|ns| - 1], idx, r), MeasurementNode(ns[|ns| - 1], idx, r))
  }

  /** The first k measurements, one after the other. */
  function Measurements(ns: seq<TextNode>, r: Result, k: nat): Rendered {
    if k == 0 then Out("") else Cat(Measurements(ns, r, k - 1), MeasurementNodes(ns, k - 1, r))
  }

  function ResultNode(n: TextNode, idx: nat, results: seq<Result>): Rendered
    requires idx < |results|
  {
    var r := results[idx];
    if FirstLast(n, idx, |results|).Some? then Out(FirstLast(n, idx, |results|).value)
    else match n.kind
      case Content => Out(n.text)
      case Tag => OrThrow(r.tag(n.text))
      case Section => if n.text == "measurement" then Measurements(n.children, r, r.size) else Thrown
      case Inverted => Thrown
  }

  function ResultNodes(ns: seq<TextNode>, idx: nat, results: seq<Result>): Rendered
    requires idx < |results|
  {
    if ns == [] then Out("")
    else Cat(ResultNodes(ns[..|ns| - 1], idx, results), ResultNode(ns[|ns| - 1], idx, results))
  }

  function Results(ns: seq<TextNode>, results: seq<Result>, k: nat): Rendered
    requires k <= |results|
  {
    if k == 0 then Out("") else Cat(Results(ns, results, k - 1), ResultNodes(ns, k - 1, results))
  }

  function TopNode(n: TextNode, results: seq<Result>): Rendered {
    match n.kind
    case Content => Out(n.text)
    case Inverted => Thrown
    case Section =>
      if n.text == "result" then Results(n.children, results, |results|)
      else if n.text == "measurement" && |results| == 1 then Measurements(n.children, results[0], results[0].size)
      else Thrown
    case Tag =>
      if |results| == 1 then OrThrow(results[0].tag(n.text))
      else if results == [] then Undefined
      else OrThrow(results[|results| - 1].config(n.text))
  }

  function TopNodes(ns: seq<TextNode>, results: seq<Result>): Rendered {
    if ns == [] then Out("") else Cat(TopNodes(ns[..|ns| - 1], results), TopNode(ns[|ns| - 1], results))
  }

  function Rendering(template: string, results: seq<Result>): Rendered {
    TopNodes(View(template, Parse(template, 0).nodes), results)
  }

  // ----- the loops -----

  /** The loop over the children. */
  method WriteTexts(s: string, children: seq<Node>) returns (out: string)
    ensures out == Texts(View(s, children))
  {
    ghost var v := View(s, children);
    hide View;
    out := "";
    for i := 0 to |children|
      invariant out == Texts(v[..i])
    {
      ViewAt(s, children, i);
      assert v[..i + 1][..i] == v[..i];
      if children[i].kind == Content {
        out := out + TextOf(s, children[i]);
      }
    }
    assert v[..|v|] == v;
  }

  method GenerateFirstLast(s: string, n: Node, idx: nat, size: nat) returns (taken: bool, out: string)
    ensures FirstLast(ViewNode(s, n), idx, size) == if taken then Some(out) else None
  {
    hide View;
    hide TextOf;
    hide Texts;
    var matchFirst, matchLast := TextOf(s, n) == "-first", TextOf(s, n) == "-last";
    out := "";
    if !matchFirst && !matchLast {
      return false, "";
    }
    var doWrite := false;
    if n.kind == Section {
      doWrite := (matchFirst && idx == 0) || (matchLast && idx == size - 1);
    } else if n.kind == Inverted {
      doWrite := (matchFirst && idx != 0) || (matchLast && idx != size - 1);
    }
    if doWrite {
      out := WriteTexts(s, n.children);
    }
    taken := true;
  }

  method GenerateResultMeasurement(s: string, nodes: seq<Node>, idx: nat, r: Result) returns (out: Rendered)
    ensures out == MeasurementNodes(View(s, nodes), idx, r)
  {
    ghost var v := View(s, nodes);
    out := Out("");
    for i := 0 to |nodes|
      invariant out == MeasurementNodes(v[..i], idx, r)
    {
      var n := nodes[i];
      ViewAt(s, nodes, i);
      assert v[..i + 1][..i] == v[..i];
      var taken, text := GenerateFirstLast(s, n, idx, r.size);
      if taken {
        out := Cat(out, Out(text));
      } else {
        match n.kind {
          case Content => out := Cat(out, Out(TextOf(s, n)));
          case Tag => out := Cat(out, Out(r.cell(idx, TextOf(s, n))));
          case _ => out := Cat(out, Thrown);
        }
      }
    }
    assert v[..|v|] == v;
  }

  method GenerateMeasurements(s: string, nodes: seq<Node>, r: Result) returns (out: Rendered)
    ensures out == Measurements(View(s, nodes), r, r.size)
  {
    out := Out("");
    for i := 0 to r.size
      invariant out == Measurements(View(s, nodes), r, i)
    {
      var one := GenerateResultMeasurement(s, nodes, i, r);
      out := Cat(out, one);
    }
  }

  method GenerateResult(s: string, nodes: seq<Node>, idx: nat, results: seq<Result>) returns (out: Rendered)
    requires idx < |results|
    ensures out == ResultNodes(View(s, nodes), idx, results)
  {
    var r := results[idx];
    ghost var v := View(s, nodes);
    out := Out("");
    hide View;
    hide TextOf;
    hide FirstLast;
    hide Measurements;
    for i := 0 to |nodes|
      invariant out == ResultNodes(v[..i], idx, results)
    {
      var n := nodes[i];
      ViewAt(s, nodes, i);
      assert v[..i + 1][..i] == v[..i];
      var taken, text := GenerateFirstLast(s, n, idx, |results|);
      if taken {
        out := Cat(out, Out(text));
      } else {
        match n.kind {
          case Content => out := Cat(out, Out(TextOf(s, n)));
          case Inverted => out := Cat(out, Thrown);
          case Section =>
            if TextOf(s, n) == "measurement" {
              var all := GenerateMeasurements(s, n.children, r);
              out := Cat(out, all);
            } else {
              out := Cat(out, Thrown);
            }
          case Tag => out := Cat(out, OrThrow(r.tag(TextOf(s, n))));
        }
      }
    }
    assert v[..|v|] == v;
  }

  method GenerateResults(s: string, nodes: seq<Node>, results: seq<Result>) returns (out: Rendered)
    ensures out == Results(View(s, nodes), results, |results|)
  {
    out := Out("");
    for i := 0 to |results|
      invariant out == Results(View(s, nodes), results, i)
    {
      var one := GenerateResult(s, nodes, i, results);
      out := Cat(out, one);
    }
  }

  method Render(template: string, results: seq<Result>) returns (out: Rendered)
    ensures out == Rendering(template, results)
  {
    var cursor := new Cursor();
    var nodes := ParseMustacheTemplate(template, cursor);
    ghost var v := View(template, nodes);
    out := Out("");
    hide View;
    hide TextOf;
    hide Results;
    hide Measurements;
    for i := 0 to |nodes|
      invariant out == TopNodes(v[..i], results)
    {
      var n := nodes[i];
      ViewAt(template, nodes, i);
      assert v[..i + 1][..i] == v[..i];
      match n.kind {
        case Content => out := Cat(out, Out(TextOf(template, n)));
        case Inverted => out := Cat(out, Thrown);
        case Section =>
          if TextOf(template, n) == "result" {
            var all := GenerateResults(template, n.children, results);
            out := Cat(out, all);
          } else if TextOf(template, n) == "measurement" && |results| == 1 {
            var all := GenerateMeasurements(template, n.children, results[0]);
            out := Cat(out, all);
          } else {
            out := Cat(out, Thrown);
          }
        case Tag =>
          if |results| == 1 {
            out := Cat(out, OrThrow(results[0].tag(TextOf(template, n))));
          } else if results == [] {
            out := Cat(out, Undefined);
          } else {
            out := Cat(out, OrThrow(results[|results| - 1].config(TextOf(template, n))));
          }
      }
    }
    assert v[..|v|] == v;
  }

  // ----- separators -----

  /** The text nodes of a tree. */
  function Flatten(t: Template): seq<TextNode> {
    match t
    case End(text) => [TextNode(Content, text, [])]
    case Then(text, item, rest) => [TextNode(Content, text, []), FlattenItem(item)] + Flatten(rest)
  }

  function FlattenItem(i: Item): TextNode {
    match i
    case Plain(name) => TextNode(Tag, name, [])
    case Nested(inverted, name, body, _) => TextNode(if inverted then Inverted else Section, name, Flatten(body))
  }

  lemma {:induction false} ShownIsFlattened(s: string, nodes: seq<Node>, t: Template)
    requires Shows(s, nodes, t)
    ensures View(s, nodes) == Flatten(t)
    decreases t
  {
    match t
    case End(text) =>
      assert nodes == [nodes[0]];
    case Then(text, item, rest) =>
      ShownItemIsFlattened(s, nodes[1], item);
      ShownIsFlattened(s, nodes[2..], rest);
      assert nodes[1..][1..] == nodes[2..];
      assert View(s, nodes) == [ViewNode(s, nodes[0])] + ([ViewNode(s, nodes[1])] + View(s, nodes[2..]));
  }

  lemma {:induction false} ShownItemIsFlattened(s: string, n: Node, i: Item)
    requires ShowsItem(s, n, i)
    ensures ViewNode(s, n) == FlattenItem(i)
    decreases i
  {
    if i.Nested? {
      ShownIsFlattened(s, n.children, i.body);
    }
  }

  /** Rendering the printed tree is rendering its text nodes. */
  lemma {:induction false} RenderPrinted(t: Template, results: seq<Result>)
    requires WellFormed(t, true)
    ensures Rendering(Print(t), results) == TopNodes(Flatten(t), results)
  {
    PrintThenParse(t);
    ShownIsFlattened(Print(t), Parse(Print(t), 0).nodes, t);
  }

  /** body followed by {{^-last}}sep{{/close}} */
  function WithSeparator(body: Template, sep: string, close: string): Template {
    match body
    case End(text) => Then(text, Nested(true, "-last", End(sep), close), End(""))
    case Then(text, item, rest) => Then(text, item, WithSeparator(rest, sep, close))
  }

  function SeparatorNodes(sep: string): seq<TextNode> {
    [TextNode(Inverted, "-last", [TextNode(Content, sep, [])]), TextNode(Content, "", [])]
  }

  lemma {:induction false} FlattenSeparator(body: Template, sep: string, close: string)
    ensures Flatten(WithSeparator(body, sep, close)) == Flatten(body) + SeparatorNodes(sep)
    decreases body
  {
    match body
    case End(text) =>
      var item := Nested(true, "-last", End(sep), close);
      assert FlattenItem(item) == SeparatorNodes(sep)[0];
      assert Flatten(Then(text, item, End(""))) == [TextNode(Content, text, [])] + SeparatorNodes(sep);
    case Then(text, item, rest) =>
      FlattenSeparator(rest, sep, close);
      var two := [TextNode(Content, text, []), FlattenItem(item)];
      assert two + (Flatten(rest) + SeparatorNodes(sep)) == two + Flatten(rest) + SeparatorNodes(sep);
  }

  /** The bodies with sep between them. */
  function Join(bodies: seq<string>, sep: string): string {
    if bodies == [] then ""
    else if |bodies| == 1 then bodies[0]
    else Join(bodies[..|bodies| - 1], sep) + sep + bodies[|bodies| - 1]
  }

  ghost predicate RendersAs(ns: seq<TextNode>, r: Result, bodies: seq<string>) {
    |bodies| == r.size && forall k :: 0 <= k < r.size ==> MeasurementNodes(ns, k, r) == Out(bodies[k])
  }

  lemma {:induction false} SeparatedMeasurement(ns: seq<TextNode>, sep: string, r: Result, bodies: seq<string>, k: nat)
    requires RendersAs(ns, r, bodies) && k < r.size
    ensures MeasurementNodes(ns + SeparatorNodes(sep), k, r) == Out(bodies[k] + if k + 1 < r.size then sep else "")
  {
    var last, empty := SeparatorNodes(sep)[0], SeparatorNodes(sep)[1];
    assert (ns + SeparatorNodes(sep))[..|ns| + 1] == ns + [last];
    assert (ns + [last])[..|ns|] == ns;
    assert last.children[..0] == [];
    assert Texts(last.children) == sep;
    assert MeasurementNodes(ns + [last], k, r) == Cat(Out(bodies[k]), Out(if k + 1 < r.size then sep else ""));
    assert MeasurementNode(empty, k, r) == Out("");
  }

  lemma {:induction false} JoinStep(bodies: seq<string>, sep: string, k: nat)
    requires 0 < k <= |bodies|
    ensures var tail := if k < |bodies| then sep else "";
            Join(bodies[..k - 1], sep) + (if 1 < k then sep else "") + (bodies[k - 1] + tail) == Join(bodies[..k], sep) + tail
  {
    var front := bodies[..k];
    assert front[..k - 1] == bodies[..k - 1];
    assert Join(front, sep) == if k == 1 then bodies[0] else Join(bodies[..k - 1], sep) + sep + bodies[k - 1];
  }

  lemma {:induction false} SeparatedMeasurements(ns: seq<TextNode>, sep: string, r: Result, bodies: seq<string>, k: nat)
    requires RendersAs(ns, r, bodies) && k <= r.size
    ensures Measurements(ns + SeparatorNodes(sep), r, k) ==
            Out(Join(bodies[..k], sep) + if 0 < k < r.size then sep else "")
  {
    if k > 0 {
      SeparatedMeasurements(ns, sep, r, bodies, k - 1);
      SeparatedMeasurement(ns, sep, r, bodies, k - 1);
      hide MeasurementNodes;
      JoinStep(bodies, sep, k);
      hide Join;
    }
  }

  /** The template {{#name}}body{{/close}} */
  function OneSection(name: string, body: Template, close: string): Template {
    Then("", Nested(false, name, body, close), End(""))
  }

  lemma {:induction false} TopSection(name: string, body: Template, close: string, results: seq<Result>)
    ensures TopNodes(Flatten(OneSection(name, body, close)), results) ==
            TopNode(TextNode(Section, name, Flatten(body)), results)
  {
    var a, b := TextNode(Content, "", []), TextNode(Section, name, Flatten(body));
    var m := TopNode(b, results);
    assert FlattenItem(Nested(false, name, body, close)) == b;
    assert Flatten(OneSection(name, body, close)) == [a, b] + [a] == [a, b, a];
    hide Flatten;
    assert [a, b, a][..2] == [a, b] && [a, b][..1] == [a] && [a][..0] == [];
    assert TopNodes([a], results) == Out("");
    hide TopNode;
    assert TopNodes([a, b], results) == Cat(Out(""), m) == m;
    assert TopNodes([a, b, a], results) == Cat(m, TopNode(a, results));
    assert Cat(m, Out("")) == m;
  }

  /** The template {{#measurement}}body{{^-last}}sep{{/..}}{{/..}} renders as the bodies joined by
      sep: nothing for no measurement, no separator after the last. */
  lemma {:induction false} SeparatorIsJoin(body: Template, sep: string, c1: string, c2: string, r: Result, bodies: seq<string>)
    requires WellFormed(OneSection("measurement", WithSeparator(body, sep, c1), c2), true)
    requires RendersAs(Flatten(body), r, bodies)
    ensures Rendering(Print(OneSection("measurement", WithSeparator(body, sep, c1), c2)), [r]) == Out(Join(bodies, sep))
  {
    var t := OneSection("measurement", WithSeparator(body, sep, c1), c2);
    RenderPrinted(t, [r]);
    FlattenSeparator(body, sep, c1);
    SeparatedMeasurements(Flatten(body), sep, r, bodies, r.size);
    assert bodies[..r.size] == bodies;
    TopSection("measurement", WithSeparator(body, sep, c1), c2, [r]);
  }

  // ----- separators between results -----

  ghost predicate ResultsRenderAs(ns: seq<TextNode>, results: seq<Result>, bodies: seq<string>) {
    |bodies| == |results| && forall k :: 0 <= k < |results| ==> ResultNodes(ns, k, results) == Out(bodies[k])
  }

  lemma {:induction false} SeparatedResult(ns: seq<TextNode>, sep: string, results: seq<Result>, bodies: seq<string>, k: nat)
    requires ResultsRenderAs(ns, results, bodies) && k < |results|
    ensures ResultNodes(ns + SeparatorNodes(sep), k, results) == Out(bodies[k] + if k + 1 < |results| then sep else "")
  {
    var last, empty := SeparatorNodes(sep)[0], SeparatorNodes(sep)[1];
    assert (ns + SeparatorNodes(sep))[..|ns| + 1] == ns + [last];
    assert (ns + [last])[..|ns|] == ns;
    assert last.children[..0] == [];
    assert Texts(last.children) == sep;
    assert ResultNodes(ns + [last], k, results) == Cat(Out(bodies[k]), Out(if k + 1 < |results| then sep else ""));
    assert ResultNode(empty, k, results) == Out("");
  }

  lemma {:induction false} SeparatedResults(ns: seq<TextNode>, sep: string, results: seq<Result>, bodies: seq<string>, k: nat)
    requires ResultsRenderAs(ns, results, bodies) && k <= |results|
    ensures Results(ns + SeparatorNodes(sep), results, k) ==
            Out(Join(bodies[..k], sep) + if 0 < k < |results| then sep else "")
  {
    if k > 0 {
      SeparatedResults(ns, sep, results, bodies, k - 1);
      SeparatedResult(ns, sep, results, bodies, k - 1);
      hide ResultNodes;
      JoinStep(bodies, sep, k);
      hide Join;
    }
  }

  /** The template {{#result}}body{{^-last}}sep{{/..}}{{/..}} renders as the results' bodies joined by
      sep, for any number of results. */
  lemma {:induction false} ResultSeparatorIsJoin(body: Template, sep: string, c1: string, c2: string,
                                                 results: seq<Result>, bodies: seq<string>)
    requires WellFormed(OneSection("result", WithSeparator(body, sep, c1), c2), true)
    requires ResultsRenderAs(Flatten(body), results, bodies)
    ensures Rendering(Print(OneSection("result", WithSeparator(body, sep, c1), c2)), results) == Out(Join(bodies, sep))
  {
    var t := OneSection("result", WithSeparator(body, sep, c1), c2);
    RenderPrinted(t, results);
    FlattenSeparator(body, sep, c1);
    SeparatedResults(Flatten(body), sep, results, bodies, |results|);
    assert bodies[..|results|] == bodies;
    TopSection("result", WithSeparator(body, sep, c1), c2, results);
  }

  // ----- when rendering is undefined -----

  lemma {:induction false} MeasurementsDefined(ns: seq<TextNode>, r: Result, k: nat)
    ensures !Measurements(ns, r, k).Undefined?
  {
    if k > 0 {
      MeasurementsDefined(ns, r, k - 1);
      MeasurementDefined(ns, k - 1, r);
    }
  }

  lemma {:induction false} MeasurementDefined(ns: seq<TextNode>, idx: nat, r: Result)
    ensures !MeasurementNodes(ns, idx, r).Undefined?
  {
    if ns != [] { MeasurementDefined(ns[..|ns| - 1], idx, r); }
  }

  lemma {:induction false} ResultsDefined(ns: seq<TextNode>, results: seq<Result>, k: nat)
    requires k <= |results|
    ensures !Results(ns, results, k).Undefined?
  {
    if k > 0 {
      ResultsDefined(ns, results, k - 1);
      ResultDefined(ns, k - 1, results);
    }
  }

  lemma {:induction false} ResultDefined(ns: seq<TextNode>, idx: nat, results: seq<Result>)
    requires idx < |results|
    ensures !ResultNodes(ns, idx, results).Undefined?
  {
    if ns != [] {
      ResultDefined(ns[..|ns| - 1], idx, results);
      var n := ns[|ns| - 1];
      MeasurementsDefined(n.children, results[idx], results[idx].size);
    }
  }

  /** With no results this top-level node raises an error. */
  predicate ThrowsEmpty(n: TextNode) {
    n.kind == Inverted || (n.kind == Section && n.text != "result")
  }

  /** A tag comes before anything that raises an error. */
  ghost predicate TagFirst(ns: seq<TextNode>) {
    exists k :: 0 <= k < |ns| && ns[k].kind == Tag && forall j :: 0 <= j < k ==> !ThrowsEmpty(ns[j])
  }

  ghost predicate NothingThrows(ns: seq<TextNode>) {
    forall j :: 0 <= j < |ns| ==> !ThrowsEmpty(ns[j]) && ns[j].kind != Tag
  }

  lemma {:induction false} TopNodesOfNothing(ns: seq<TextNode>)
    ensures TopNodes(ns, []).Undefined? <==> TagFirst(ns)
    ensures TopNodes(ns, []).Out? <==> NothingThrows(ns)
  {
    if ns != [] {
      var front, n := ns[..|ns| - 1], ns[|ns| - 1];
      TopNodesOfNothing(front);
      assert TopNode(n, []).Undefined? <==> n.kind == Tag;
      assert TopNode(n, []).Out? <==> n.kind != Tag && !ThrowsEmpty(n);
      if k :| 0 <= k < |front| && front[k].kind == Tag && forall j :: 0 <= j < k ==> !ThrowsEmpty(front[j]) {
        assert ns[k].kind == Tag && forall j :: 0 <= j < k ==> !ThrowsEmpty(ns[j]);
      }
      if k :| 0 <= k < |ns| && ns[k].kind == Tag && forall j :: 0 <= j < k ==> !ThrowsEmpty(ns[j]) {
        if k < |front| {
          assert front[k].kind == Tag && forall j :: 0 <= j < k ==> !ThrowsEmpty(front[j]);
        } else if !NothingThrows(front) {
          var j :| 0 <= j < |front| && front[j].kind == Tag;
          assert forall i :: 0 <= i < j ==> !ThrowsEmpty(front[i]);
        }
      }
      if NothingThrows(front) && n.kind == Tag {
        assert ns[|front|].kind == Tag && forall j :: 0 <= j < |front| ==> !ThrowsEmpty(ns[j]);
      }
    }
  }

  lemma {:induction false} TopNodesDefined(ns: seq<TextNode>, results: seq<Result>)
    requires results != []
    ensures !TopNodes(ns, results).Undefined?
  {
    if ns != [] {
      TopNodesDefined(ns[..|ns| - 1], results);
      var n := ns[|ns| - 1];
      ResultsDefined(n.children, results, |results|);
      MeasurementsDefined(n.children, results[0], results[0].size);
    }
  }

  /** Rendering looks into an empty list of results exactly if there are none and a tag stands at top
      level before everything that raises an error there. */
  lemma {:induction false} UndefinedIff(template: string, results: seq<Result>)
    ensures Rendering(template, results) == Undefined <==>
            results == [] && TagFirst(View(template, Parse(template, 0).nodes))
  {
    var v := View(template, Parse(template, 0).nodes);
    if results == [] { TopNodesOfNothing(v); } else { TopNodesDefined(v, results); }
  }

  /** The smallest such template is a single tag. */
  lemma {:induction false} OneTagIsUndefined()
    ensures Rendering("{{x}}", []) == Undefined
  {
    var t := Then("", Plain("x"), End(""));
    assert Print(t) == "{{x}}";
    RenderPrinted(t, []);
    TopNodesOfNothing(Flatten(t));
    assert Flatten(t) == [TextNode(Content, "", []), TextNode(Tag, "x", []), TextNode(Content, "", [])];
    assert Flatten(t)[1].kind == Tag && forall j :: 0 <= j < 1 ==> !ThrowsEmpty(Flatten(t)[j]);
  }

  // ----- texts and tags that are taken for -first and -last -----

  predicate IsFirstLast(text: string) {
    text == "-first" || text == "-last"
  }

  /** In a measurement, text and tags render as themselves exactly if they are not one of the two. */
  lemma {:induction false} SwallowedInMeasurementIff(n: TextNode, idx: nat, r: Result)
    requires n.kind == Content || n.kind == Tag
    ensures IsFirstLast(n.text) <==> FirstLast(n, idx, r.size) == Some("")
    ensures MeasurementNode(n, idx, r) ==
            if IsFirstLast(n.text) then Out("") else Out(if n.kind == Content then n.text else r.cell(idx, n.text))
    ensures n.kind == Content ==> (MeasurementNode(n, idx, r) != Out(n.text) <==> IsFirstLast(n.text))
  {
  }

  lemma {:induction false} SwallowedInResultIff(n: TextNode, idx: nat, results: seq<Result>)
    requires idx < |results| && (n.kind == Content || n.kind == Tag)
    ensures IsFirstLast(n.text) <==> FirstLast(n, idx, |results|) == Some("")
    ensures ResultNode(n, idx, results) ==
            if IsFirstLast(n.text) then Out("") else if n.kind == Content then Out(n.text) else OrThrow(results[idx].tag(n.text))
    ensures n.kind == Content ==> (ResultNode(n, idx, results) != Out(n.text) <==> IsFirstLast(n.text))
  {
  }

  /** A template without tags in its section renders as its text, once for each measurement, exactly
      if the text is not one of the two; else nothing is left of it. */
  lemma {:induction false} SwallowedThroughParser(text: string, close: string, r: Result)
    requires WellFormed(OneSection("measurement", End(text), close), true)
    ensures Rendering(Print(OneSection("measurement", End(text), close)), [r]) ==
            Out(Repeated(r.size, if IsFirstLast(text) then "" else text))
  {
    var t := OneSection("measurement", End(text), close);
    RenderPrinted(t, [r]);
    TopSection("measurement", End(text), close, [r]);
    MeasurementsOfText(text, r, r.size);
  }

  /** The body of a measurement section as if -first and -last were names of sections only. */
  function Plainly(t: Template, idx: nat, r: Result): Rendered {
    match t
    case End(text) => Out(text)
    case Then(text, item, rest) => Cat(Out(text), Cat(PlainItem(item, idx, r), Plainly(rest, idx, r)))
  }

  function PlainItem(i: Item, idx: nat, r: Result): Rendered {
    if i.Plain? then Out(r.cell(idx, i.name)) else MeasurementNode(FlattenItem(i), idx, r)
  }

  /** Some text or tag of the body is one of the two names. */
  predicate Swallows(t: Template) {
    match t
    case End(text) => IsFirstLast(text)
    case Then(text, item, rest) => IsFirstLast(text) || (item.Plain? && IsFirstLast(item.name)) || Swallows(rest)
  }

  /** Every section of the body is one of the two, so that none raises an error. */
  predicate SectionsKnown(t: Template) {
    t.Then? ==> (t.item.Nested? ==> IsFirstLast(t.item.name)) && SectionsKnown(t.rest)
  }

  lemma {:induction false} MeasurementNodesConcat(a: seq<TextNode>, b: seq<TextNode>, idx: nat, r: Result)
    ensures MeasurementNodes(a + b, idx, r) == Cat(MeasurementNodes(a, idx, r), MeasurementNodes(b, idx, r))
  {
    if b == [] {
      assert a + b == a;
    } else {
      assert (a + b)[..|a + b| - 1] == a + b[..|b| - 1];
      MeasurementNodesConcat(a, b[..|b| - 1], idx, r);
      hide MeasurementNode;
    }
  }

  lemma {:induction false} TwoNodesRender(a: TextNode, b: TextNode, idx: nat, r: Result)
    ensures MeasurementNodes([a, b], idx, r) == Cat(MeasurementNode(a, idx, r), MeasurementNode(b, idx, r))
  {
    assert [a, b][..1] == [a] && [a][..0] == [];
    assert MeasurementNodes([a], idx, r) == Cat(Out(""), MeasurementNode(a, idx, r)) == MeasurementNode(a, idx, r);
    hide MeasurementNode;
  }

  lemma {:induction false} CatAssociative(a: Rendered, b: Rendered, c: Rendered)
    ensures Cat(Cat(a, b), c) == Cat(a, Cat(b, c))
  {
  }

  lemma {:induction false} FlattenThen(text: string, item: Item, rest: Template)
    ensures Flatten(Then(text, item, rest)) == [TextNode(Content, text, []), FlattenItem(item)] + Flatten(rest)
  {
    hide FlattenItem;
  }

  /** A body renders text by text and item by item. */
  lemma {:induction false} BodyRenders(text: string, item: Item, rest: Template, idx: nat, r: Result)
    ensures MeasurementNodes(Flatten(Then(text, item, rest)), idx, r) ==
            Cat(MeasurementNode(TextNode(Content, text, []), idx, r),
                Cat(MeasurementNode(FlattenItem(item), idx, r), MeasurementNodes(Flatten(rest), idx, r)))
  {
    hide *;
    var a, b := TextNode(Content, text, []), FlattenItem(item);
    FlattenThen(text, item, rest);
    MeasurementNodesConcat([a, b], Flatten(rest), idx, r);
    TwoNodesRender(a, b, idx, r);
    CatAssociative(MeasurementNode(a, idx, r), MeasurementNode(b, idx, r), MeasurementNodes(Flatten(rest), idx, r));
  }

  lemma {:induction false} EndRenders(text: string, idx: nat, r: Result)
    ensures MeasurementNodes(Flatten(End(text)), idx, r) == Out(if IsFirstLast(text) then "" else text)
  {
    var a := TextNode(Content, text, []);
    assert Flatten(End(text)) == [a] && [a][..0] == [];
    SwallowedInMeasurementIff(a, idx, r);
  }

  /** If nothing is one of the two names, a body renders plainly. */
  lemma {:induction false} NothingSwallowed(t: Template, idx: nat, r: Result)
    requires !Swallows(t)
    ensures MeasurementNodes(Flatten(t), idx, r) == Plainly(t, idx, r)
  {
    match t
    case End(text) => EndRenders(text, idx, r);
    case Then(text, item, rest) =>
      BodyRenders(text, item, rest, idx, r);
      SwallowedInMeasurementIff(TextNode(Content, text, []), idx, r);
      if item.Plain? { SwallowedInMeasurementIff(FlattenItem(item), idx, r); }
      NothingSwallowed(rest, idx, r);
  }

  /** A result of one measurement whose every cell shows as x. */
  function AllX(): Result {
    Result(1, (i, name) => "x", name => None, name => None)
  }

  /** Otherwise it renders shorter than plainly. */
  lemma {:induction false} SomethingSwallowed(t: Template)
    requires SectionsKnown(t)
    ensures var m, p := MeasurementNodes(Flatten(t), 0, AllX()), Plainly(t, 0, AllX());
            m.Out? && p.Out? && |m.text| <= |p.text| && (Swallows(t) ==> |m.text| < |p.text|)
  {
    var r := AllX();
    match t
    case End(text) => EndRenders(text, 0, r);
    case Then(text, item, rest) =>
      BodyRenders(text, item, rest, 0, r);
      SwallowedInMeasurementIff(TextNode(Content, text, []), 0, r);
      if item.Plain? { SwallowedInMeasurementIff(FlattenItem(item), 0, r); }
      SomethingSwallowed(rest);
  }

  /** With another section in it, a body raises its error either way. */
  lemma {:induction false} UnknownThrows(t: Template, idx: nat, r: Result)
    requires !SectionsKnown(t)
    ensures MeasurementNodes(Flatten(t), idx, r) == Plainly(t, idx, r) == Thrown
  {
    BodyRenders(t.text, t.item, t.rest, idx, r);
    SwallowedInMeasurementIff(TextNode(Content, t.text, []), idx, r);
    if t.item.Plain? { SwallowedInMeasurementIff(FlattenItem(t.item), idx, r); }
    if !SectionsKnown(t.rest) { UnknownThrows(t.rest, idx, r); }
    hide Flatten;
  }

  function PlainMeasurements(t: Template, r: Result, k: nat): Rendered {
    if k == 0 then Out("") else Cat(PlainMeasurements(t, r, k - 1), Plainly(t, k - 1, r))
  }

  lemma {:induction false} PlainlySame(t: Template, idx: nat, r: Result)
    requires !Swallows(t) || !SectionsKnown(t)
    ensures MeasurementNodes(Flatten(t), idx, r) == Plainly(t, idx, r)
  {
    hide *;
    if Swallows(t) { UnknownThrows(t, idx, r); } else { NothingSwallowed(t, idx, r); }
  }

  lemma {:induction false} PlainMeasurementsSame(t: Template, r: Result, k: nat)
    requires !Swallows(t) || !SectionsKnown(t)
    ensures Measurements(Flatten(t), r, k) == PlainMeasurements(t, r, k)
  {
    hide Flatten;
    hide Plainly;
    hide MeasurementNodes;
    hide Swallows;
    hide SectionsKnown;
    if k > 0 {
      PlainMeasurementsSame(t, r, k - 1);
      PlainlySame(t, k - 1, r);
    }
  }

  lemma {:induction false} SectionRenders(body: Template, close: string, r: Result)
    requires WellFormed(OneSection("measurement", body, close), true)
    ensures Rendering(Print(OneSection("measurement", body, close)), [r]) == Measurements(Flatten(body), r, r.size)
  {
    RenderPrinted(OneSection("measurement", body, close), [r]);
    TopSection("measurement", body, close, [r]);
    hide Flatten;
    hide Measurements;
  }

  /** Through parser and renderer: {{#measurement}}body{{/close}} shows every text and tag of its body,
      for every result, exactly if none of them reads -first or -last, or an error is raised anyway. */
  lemma {:induction false} SwallowedIff(body: Template, close: string)
    requires WellFormed(OneSection("measurement", body, close), true)
    ensures (forall r :: Rendering(Print(OneSection("measurement", body, close)), [r]) == PlainMeasurements(body, r, r.size))
        <==> !Swallows(body) || !SectionsKnown(body)
  {
    if Swallows(body) && SectionsKnown(body) {
      var r := AllX();
      SectionRenders(body, close, r);
      SomethingSwallowed(body);
      OneMeasurement(body, r);
      assert Rendering(Print(OneSection("measurement", body, close)), [r]) != PlainMeasurements(body, r, r.size);
    } else {
      forall r ensures Rendering(Print(OneSection("measurement", body, close)), [r]) == PlainMeasurements(body, r, r.size) {
        SectionRenders(body, close, r);
        PlainMeasurementsSame(body, r, r.size);
      }
    }
  }

  lemma {:induction false} OneMeasurement(body: Template, r: Result)
    requires r.size == 1
    ensures Measurements(Flatten(body), r, 1) == Cat(Out(""), MeasurementNodes(Flatten(body), 0, r))
    ensures PlainMeasurements(body, r, 1) == Cat(Out(""), Plainly(body, 0, r))
  {
    assert Measurements(Flatten(body), r, 0) == Out("") && PlainMeasurements(body, r, 0) == Out("");
  }

  lemma {:induction false} FirstTemplate()
    ensures var t := OneSection("measurement", End("-first"), "");
            Print(t) == "{{#measurement}}-first{{/}}" && WellFormed(t, true)
  {
    assert Print(End("")) == "" && Print(End("-first")) == "-first";
    FirstIsWellFormed();
    hide WellFormed;
  }

  lemma {:induction false} FirstIsWellFormed()
    ensures WellFormed(OneSection("measurement", End("-first"), ""), true)
  {
  }

  /** `{{#measurement}}-first{{/}}` renders as nothing. */
  lemma {:induction false} TextFirstIsSwallowed(r: Result)
    ensures Rendering("{{#measurement}}-first{{/}}", [r]) == Out("")
  {
    FirstTemplate();
    hide Print;
    hide WellFormed;
    hide Rendering;
    SwallowedThroughParser("-first", "", r);
    NothingTimes(r.size);
  }

  function Repeated(k: nat, text: string): string {
    if k == 0 then "" else Repeated(k - 1, text) + text
  }

  lemma {:induction false} NothingTimes(k: nat)
    ensures Repeated(k, "") == ""
  {
    if k > 0 { NothingTimes(k - 1); }
  }

  lemma {:induction false} MeasurementsOfText(text: string, r: Result, k: nat)
    ensures Measurements([TextNode(Content, text, [])], r, k) == Out(Repeated(k, if IsFirstLast(text) then "" else text))
  {
    if k > 0 {
      MeasurementsOfText(text, r, k - 1);
      var n := TextNode(Content, text, []);
      assert [n][..0] == [];
      assert MeasurementNodes([n], k - 1, r) == MeasurementNode(n, k - 1, r);
    }
  }
}
