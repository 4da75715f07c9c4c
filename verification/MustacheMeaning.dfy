/** What a template means for a list of results, read off its tree: texts, tags, and sections that repeat
    their body or show it for the first or the last. */
module MustacheMeaning {
  import opened Common
  import opened Mustache
  import opened MustachePrinter
  import opened MustacheRender

  // ----- the meaning of a template -----

  /** The texts of a body, its tags and sections left out. */
  function TextsOf(t: Template): string {
    match t
    case End(text) => text
    case Then(text, _, rest) => text + TextsOf(rest)
  }

  /** A text inside a section: the two names vanish. */
  function Shown(text: string): string {
    if IsFirstLast(text) then "" else text
  }

  /** A section on -first or -last around `body` for element idx of `size`. */
  function Marked(inverted: bool, name: string, body: Template, idx: nat, size: nat): string {
    var here := if name == "-first" then idx == 0 else idx + 1 == size;
    if here != inverted then TextsOf(body) else ""
  }

  /** The body of a measurement section for measurement idx. */
  function InMeasurement(t: Template, idx: nat, r: Result): Rendered {
    match t
    case End(text) => Out(Shown(text))
    case Then(text, item, rest) => Cat(Out(Shown(text)), Cat(ItemInMeasurement(item, idx, r), InMeasurement(rest, idx, r)))
  }

  function ItemInMeasurement(i: Item, idx: nat, r: Result): Rendered {
    match i
    case Plain(name) => Out(if IsFirstLast(name) then "" else r.cell(idx, name))
    case Nested(inverted, name, body, _) =>
      if IsFirstLast(name) then Out(Marked(inverted, name, body, idx, r.size)) else Thrown
  }

  /** The body once for each of the first k measurements. */
  function EachMeasurement(body: Template, r: Result, k: nat): Rendered {
    if k == 0 then Out("") else Cat(EachMeasurement(body, r, k - 1), InMeasurement(body, k - 1, r))
  }

  /** The body of a result section for result idx. */
  function InResult(t: Template, idx: nat, results: seq<Result>): Rendered
    requires idx < |results|
  {
    match t
    case End(text) => Out(Shown(text))
    case Then(text, item, rest) => Cat(Out(Shown(text)), Cat(ItemInResult(item, idx, results), InResult(rest, idx, results)))
  }

  function ItemInResult(i: Item, idx: nat, results: seq<Result>): Rendered
    requires idx < |results|
  {
    match i
    case Plain(name) => if IsFirstLast(name) then Out("") else OrThrow(results[idx].tag(name))
    case Nested(inverted, name, body, _) =>
      if IsFirstLast(name) then Out(Marked(inverted, name, body, idx, |results|))
      else if name == "measurement" && !inverted then EachMeasurement(body, results[idx], results[idx].size)
      else Thrown
  }

  function EachResult(body: Template, results: seq<Result>, k: nat): Rendered
    requires k <= |results|
  {
    if k == 0 then Out("") else Cat(EachResult(body, results, k - 1), InResult(body, k - 1, results))
  }

  /** A template: outside of sections a single result is asked for everything, of several the last one
      for its config alone. */
  function Meaning(t: Template, results: seq<Result>): Rendered {
    match t
    case End(text) => Out(text)
    case Then(text, item, rest) => Cat(Out(text), Cat(ItemMeaning(item, results), Meaning(rest, results)))
  }

  function ItemMeaning(i: Item, results: seq<Result>): Rendered {
    match i
    case Plain(name) =>
      if results == [] then Undefined
      else OrThrow(if |results| == 1 then results[0].tag(name) else results[|results| - 1].config(name))
    case Nested(inverted, name, body, _) =>
      if inverted then Thrown
      else if name == "result" then EachResult(body, results, |results|)
      else if name == "measurement" && |results| == 1 then EachMeasurement(body, results[0], results[0].size)
      else Thrown
  }

  // ----- inside measurements -----

  lemma {:induction false} TextsOfNodes(t: Template)
    ensures Texts(Flatten(t)) == TextsOf(t)
  {
    match t
    case End(text) =>
      assert Flatten(t)[..0] == [];
    case Then(text, item, rest) =>
      TextsOfNodes(rest);
      FlattenThen(text, item, rest);
      TextOfTwo(text, item);
      TextsConcat([TextNode(Content, text, []), FlattenItem(item)], Flatten(rest));
      hide Texts;
      hide Flatten;
  }

  lemma {:induction false} TextOfTwo(text: string, item: Item)
    ensures Texts([TextNode(Content, text, []), FlattenItem(item)]) == text
  {
    var a, b := TextNode(Content, text, []), FlattenItem(item);
    assert [a, b][..1] == [a] && [a][..0] == [];
    assert Texts([a]) == Texts([]) + text == text;
    assert b.kind != Content;
    hide Flatten;
  }

  lemma {:induction false} TextsConcat(a: seq<TextNode>, b: seq<TextNode>)
    ensures Texts(a + b) == Texts(a) + Texts(b)
  {
    if b == [] {
      assert a + b == a;
    } else {
      assert (a + b)[..|a + b| - 1] == a + b[..|b| - 1];
      TextsConcat(a, b[..|b| - 1]);
    }
  }

  lemma {:induction false} MarkedSection(inverted: bool, name: string, body: Template, close: string, idx: nat, size: nat)
    requires idx < size
    ensures FirstLast(FlattenItem(Nested(inverted, name, body, close)), idx, size) ==
            if IsFirstLast(name) then Some(Marked(inverted, name, body, idx, size)) else None
  {
    TextsOfNodes(body);
    hide Flatten;
    hide Texts;
  }

  lemma {:induction false} TextInMeasurement(text: string, idx: nat, r: Result)
    ensures MeasurementNode(TextNode(Content, text, []), idx, r) == Out(Shown(text))
  {
  }

  lemma {:induction false} ItemOfMeasurement(i: Item, idx: nat, r: Result)
    requires idx < r.size
    ensures MeasurementNode(FlattenItem(i), idx, r) == ItemInMeasurement(i, idx, r)
  {
    if i.Nested? { MarkedSection(i.inverted, i.name, i.body, i.close, idx, r.size); }
    hide FirstLast;
    hide Marked;
    hide Flatten;
    if i.Plain? { PlainName(i.name, idx, r.size); }
  }

  lemma {:induction false} PlainName(name: string, idx: nat, size: nat)
    ensures FirstLast(FlattenItem(Plain(name)), idx, size) == if IsFirstLast(name) then Some("") else None
  {
  }

  lemma {:induction false} MeasurementMeans(t: Template, idx: nat, r: Result)
    requires idx < r.size
    ensures MeasurementNodes(Flatten(t), idx, r) == InMeasurement(t, idx, r)
  {
    match t
    case End(text) =>
      TextInMeasurement(text, idx, r);
      EndRenders(text, idx, r);
    case Then(text, item, rest) =>
      BodyRenders(text, item, rest, idx, r);
      TextInMeasurement(text, idx, r);
      ItemOfMeasurement(item, idx, r);
      MeasurementMeans(rest, idx, r);
      hide MeasurementNode;
      hide MeasurementNodes;
      hide Flatten;
      hide ItemInMeasurement;
  }

  lemma {:induction false} MeasurementsMean(body: Template, r: Result, k: nat)
    requires k <= r.size
    ensures Measurements(Flatten(body), r, k) == EachMeasurement(body, r, k)
  {
    hide MeasurementNodes;
    hide InMeasurement;
    hide Flatten;
    if k > 0 {
      MeasurementsMean(body, r, k - 1);
      MeasurementMeans(body, k - 1, r);
    }
  }

  // ----- inside results -----

  lemma {:induction false} ResultNodesConcat(a: seq<TextNode>, b: seq<TextNode>, idx: nat, results: seq<Result>)
    requires idx < |results|
    ensures ResultNodes(a + b, idx, results) == Cat(ResultNodes(a, idx, results), ResultNodes(b, idx, results))
  {
    if b == [] {
      assert a + b == a;
    } else {
      assert (a + b)[..|a + b| - 1] == a + b[..|b| - 1];
      ResultNodesConcat(a, b[..|b| - 1], idx, results);
      hide ResultNode;
    }
  }

  lemma {:induction false} OneResultNode(a: TextNode, idx: nat, results: seq<Result>)
    requires idx < |results|
    ensures ResultNodes([a], idx, results) == ResultNode(a, idx, results)
  {
    assert [a][..0] == [];
    assert ResultNodes([], idx, results) == Out("");
    hide ResultNode;
  }

  lemma {:induction false} ResultBody(text: string, item: Item, rest: Template, idx: nat, results: seq<Result>)
    requires idx < |results|
    ensures ResultNodes(Flatten(Then(text, item, rest)), idx, results) ==
            Cat(ResultNode(TextNode(Content, text, []), idx, results),
                Cat(ResultNode(FlattenItem(item), idx, results), ResultNodes(Flatten(rest), idx, results)))
  {
    hide *;
    var a, b := TextNode(Content, text, []), FlattenItem(item);
    FlattenThen(text, item, rest);
    ResultNodesConcat([a, b], Flatten(rest), idx, results);
    assert [a, b] == [a] + [b];
    ResultNodesConcat([a], [b], idx, results);
    OneResultNode(a, idx, results);
    OneResultNode(b, idx, results);
    CatAssociative(ResultNode(a, idx, results), ResultNode(b, idx, results), ResultNodes(Flatten(rest), idx, results));
  }

  lemma {:induction false} TextInResult(text: string, idx: nat, results: seq<Result>)
    requires idx < |results|
    ensures ResultNode(TextNode(Content, text, []), idx, results) == Out(Shown(text))
  {
  }

  lemma {:induction false} ItemOfResult(i: Item, idx: nat, results: seq<Result>)
    requires idx < |results|
    ensures ResultNode(FlattenItem(i), idx, results) == ItemInResult(i, idx, results)
  {
    hide FirstLast;
    hide Marked;
    hide Flatten;
    hide Measurements;
    hide EachMeasurement;
    match i
    case Plain(name) => PlainName(name, idx, |results|);
    case Nested(inverted, name, body, close) =>
      MarkedSection(inverted, name, body, close, idx, |results|);
      MeasurementsMean(body, results[idx], results[idx].size);
  }

  lemma {:induction false} ResultMeans(t: Template, idx: nat, results: seq<Result>)
    requires idx < |results|
    ensures ResultNodes(Flatten(t), idx, results) == InResult(t, idx, results)
  {
    match t
    case End(text) =>
      TextInResult(text, idx, results);
      OneResultNode(TextNode(Content, text, []), idx, results);
    case Then(text, item, rest) =>
      ResultBody(text, item, rest, idx, results);
      TextInResult(text, idx, results);
      ItemOfResult(item, idx, results);
      ResultMeans(rest, idx, results);
      hide ResultNode;
      hide ResultNodes;
      hide Flatten;
      hide ItemInResult;
  }

  lemma {:induction false} ResultsMean(body: Template, results: seq<Result>, k: nat)
    requires k <= |results|
    ensures Results(Flatten(body), results, k) == EachResult(body, results, k)
  {
    hide ResultNodes;
    hide InResult;
    hide Flatten;
    if k > 0 {
      ResultsMean(body, results, k - 1);
      ResultMeans(body, k - 1, results);
    }
  }

  // ----- outside of sections -----

  lemma {:induction false} TopNodesConcat(a: seq<TextNode>, b: seq<TextNode>, results: seq<Result>)
    ensures TopNodes(a + b, results) == Cat(TopNodes(a, results), TopNodes(b, results))
  {
    if b == [] {
      assert a + b == a;
    } else {
      assert (a + b)[..|a + b| - 1] == a + b[..|b| - 1];
      TopNodesConcat(a, b[..|b| - 1], results);
      hide TopNode;
    }
  }

  lemma {:induction false} OneTopNode(a: TextNode, results: seq<Result>)
    ensures TopNodes([a], results) == TopNode(a, results)
  {
    assert [a][..0] == [];
    assert TopNodes([], results) == Out("");
    hide TopNode;
  }

  lemma {:induction false} TopBody(text: string, item: Item, rest: Template, results: seq<Result>)
    ensures TopNodes(Flatten(Then(text, item, rest)), results) ==
            Cat(TopNode(TextNode(Content, text, []), results),
                Cat(TopNode(FlattenItem(item), results), TopNodes(Flatten(rest), results)))
  {
    hide *;
    var a, b := TextNode(Content, text, []), FlattenItem(item);
    FlattenThen(text, item, rest);
    TopNodesConcat([a, b], Flatten(rest), results);
    assert [a, b] == [a] + [b];
    TopNodesConcat([a], [b], results);
    OneTopNode(a, results);
    OneTopNode(b, results);
    CatAssociative(TopNode(a, results), TopNode(b, results), TopNodes(Flatten(rest), results));
  }

  lemma {:induction false} TopItem(i: Item, results: seq<Result>)
    ensures TopNode(FlattenItem(i), results) == ItemMeaning(i, results)
  {
    hide Flatten;
    hide Results;
    hide EachResult;
    hide Measurements;
    hide EachMeasurement;
    if i.Nested? {
      ResultsMean(i.body, results, |results|);
      if results != [] { MeasurementsMean(i.body, results[0], results[0].size); }
    }
  }

  lemma {:induction false} TopMeans(t: Template, results: seq<Result>)
    ensures TopNodes(Flatten(t), results) == Meaning(t, results)
  {
    match t
    case End(text) =>
      OneTopNode(TextNode(Content, text, []), results);
    case Then(text, item, rest) =>
      TopBody(text, item, rest, results);
      TopItem(item, results);
      TopMeans(rest, results);
      hide TopNodes;
      hide Flatten;
      hide ItemMeaning;
  }

  /** Every well-formed template, through parser and renderer, renders as what its tree means. */
  lemma {:induction false} RendersItsMeaning(t: Template, results: seq<Result>)
    requires WellFormed(t, true)
    ensures Rendering(Print(t), results) == Meaning(t, results)
  {
    RenderPrinted(t, results);
    TopMeans(t, results);
    hide *;
  }

  // ----- tags outside of sections -----

  /** Texts and tags only. */
  predicate OnlyTags(t: Template) {
    t.Then? ==> t.item.Plain? && OnlyTags(t.rest)
  }

  /** The texts with the tags' values in between, or the error at the first name without one. */
  function Filled(t: Template, value: string -> Option<string>): Rendered {
    match t
    case End(text) => Out(text)
    case Then(text, item, rest) =>
      if item.Nested? || value(item.name).None? then Thrown
      else Cat(Out(text + value(item.name).value), Filled(rest, value))
  }

  predicate AllKnown(t: Template, value: string -> Option<string>) {
    t.Then? ==> t.item.Plain? && value(t.item.name).Some? && AllKnown(t.rest, value)
  }

  lemma {:induction false} FilledIff(t: Template, value: string -> Option<string>)
    ensures if AllKnown(t, value) then Filled(t, value).Out? else Filled(t, value) == Thrown
  {
    if t.Then? { FilledIff(t.rest, value); }
  }

  lemma {:induction false} TagsMean(t: Template, results: seq<Result>)
    requires OnlyTags(t) && results != []
    ensures Meaning(t, results) == Filled(t, if |results| == 1 then results[0].tag else results[|results| - 1].config)
  {
    if t.Then? {
      TagsMean(t.rest, results);
    }
  }

  /** A template of texts and tags renders as the texts with values in between: those of a single
      result, or of the last one's config if there are several; or as the error at the first name that
      is not known there. */
  lemma {:induction false} TagsFilled(t: Template, results: seq<Result>)
    requires WellFormed(t, true) && OnlyTags(t) && results != []
    ensures Rendering(Print(t), results) ==
            Filled(t, if |results| == 1 then results[0].tag else results[|results| - 1].config)
  {
    RendersItsMeaning(t, results);
    TagsMean(t, results);
    hide *;
  }

  /** No text, tag or section of the template has one of the two names, and no section repeats results. */
  predicate Neutral(t: Template) {
    match t
    case End(text) => !IsFirstLast(text)
    case Then(text, item, rest) => !IsFirstLast(text) && !IsFirstLast(item.name) && item.name != "result" && Neutral(rest)
  }

  lemma {:induction false} SameForOne(t: Template, r: Result)
    requires Neutral(t)
    ensures Meaning(t, [r]) == InResult(t, 0, [r])
  {
    if t.Then? {
      SameForOne(t.rest, r);
      hide EachMeasurement;
    }
  }

  /** With a single result it makes no difference whether a template stands inside of {{#result}}. */
  lemma {:induction false} SectionOfOneResult(t: Template, close: string, r: Result)
    requires WellFormed(t, true) && WellFormed(OneSection("result", t, close), true) && Neutral(t)
    ensures Rendering(Print(t), [r]) == Rendering(Print(OneSection("result", t, close)), [r])
  {
    RendersItsMeaning(t, [r]);
    RendersItsMeaning(OneSection("result", t, close), [r]);
    SameForOne(t, r);
    OneResultSection(t, close, r);
    hide *;
  }

  lemma {:induction false} OneResultSection(t: Template, close: string, r: Result)
    ensures Meaning(OneSection("result", t, close), [r]) == InResult(t, 0, [r])
  {
    assert EachResult(t, [r], 0) == Out("");
    assert EachResult(t, [r], 1) == Cat(Out(""), InResult(t, 0, [r]));
    hide InResult;
  }
}
