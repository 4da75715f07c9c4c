/** nanobench's recursive mustache parser, and the printer that undoes it.  Positions in the
    template stand for the source's pointers into it. */
module Mustache {

  datatype Kind = Tag | Content | Section | Inverted

  /** Node{begin, end, children, type}: a span of the template. */
  datatype Node = Node(begin: nat, end: nat, children: seq<Node>, kind: Kind)

  predicate PairAt(s: string, i: int, c: char) {
    0 <= i && i + 1 < |s| && s[i] == c && s[i + 1] == c
  }

  /** strstr for a doubled character: its first position from p on, |s| if there is none. */
  function FindPair(s: string, p: nat, c: char): (r: nat)
    requires p <= |s|
    ensures p <= r <= |s|
    ensures r < |s| ==> PairAt(s, r, c)
    ensures forall i :: p <= i < r ==> !PairAt(s, i, c)
    decreases |s| - p
  {
    if p + 1 >= |s| then |s|
    else if s[p] == c && s[p + 1] == c then p
    else FindPair(s, p + 1, c)
  }

  /** std::string(n.begin, n.end) */
  function Span(s: string, begin: nat, end: nat): string
    requires begin <= end <= |s|
  {
    s[begin..end]
  }

  /** What one call of the parser returns: the nodes, where it left the cursor, and the position
      of the closing tag it stopped at, |s| if it ran to the end of the input. */
  datatype Parsed = Parsed(nodes: seq<Node>, pos: nat, closer: nat)

  /** The next "{{" from p on ... */
  function TagBegin(s: string, p: nat): nat
    requires p <= |s|
  {
    FindPair(s, p, '{')
  }

  /** ... and the "}}" that ends that tag; |s| if there is no complete tag. */
  function TagEnd(s: string, p: nat): nat
    requires p <= |s|
  {
    if TagBegin(s, p) == |s| then |s| else FindPair(s, TagBegin(s, p) + 2, '}')
  }

  /** The character that tells what the next tag is. */
  function TagSort(s: string, p: nat): char
    requires p <= |s| && TagEnd(s, p) < |s|
  {
    s[TagBegin(s, p) + 2]
  }

  function Parse(s: string, p: nat): (r: Parsed)
    requires p <= |s|
    ensures p <= r.pos <= |s| && p <= r.closer <= |s|
    ensures r.closer < |s| ==> r.closer + 5 <= r.pos
    decreases |s| - p
  {
    var b, e := TagBegin(s, p), TagEnd(s, p);
    if e == |s| then
      Parsed([Node(p, |s|, [], Content)], p, |s|)   // the cursor stays where it was
    else if TagSort(s, p) == '/' then
      Parsed([Node(p, b, [], Content)], e + 2, b)
    else
      var opens := TagSort(s, p) == '#' || TagSort(s, p) == '^';
      var inner := if opens then Parse(s, e + 2) else Parsed([], e + 2, |s|);
      var item := if TagSort(s, p) == '#' then Node(b + 3, e, inner.nodes, Section)
                  else if TagSort(s, p) == '^' then Node(b + 3, e, inner.nodes, Inverted)
                  else Node(b + 2, e, [], Tag);
      var rest := Parse(s, inner.pos);
      Parsed([Node(p, b, [], Content), item] + rest.nodes, rest.pos, rest.closer)
  }

  /** The caller's `char const**`. */
  class Cursor {
    var tpl: nat

    constructor ()
      ensures tpl == 0
    {
      tpl := 0;
    }
  }

  /** The nodes collected so far and what parsing on from the cursor would add. */
  ghost predicate Collected(whole: Parsed, nodes: seq<Node>, s: string, p: nat)
    requires p <= |s|
  {
    whole.nodes == nodes + Parse(s, p).nodes && whole.pos == Parse(s, p).pos
  }

  /** The parser stops where no complete tag or a closing tag is next. */
  lemma {:induction false} ParseStops(s: string, p: nat)
    requires p <= |s|
    ensures TagEnd(s, p) == |s| ==> Parse(s, p) == Parsed([Node(p, |s|, [], Content)], p, |s|)
    ensures TagEnd(s, p) < |s| && TagSort(s, p) == '/' ==>
              Parse(s, p) == Parsed([Node(p, TagBegin(s, p), [], Content)], TagEnd(s, p) + 2, TagBegin(s, p))
  {
  }

  predicate Opens(s: string, p: nat)
    requires p <= |s|
  {
    TagEnd(s, p) < |s| && (TagSort(s, p) == '#' || TagSort(s, p) == '^')
  }

  predicate IsPlainTag(s: string, p: nat)
    requires p <= |s|
  {
    TagEnd(s, p) < |s| && TagSort(s, p) !in "/#^"
  }

  /** The node of the tag after the next text, and where the parser goes on after it. */
  function ItemAt(s: string, p: nat): Node
    requires p <= |s| && (Opens(s, p) || IsPlainTag(s, p))
  {
    var b, e := TagBegin(s, p), TagEnd(s, p);
    if Opens(s, p)
    then Node(b + 3, e, Parse(s, e + 2).nodes, if TagSort(s, p) == '#' then Section else Inverted)
    else Node(b + 2, e, [], Tag)
  }

  function After(s: string, p: nat): (q: nat)
    requires p <= |s| && (Opens(s, p) || IsPlainTag(s, p))
    ensures p + 4 <= q <= |s|
  {
    if Opens(s, p) then Parse(s, TagEnd(s, p) + 2).pos else TagEnd(s, p) + 2
  }

  lemma {:induction false} ParseGoesOn(s: string, p: nat)
    requires p <= |s| && (Opens(s, p) || IsPlainTag(s, p))
    ensures var rest := Parse(s, After(s, p));
            Parse(s, p) == Parsed([Node(p, TagBegin(s, p), [], Content), ItemAt(s, p)] + rest.nodes, rest.pos, rest.closer)
  {
  }

  lemma {:induction false} CollectItem(whole: Parsed, nodes: seq<Node>, s: string, p: nat)
    requires p <= |s| && (Opens(s, p) || IsPlainTag(s, p)) && Collected(whole, nodes, s, p)
    ensures Collected(whole, nodes + [Node(p, TagBegin(s, p), [], Content)] + [ItemAt(s, p)], s, After(s, p))
  {
    ParseGoesOn(s, p);
    hide Parse;
    hide ItemAt;
    var text, item, rest := Node(p, TagBegin(s, p), [], Content), ItemAt(s, p), Parse(s, After(s, p)).nodes;
    assert nodes + ([text, item] + rest) == nodes + [text] + [item] + rest;
  }

  /** Where the parser stops, one text is left to collect. */
  lemma {:induction false} CollectLast(whole: Parsed, nodes: seq<Node>, s: string, p: nat)
    requires p <= |s| && Collected(whole, nodes, s, p)
    ensures TagEnd(s, p) == |s| ==> whole.nodes == nodes + [Node(p, |s|, [], Content)] && whole.pos == p
    ensures TagEnd(s, p) < |s| && TagSort(s, p) == '/' ==>
              whole.nodes == nodes + [Node(p, TagBegin(s, p), [], Content)] && whole.pos == TagEnd(s, p) + 2
  {
    ParseStops(s, p);
    hide Parse;
  }

  /** What the switch over the tag's first character makes of it. */
  lemma {:induction false} TagItem(s: string, p: nat)
    requires p <= |s| && (Opens(s, p) || IsPlainTag(s, p))
    ensures var b, e, c := TagBegin(s, p), TagEnd(s, p), TagSort(s, p);
            && e + 2 <= |s| && p <= b && After(s, p) == (if c == '#' || c == '^' then Parse(s, e + 2).pos else e + 2)
            && ItemAt(s, p) == (if c == '#' then Node(b + 3, e, Parse(s, e + 2).nodes, Section)
                                else if c == '^' then Node(b + 3, e, Parse(s, e + 2).nodes, Inverted)
                                else Node(b + 2, e, [], Tag))
  {
    hide Parse;
  }

  lemma {:induction false} TagSorts(s: string, p: nat)
    requires p <= |s| && TagEnd(s, p) < |s|
    ensures TagSort(s, p) != '/' <==> Opens(s, p) || IsPlainTag(s, p)
  {
  }

  method ParseMustacheTemplate(s: string, cursor: Cursor) returns (nodes: seq<Node>)
    requires cursor.tpl <= |s|
    modifies cursor
    ensures nodes == Parse(s, old(cursor.tpl)).nodes && cursor.tpl == Parse(s, old(cursor.tpl)).pos
    decreases |s| - cursor.tpl
  {
    hide Parse;
    nodes := [];
    ghost var whole := Parse(s, cursor.tpl);
    assert Collected(whole, nodes, s, cursor.tpl);
    hide Collected;
    while true
      invariant old(cursor.tpl) <= cursor.tpl <= |s| && Collected(whole, nodes, s, cursor.tpl)
      decreases |s| - cursor.tpl
    {
      ghost var p := cursor.tpl;
      var begin := FindPair(s, cursor.tpl, '{');
      var end := |s|;
      if begin != |s| {
        begin := begin + 2;
        end := FindPair(s, begin, '}');
      }
      assert end == TagEnd(s, p);
      CollectLast(whole, nodes, s, p);
      if end == |s| {
        nodes := nodes + [Node(cursor.tpl, |s|, [], Content)];
        return;
      }
      assert begin == TagBegin(s, p) + 2 && s[begin] == TagSort(s, p);
      TagSorts(s, p);
      if s[begin] != '/' {
        CollectItem(whole, nodes, s, p);
        TagItem(s, p);
      }
      hide *;
      nodes := nodes + [Node(cursor.tpl, begin - 2, [], Content)];
      cursor.tpl := end + 2;
      match s[begin] {
        case '/' =>
          return;
        case '#' =>
          var children := ParseMustacheTemplate(s, cursor);
          nodes := nodes + [Node(begin + 1, end, children, Section)];
        case '^' =>
          var children := ParseMustacheTemplate(s, cursor);
          nodes := nodes + [Node(begin + 1, end, children, Inverted)];
        case _ =>
          nodes := nodes + [Node(begin, end, [], Tag)];
      }
    }
  }
}
