/** The text view of a parsed template and the printer that undoes the parser: templates whose
    sections are all closed and well-formed trees are the same thing. */
module MustachePrinter {
  import opened Arith
  import opened Mustache

  /** Text, then alternately tags and text; `close` is the name in the closing tag. */
  datatype Template = End(text: string) | Then(text: string, item: Item, rest: Template)

  datatype Item = Plain(name: string) | Nested(inverted: bool, name: string, body: Template, close: string)

  function Print(t: Template): string {
    match t
    case End(text) => text
    case Then(text, item, rest) => text + PrintItem(item) + Print(rest)
  }

  function PrintItem(i: Item): string {
    match i
    case Plain(name) => "{{" + name + "}}"
    case Nested(inverted, name, body, close) =>
      "{{" + (if inverted then "^" else "#") + name + "}}" + Print(body) + Closer(close)
  }

  function Closer(close: string): string {
    "{{/" + close + "}}"
  }

  /** x can be followed by cc: it contains no doubled c and does not end in c. */
  ghost predicate Clean(x: string, c: char) {
    (forall i :: !PairAt(x, i, c)) && (x == "" || x[|x| - 1] != c)
  }

  /** No "{{" is followed by a "}}". */
  ghost predicate NoTag(x: string) {
    forall i, j :: PairAt(x, i, '{') && i + 2 <= j ==> !PairAt(x, j, '}')
  }

  ghost predicate WellFormed(t: Template, top: bool) {
    match t
    case End(text) => if top then NoTag(text) else Clean(text, '{')
    case Then(text, item, rest) => Clean(text, '{') && WellFormedItem(item) && WellFormed(rest, top)
  }

  ghost predicate WellFormedItem(i: Item) {
    match i
    case Plain(name) => Clean(name, '}') && (name == "" || name[0] !in "/#^")
    case Nested(_, name, body, close) => Clean(name, '}') && WellFormed(body, false) && Clean(close, '}')
  }

  // ----- the text view of a parse -----

  /** The name in the closing tag that ended the parse from q, "" if none did. */
  function CloseName(s: string, q: nat): string
    requires q <= |s|
  {
    var r := Parse(s, q);
    if r.closer < |s| then Span(s, r.closer + 3, r.pos - 2) else ""
  }

  function TreeAt(s: string, p: nat): Template
    requires p <= |s|
    decreases |s| - p, 1
  {
    if TagEnd(s, p) == |s| then End(Span(s, p, |s|))
    else if TagSort(s, p) == '/' then End(Span(s, p, TagBegin(s, p)))
    else Then(Span(s, p, TagBegin(s, p)), TreeItem(s, p), TreeAt(s, After(s, p)))
  }

  function TreeItem(s: string, p: nat): Item
    requires p <= |s| && (Opens(s, p) || IsPlainTag(s, p))
    decreases |s| - p, 0
  {
    var b, e := TagBegin(s, p), TagEnd(s, p);
    if Opens(s, p)
    then Nested(TagSort(s, p) == '^', Span(s, b + 3, e), TreeAt(s, e + 2), CloseName(s, e + 2))
    else Plain(Span(s, b + 2, e))
  }

  /** Every section opened from p on is closed. */
  predicate AllClosed(s: string, p: nat)
    requires p <= |s|
    decreases |s| - p
  {
    TagEnd(s, p) == |s| || TagSort(s, p) == '/' ||
    (AllClosed(s, After(s, p)) &&
     (Opens(s, p) ==> Parse(s, TagEnd(s, p) + 2).closer < |s| && AllClosed(s, TagEnd(s, p) + 2)))
  }

  ghost predicate IsSpan(s: string, n: Node, text: string) {
    n.begin <= n.end <= |s| && Span(s, n.begin, n.end) == text
  }

  /** The nodes are the tree: every span lies in the template and shows the tree's text, texts and
      tags alternate, kinds and children agree. */
  ghost predicate Shows(s: string, nodes: seq<Node>, t: Template)
    decreases t
  {
    match t
    case End(text) => |nodes| == 1 && IsSpan(s, nodes[0], text) && nodes[0].kind == Content && nodes[0].children == []
    case Then(text, item, rest) =>
      && |nodes| >= 3 && IsSpan(s, nodes[0], text) && nodes[0].kind == Content && nodes[0].children == []
      && ShowsItem(s, nodes[1], item) && Shows(s, nodes[2..], rest)
  }

  ghost predicate ShowsItem(s: string, n: Node, i: Item)
    decreases i
  {
    match i
    case Plain(name) => n.kind == Tag && IsSpan(s, n, name) && n.children == []
    case Nested(inverted, name, body, _) =>
      n.kind == (if inverted then Inverted else Section) && IsSpan(s, n, name) && Shows(s, n.children, body)
  }

  /** On every string whatever, the parser's nodes are the text view. */
  lemma {:induction false} ParseShowsTree(s: string, p: nat)
    requires p <= |s|
    ensures Shows(s, Parse(s, p).nodes, TreeAt(s, p))
    decreases |s| - p, 1
  {
    ParseStops(s, p);
    if Opens(s, p) || IsPlainTag(s, p) {
      ParseGoesOn(s, p);
      ItemShowsTree(s, p);
      var q := After(s, p);
      ParseShowsTree(s, q);
      hide Parse;
      hide Span;
      hide TreeItem;
      hide After;
      assert Parse(s, p).nodes[2..] == Parse(s, q).nodes;
      assert Parse(s, q).nodes != [];
    }
  }

  lemma {:induction false} ItemShowsTree(s: string, p: nat)
    requires p <= |s| && (Opens(s, p) || IsPlainTag(s, p))
    ensures ShowsItem(s, ItemAt(s, p), TreeItem(s, p))
    decreases |s| - p, 0
  {
    if Opens(s, p) {
      ParseShowsTree(s, TagEnd(s, p) + 2);
    }
  }

  /** Nodes alternate between content and something else, in odd number. */
  lemma {:induction false} NodesAlternate(s: string, nodes: seq<Node>, t: Template)
    requires Shows(s, nodes, t)
    ensures |nodes| % 2 == 1
    ensures forall i :: 0 <= i < |nodes| ==> (nodes[i].kind == Content <==> i % 2 == 0)
    ensures forall i :: 0 <= i < |nodes| ==> nodes[i].begin <= nodes[i].end <= |s|
    decreases t
  {
    if t.Then? {
      NodesAlternate(s, nodes[2..], t.rest);
      forall i | 2 <= i < |nodes| ensures nodes[i] == nodes[2..][i - 2] { }
    }
  }

  // ----- printing the tree of a template gives the template back -----

  lemma {:induction false} SplitSpan(s: string, a: nat, b: nat, c: nat)
    requires a <= b <= c <= |s|
    ensures Span(s, a, c) == Span(s, a, b) + Span(s, b, c)
  {
  }

  /** "{{" + a mark + a name + "}}" read off the template. */
  lemma {:induction false} MarkedTag(s: string, b: nat, e: nat)
    requires b + 3 <= e && PairAt(s, b, '{') && PairAt(s, e, '}')
    ensures Span(s, b, e + 2) == "{{" + [s[b + 2]] + Span(s, b + 3, e) + "}}"
  {
  }

  lemma {:induction false} PlainTag(s: string, b: nat, e: nat)
    requires b + 2 <= e && PairAt(s, b, '{') && PairAt(s, e, '}')
    ensures Span(s, b, e + 2) == "{{" + Span(s, b + 2, e) + "}}"
  {
  }

  lemma {:induction false} ClosingTag(s: string, q: nat)
    requires q <= |s| && Parse(s, q).closer < |s|
    ensures var r := Parse(s, q); Span(s, r.closer, r.pos) == Closer(CloseName(s, q))
    decreases |s| - q
  {
    hide Parse;
    hide Span;
    hide After;
    ParseStops(s, q);
    if Opens(s, q) || IsPlainTag(s, q) {
      ParseGoesOn(s, q);
      ClosingTag(s, After(s, q));
    } else {
      MarkedTag(s, TagBegin(s, q), TagEnd(s, q));
    }
  }

  lemma {:induction false} PrintNested(s: string, b: nat, e: nat, i: Item, closer: nat, q: nat)
    requires b + 3 <= e && PairAt(s, b, '{') && PairAt(s, e, '}') && e + 2 <= closer <= q <= |s|
    requires i.Nested? && s[b + 2] == (if i.inverted then '^' else '#') && i.name == Span(s, b + 3, e)
    requires Print(i.body) == Span(s, e + 2, closer) && Closer(i.close) == Span(s, closer, q)
    ensures Span(s, b, q) == PrintItem(i)
  {
    MarkedTag(s, b, e);
    SplitSpan(s, b, e + 2, q);
    SplitSpan(s, e + 2, closer, q);
    hide Span;
    hide Print;
    hide Closer;
    var open, body, close := Span(s, b, e + 2), Span(s, e + 2, closer), Span(s, closer, q);
    assert open == "{{" + (if i.inverted then "^" else "#") + i.name + "}}";
    assert open + (body + close) == open + body + close;
  }

  lemma {:induction false} PrintItemOfTree(s: string, p: nat)
    requires p <= |s| && AllClosed(s, p) && (Opens(s, p) || IsPlainTag(s, p))
    ensures Span(s, TagBegin(s, p), After(s, p)) == PrintItem(TreeItem(s, p))
    decreases |s| - p, 0
  {
    hide Parse;
    hide Span;
    var b, e := TagBegin(s, p), TagEnd(s, p);
    if Opens(s, p) {
      var r := Parse(s, e + 2);
      PrintOfTree(s, e + 2);
      ClosingTag(s, e + 2);
      hide TreeAt;
      hide CloseName;
      hide Print;
      PrintNested(s, b, e, TreeItem(s, p), r.closer, r.pos);
    } else {
      PlainTag(s, b, e);
    }
  }

  lemma {:induction false} PrintOfTree(s: string, p: nat)
    requires p <= |s| && AllClosed(s, p)
    ensures Span(s, p, Parse(s, p).closer) == Print(TreeAt(s, p))
    decreases |s| - p, 1
  {
    hide *;
    if Opens(s, p) || IsPlainTag(s, p) {
      ThenPrints(s, p);
      ClosedAfter(s, p);
      PrintItemOfTree(s, p);
      PrintOfTree(s, After(s, p));
      SplitSpan(s, p, TagBegin(s, p), Parse(s, p).closer);
      SplitSpan(s, TagBegin(s, p), After(s, p), Parse(s, p).closer);
    } else {
      PrintOfLast(s, p);
    }
  }

  lemma {:induction false} PrintOfLast(s: string, p: nat)
    requires p <= |s| && !Opens(s, p) && !IsPlainTag(s, p)
    ensures Span(s, p, Parse(s, p).closer) == Print(TreeAt(s, p))
  {
    ParseStops(s, p);
    hide Parse;
    hide Span;
  }

  lemma {:induction false} ThenPrints(s: string, p: nat)
    requires p <= |s| && (Opens(s, p) || IsPlainTag(s, p))
    ensures Print(TreeAt(s, p)) ==
            Span(s, p, TagBegin(s, p)) + PrintItem(TreeItem(s, p)) + Print(TreeAt(s, After(s, p)))
  {
    hide Span;
    hide TreeItem;
    hide PrintItem;
    hide After;
  }

  lemma {:induction false} ClosedAfter(s: string, p: nat)
    requires p <= |s| && AllClosed(s, p) && (Opens(s, p) || IsPlainTag(s, p))
    ensures AllClosed(s, After(s, p)) && Parse(s, p).closer == Parse(s, After(s, p)).closer
    ensures p <= TagBegin(s, p) <= After(s, p) <= Parse(s, p).closer
  {
    ParseGoesOn(s, p);
    hide Parse;
    hide ItemAt;
  }

  lemma {:induction false} SliceClean(s: string, p: nat, b: nat, c: char)
    requires p <= b <= |s| && PairAt(s, b, c) && forall i :: p <= i < b ==> !PairAt(s, i, c)
    ensures Clean(Span(s, p, b), c)
  {
    forall i ensures !PairAt(s[p..b], i, c) {
      if 0 <= i && i + 1 < b - p { assert !PairAt(s, p + i, c); }
    }
    if p < b { assert !PairAt(s, b - 1, c); }
  }

  lemma {:induction false} PairInSpan(s: string, p: nat, i: nat, c: char)
    requires p <= |s| && PairAt(Span(s, p, |s|), i, c)
    ensures PairAt(s, p + i, c)
  {
  }

  lemma {:induction false} TailHasNoTag(s: string, p: nat)
    requires p <= |s| && TagEnd(s, p) == |s|
    ensures NoTag(Span(s, p, |s|))
  {
    var x := Span(s, p, |s|);
    forall i, j | PairAt(x, i, '{') && i + 2 <= j ensures !PairAt(x, j, '}') {
      PairInSpan(s, p, i, '{');
      if PairAt(x, j, '}') {
        PairInSpan(s, p, j, '}');
      }
    }
  }

  lemma {:induction false} TreeItemIsWellFormed(s: string, p: nat)
    requires p <= |s| && AllClosed(s, p) && (Opens(s, p) || IsPlainTag(s, p))
    ensures WellFormedItem(TreeItem(s, p))
    decreases |s| - p, 0
  {
    hide *;
    TagShape(s, p);
    if Opens(s, p) {
      ClosedInside(s, p);
      NameIsClean(s, p, 3);
      TreeIsWellFormed(s, TagEnd(s, p) + 2);
      NestedIsWellFormed(s, p);
    } else {
      NameIsClean(s, p, 2);
      PlainIsWellFormed(s, p);
    }
  }

  lemma {:induction false} TagShape(s: string, p: nat)
    requires p <= |s| && (Opens(s, p) || IsPlainTag(s, p))
    ensures TagEnd(s, p) + 2 <= |s| && p <= TagBegin(s, p) && TagBegin(s, p) + (if Opens(s, p) then 3 else 2) <= TagEnd(s, p)
  {
    hide Parse;
  }

  lemma {:induction false} NameIsClean(s: string, p: nat, k: nat)
    requires p <= |s| && TagEnd(s, p) < |s| && 2 <= k && TagBegin(s, p) + k <= TagEnd(s, p)
    ensures Clean(Span(s, TagBegin(s, p) + k, TagEnd(s, p)), '}')
  {
    SliceClean(s, TagBegin(s, p) + k, TagEnd(s, p), '}');
  }

  lemma {:induction false} PlainIsWellFormed(s: string, p: nat)
    requires p <= |s| && IsPlainTag(s, p) && Clean(Span(s, TagBegin(s, p) + 2, TagEnd(s, p)), '}')
    ensures WellFormedItem(TreeItem(s, p))
  {
    hide Clean;
    hide TreeAt;
    hide Parse;
  }

  lemma {:induction false} ClosedInside(s: string, p: nat)
    requires p <= |s| && AllClosed(s, p) && Opens(s, p)
    ensures AllClosed(s, TagEnd(s, p) + 2) && Parse(s, TagEnd(s, p) + 2).closer < |s|
  {
    hide Parse;
  }

  lemma {:induction false} NestedIsWellFormed(s: string, p: nat)
    requires p <= |s| && Opens(s, p)
    requires Clean(Span(s, TagBegin(s, p) + 3, TagEnd(s, p)), '}') && WellFormed(TreeAt(s, TagEnd(s, p) + 2), false)
    requires Clean(CloseName(s, TagEnd(s, p) + 2), '}')
    ensures WellFormedItem(TreeItem(s, p))
  {
    hide Clean;
    hide Span;
    hide TreeAt;
    hide CloseName;
    hide WellFormed;
    hide Parse;
  }

  lemma {:induction false} TreeIsWellFormed(s: string, p: nat)
    requires p <= |s| && AllClosed(s, p)
    ensures WellFormed(TreeAt(s, p), Parse(s, p).closer == |s|)
    ensures Parse(s, p).closer < |s| ==> Clean(CloseName(s, p), '}')
    decreases |s| - p, 1
  {
    hide Parse;
    hide Span;
    ParseStops(s, p);
    var b, e := TagBegin(s, p), TagEnd(s, p);
    if e == |s| {
      TailHasNoTag(s, p);
    } else {
      SliceClean(s, p, b, '{');
      if Opens(s, p) || IsPlainTag(s, p) {
        ParseGoesOn(s, p);
        TreeItemIsWellFormed(s, p);
        TreeIsWellFormed(s, After(s, p));
      } else {
        SliceClean(s, b + 3, e, '}');
      }
    }
  }

  // ----- parsing a printed tree gives the tree back -----

  lemma {:induction false} PieceSplit(s: string, x: string, y: string, p: nat)
    requires IsPiece(s, x + y, p)
    ensures IsPiece(s, x, p) && IsPiece(s, y, p + |x|)
  {
    forall j | 0 <= j < |x| ensures x[j] == s[p + j] { assert (x + y)[j] == s[p + j]; }
    forall j | 0 <= j < |y| ensures y[j] == s[p + |x| + j] { assert (x + y)[|x| + j] == s[p + (|x| + j)]; }
  }

  lemma {:induction false} PieceIsSpan(s: string, x: string, p: nat)
    requires IsPiece(s, x, p)
    ensures Span(s, p, p + |x|) == x
  {
  }

  /** Searching from the start of a clean piece finds the pair right behind it. */
  lemma {:induction false} FindBehindClean(s: string, x: string, c: char, p: nat)
    requires IsPiece(s, x, p) && Clean(x, c) && PairAt(s, p + |x|, c)
    ensures FindPair(s, p, c) == p + |x|
  {
    forall i | p <= i < p + |x| ensures !PairAt(s, i, c) {
      assert x[i - p] == s[p + (i - p)];
      if i + 1 < p + |x| {
        assert x[i - p + 1] == s[p + (i - p + 1)];
        assert !PairAt(x, i - p, c);
      }
    }
  }

  /** A tag "{{" + mark + name + "}}" behind a clean text is found, and found whole. */
  lemma {:induction false} FindTag(s: string, text: string, inner: string, p: nat)
    requires Clean(text, '{') && Clean(inner, '}')
    requires IsPiece(s, text, p) && IsPiece(s, "{{" + inner + "}}", p + |text|)
    ensures var b := p + |text|; var e := b + 2 + |inner|;
            && TagBegin(s, p) == b && TagEnd(s, p) == e && e + 2 <= |s|
            && IsPiece(s, inner, b + 2) && TagSort(s, p) == (inner + "}")[0]
  {
    var b := p + |text|;
    PieceSplit(s, "{{" + inner, "}}", b);
    PieceSplit(s, "{{", inner, b);
    assert "{{"[0] == s[b + 0] && "{{"[1] == s[b + 1];
    var e := b + 2 + |inner|;
    assert "}}"[0] == s[e + 0] && "}}"[1] == s[e + 1];
    FindBehindClean(s, text, '{', p);
    FindBehindClean(s, inner, '}', b + 2);
    if inner != "" { assert inner[0] == s[b + 2 + 0]; }
  }

  lemma {:induction false} EndsWithoutTag(s: string, p: nat)
    requires p <= |s| && NoTag(Span(s, p, |s|))
    ensures TagEnd(s, p) == |s|
  {
    var x, b, e := Span(s, p, |s|), TagBegin(s, p), TagEnd(s, p);
    if e < |s| {
      assert PairAt(x, b - p, '{') && PairAt(x, e - p, '}');
    }
  }

  lemma {:induction false} CleanMarked(name: string, mark: char)
    requires Clean(name, '}') && mark != '}'
    ensures Clean([mark] + name, '}')
  {
    var x := [mark] + name;
    forall i ensures !PairAt(x, i, '}') {
      if PairAt(x, i, '}') { assert PairAt(name, i - 1, '}'); }
    }
  }

  /** What stands behind a printed tree: nothing at the top, the closing tag inside a section. */
  ghost predicate Followed(s: string, p: nat, top: bool, close: string) {
    if top then p == |s| else Clean(close, '}') && IsPiece(s, Closer(close), p)
  }

  ghost predicate ParsesTo(s: string, p: nat, t: Template, top: bool, close: string) {
    && p <= |s| && TreeAt(s, p) == t && AllClosed(s, p)
    && Parse(s, p).closer == p + |Print(t)|
    && (!top ==> Parse(s, p).pos == p + |Print(t)| + |Closer(close)| && CloseName(s, p) == close)
  }

  lemma {:induction false} ParseOfEnd(text: string, top: bool, close: string, s: string, p: nat)
    requires WellFormed(End(text), top) && IsPiece(s, text, p) && Followed(s, p + |text|, top, close)
    ensures ParsesTo(s, p, End(text), top, close)
  {
    PieceIsSpan(s, text, p);
    if top {
      EndsWithoutTag(s, p);
    } else {
      CleanMarked(close, '/');
      assert Closer(close) == "{{" + (['/'] + close) + "}}";
      FindTag(s, text, ['/'] + close, p);
      PieceSplit(s, "/", close, p + |text| + 2);
      PieceIsSpan(s, close, p + |text| + 3);
    }
    ParseStops(s, p);
  }

  /** Reading of the tag at p agrees with the item i. */
  ghost predicate ItemParses(s: string, p: nat, i: Item, q: nat) {
    && p <= |s| && (Opens(s, p) || IsPlainTag(s, p)) && TreeItem(s, p) == i && After(s, p) == q
    && (Opens(s, p) ==> Parse(s, TagEnd(s, p) + 2).closer < |s| && AllClosed(s, TagEnd(s, p) + 2))
  }

  lemma {:induction false} ParseOfPlain(text: string, name: string, s: string, p: nat)
    requires Clean(text, '{') && WellFormedItem(Plain(name))
    requires IsPiece(s, text, p) && IsPiece(s, PrintItem(Plain(name)), p + |text|)
    ensures ItemParses(s, p, Plain(name), p + |text| + |PrintItem(Plain(name))|) && TagBegin(s, p) == p + |text|
  {
    FindTag(s, text, name, p);
    PieceIsSpan(s, name, p + |text| + 2);
  }

  /** The three parts of a printed section. */
  lemma {:induction false} PrintedNested(i: Item, s: string, b: nat)
    requires i.Nested? && IsPiece(s, PrintItem(i), b)
    ensures var open := "{{" + ([if i.inverted then '^' else '#'] + i.name) + "}}"; var q := b + 5 + |i.name|;
            && IsPiece(s, open, b) && IsPiece(s, Print(i.body), q) && IsPiece(s, Closer(i.close), q + |Print(i.body)|)
            && |PrintItem(i)| == 5 + |i.name| + |Print(i.body)| + |Closer(i.close)|
  {
    var open, body, close := "{{" + ([if i.inverted then '^' else '#'] + i.name) + "}}", Print(i.body), Closer(i.close);
    hide Print;
    hide Closer;
    assert PrintItem(i) == open + (body + close);
    PieceSplit(s, open, body + close, b);
    PieceSplit(s, body, close, b + |open|);
  }

  lemma {:induction false} ParseOfOpening(text: string, inverted: bool, name: string, s: string, p: nat)
    requires Clean(text, '{') && Clean(name, '}') && IsPiece(s, text, p)
    requires IsPiece(s, "{{" + ([if inverted then '^' else '#'] + name) + "}}", p + |text|)
    ensures var b := p + |text|; var e := b + 3 + |name|;
            && Opens(s, p) && TagBegin(s, p) == b && TagEnd(s, p) == e
            && (TagSort(s, p) == '^' <==> inverted) && Span(s, b + 3, e) == name
  {
    var b, mark := p + |text|, if inverted then '^' else '#';
    CleanMarked(name, mark);
    FindTag(s, text, [mark] + name, p);
    PieceSplit(s, [mark], name, b + 2);
    PieceIsSpan(s, name, b + 3);
  }

  lemma {:induction false} ParseOfNested(i: Item, s: string, p: nat, b: nat, e: nat)
    requires i.Nested? && p <= b && e == b + 3 + |i.name| && e + 2 <= |s| && Opens(s, p)
    requires TagBegin(s, p) == b && TagEnd(s, p) == e && (TagSort(s, p) == '^' <==> i.inverted)
    requires Span(s, b + 3, e) == i.name && ParsesTo(s, e + 2, i.body, false, i.close)
    requires |PrintItem(i)| == 5 + |i.name| + |Print(i.body)| + |Closer(i.close)|
    ensures ItemParses(s, p, i, b + |PrintItem(i)|)
  {
    hide Parse;
    hide Span;
    hide PrintItem;
    hide Print;
    hide TreeAt;
    hide CloseName;
  }

  lemma {:induction false} ParseOfItem(text: string, i: Item, s: string, p: nat)
    requires Clean(text, '{') && WellFormedItem(i)
    requires IsPiece(s, text, p) && IsPiece(s, PrintItem(i), p + |text|)
    ensures ItemParses(s, p, i, p + |text| + |PrintItem(i)|) && TagBegin(s, p) == p + |text|
    decreases i, 1
  {
    if i.Plain? {
      ParseOfPlain(text, i.name, s, p);
    } else {
      ParseOfNestedItem(text, i, s, p);
    }
  }

  lemma {:induction false} ParseOfNestedItem(text: string, i: Item, s: string, p: nat)
    requires i.Nested? && Clean(text, '{') && WellFormedItem(i)
    requires IsPiece(s, text, p) && IsPiece(s, PrintItem(i), p + |text|)
    ensures ItemParses(s, p, i, p + |text| + |PrintItem(i)|) && TagBegin(s, p) == p + |text|
    decreases i, 0
  {
    hide Parse;
    hide PrintItem;
    hide Span;
    hide ItemParses;
    hide ParsesTo;
    var b := p + |text|;
    PrintedNested(i, s, b);
    hide Print;
    hide Closer;
    ParseOfOpening(text, i.inverted, i.name, s, p);
    ParseOfPrint(i.body, false, i.close, s, b + 5 + |i.name|);
    ParseOfNested(i, s, p, b, b + 3 + |i.name|);
  }

  lemma {:induction false} TreeOfThen(t: Template, s: string, p: nat, q: nat)
    requires t.Then? && IsPiece(s, t.text, p) && ItemParses(s, p, t.item, q) && TagBegin(s, p) == p + |t.text|
    requires q <= |s| && TreeAt(s, q) == t.rest && AllClosed(s, q)
    ensures TreeAt(s, p) == t && AllClosed(s, p)
  {
    PieceIsSpan(s, t.text, p);
    hide IsPiece;
    hide Parse;
    hide Span;
    hide TreeItem;
    hide After;
  }

  lemma {:induction false} ParseOfThen(t: Template, top: bool, close: string, s: string, p: nat, q: nat)
    requires t.Then? && IsPiece(s, t.text, p) && ItemParses(s, p, t.item, q) && TagBegin(s, p) == p + |t.text|
    requires q == p + |t.text| + |PrintItem(t.item)| && ParsesTo(s, q, t.rest, top, close)
    ensures ParsesTo(s, p, t, top, close)
  {
    TreeOfThen(t, s, p, q);
    CursorPasses(s, p, q);
    assert |Print(t)| == |t.text| + |PrintItem(t.item)| + |Print(t.rest)|;
    hide Parse;
    hide TreeAt;
    hide AllClosed;
    hide CloseName;
    hide Print;
    hide PrintItem;
    hide Closer;
    hide ItemParses;
  }

  lemma {:induction false} CursorPasses(s: string, p: nat, q: nat)
    requires p <= |s| && q <= |s| && (Opens(s, p) || IsPlainTag(s, p)) && After(s, p) == q
    ensures Parse(s, p).closer == Parse(s, q).closer && Parse(s, p).pos == Parse(s, q).pos
    ensures CloseName(s, p) == CloseName(s, q)
  {
    ParseGoesOn(s, p);
    hide Parse;
    hide After;
    hide ItemAt;
    hide TagEnd;
    SameClose(s, p, q);
    hide CloseName;
  }

  lemma {:induction false} SameClose(s: string, p: nat, q: nat)
    requires p <= |s| && q <= |s|
    requires Parse(s, p).closer == Parse(s, q).closer && Parse(s, p).pos == Parse(s, q).pos
    ensures CloseName(s, p) == CloseName(s, q)
  {
    hide Parse;
  }

  lemma {:induction false} PrintedThen(t: Template, s: string, p: nat)
    requires t.Then? && IsPiece(s, Print(t), p)
    ensures var q := p + |t.text| + |PrintItem(t.item)|;
            && IsPiece(s, t.text, p) && IsPiece(s, PrintItem(t.item), p + |t.text|) && IsPiece(s, Print(t.rest), q)
            && p + |Print(t)| == q + |Print(t.rest)|
  {
    var item, rest := PrintItem(t.item), Print(t.rest);
    assert Print(t) == t.text + (item + rest);
    PieceSplit(s, t.text, item + rest, p);
    PieceSplit(s, item, rest, p + |t.text|);
  }

  lemma {:induction false} ParseOfPrint(t: Template, top: bool, close: string, s: string, p: nat)
    requires WellFormed(t, top) && IsPiece(s, Print(t), p) && Followed(s, p + |Print(t)|, top, close)
    ensures ParsesTo(s, p, t, top, close)
    decreases t, 2
  {
    hide ParsesTo;
    hide ItemParses;
    hide PrintItem;
    hide Parse;
    if t.End? {
      ParseOfEnd(t.text, top, close, s, p);
    } else {
      var q := p + |t.text| + |PrintItem(t.item)|;
      PrintedThen(t, s, p);
      hide Print;
      ParseOfItem(t.text, t.item, s, p);
      ParseOfPrint(t.rest, top, close, s, q);
      ParseOfThen(t, top, close, s, p, q);
    }
  }

  // ----- the two directions together, for whole templates -----

  /** A template whose sections are all closed and which has no stray closing tag. */
  predicate Balanced(s: string) {
    AllClosed(s, 0) && Parse(s, 0).closer == |s|
  }

  /** Parsing what was printed returns the tree: in text and, node by node, in the spans. */
  lemma {:induction false} PrintThenParse(t: Template)
    requires WellFormed(t, true)
    ensures var s := Print(t); Balanced(s) && TreeAt(s, 0) == t && Shows(s, Parse(s, 0).nodes, t)
  {
    ParseOfPrint(t, true, "", Print(t), 0);
    ParseShowsTree(Print(t), 0);
  }

  /** Every balanced template is the print of exactly one well-formed tree, the one it parses to. */
  lemma {:induction false} ParseThenPrint(s: string)
    requires Balanced(s)
    ensures WellFormed(TreeAt(s, 0), true) && Print(TreeAt(s, 0)) == s
    ensures forall t :: WellFormed(t, true) && Print(t) == s ==> t == TreeAt(s, 0)
  {
    TreeIsWellFormed(s, 0);
    PrintOfTree(s, 0);
    assert Span(s, 0, |s|) == s;
    forall t | WellFormed(t, true) && Print(t) == s ensures t == TreeAt(s, 0) {
      PrintThenParse(t);
    }
  }

  // ----- sections that are not closed -----

  /** The section opened by the next tag runs to the end of the template. */
  predicate UnclosedAt(s: string, p: nat)
    requires p <= |s|
  {
    Opens(s, p) && Parse(s, TagEnd(s, p) + 2).closer == |s|
  }

  /** A list of nodes that reached the end of the template ends with the text there. */
  ghost predicate EndsInText(s: string, r: Parsed) {
    && r.nodes != []
    && (r.closer == |s| ==>
          r.pos <= |s| && TagEnd(s, r.pos) == |s| && r.nodes[|r.nodes| - 1] == Node(r.pos, |s|, [], Content))
  }

  lemma {:induction false} LastNode(s: string, p: nat)
    requires p <= |s|
    ensures EndsInText(s, Parse(s, p))
    decreases |s| - p
  {
    if Opens(s, p) || IsPlainTag(s, p) {
      ParseGoesOn(s, p);
      hide Parse;
      hide TagEnd;
      hide ItemAt;
      LastNode(s, After(s, p));
    } else {
      ParseStops(s, p);
      hide Parse;
    }
  }

  /** An unclosed section leaves the cursor where it ends with a text. */
  lemma {:induction false} UnclosedTail(s: string, p: nat)
    requires p <= |s| && UnclosedAt(s, p)
    ensures var q := After(s, p); var inner := Parse(s, TagEnd(s, p) + 2);
            && q == inner.pos && TagEnd(s, q) == |s| && inner.nodes != []
            && inner.nodes[|inner.nodes| - 1] == Node(q, |s|, [], Content)
  {
    hide *;
    AfterSection(s, p);
    LastNode(s, TagEnd(s, p) + 2);
    TextAtEnd(s, Parse(s, TagEnd(s, p) + 2));
  }

  lemma {:induction false} TextAtEnd(s: string, r: Parsed)
    requires EndsInText(s, r) && r.closer == |s|
    ensures r.nodes != [] && r.pos <= |s| && TagEnd(s, r.pos) == |s|
    ensures r.nodes[|r.nodes| - 1] == Node(r.pos, |s|, [], Content)
  {
  }

  /** Behind it only that text is left. */
  lemma {:induction false} BehindUnclosed(s: string, p: nat)
    requires p <= |s| && UnclosedAt(s, p)
    ensures Parse(s, After(s, p)) == Parsed([Node(After(s, p), |s|, [], Content)], After(s, p), |s|)
  {
    UnclosedTail(s, p);
    hide *;
    ParseStops(s, After(s, p));
  }

  lemma {:induction false} AfterSection(s: string, p: nat)
    requires p <= |s| && UnclosedAt(s, p)
    ensures TagEnd(s, p) + 2 <= |s|
    ensures Parse(s, TagEnd(s, p) + 2).closer == |s| && After(s, p) == Parse(s, TagEnd(s, p) + 2).pos
  {
    hide Parse;
  }

  /** A section that is not closed leaves the cursor at the text it ends with: the same text ends the
      section and stands again behind it, whatever tags are in the section. */
  lemma {:induction false} UnclosedSectionRepeatsText(s: string, p: nat)
    requires p <= |s| && UnclosedAt(s, p)
    ensures var inner := Parse(s, TagEnd(s, p) + 2); var nodes := Parse(s, p).nodes;
            var tail := Node(inner.pos, |s|, [], Content);
            && |nodes| == 3 && nodes[1].children == inner.nodes && nodes[2] == tail
            && inner.nodes != [] && inner.nodes[|inner.nodes| - 1] == tail
  {
    ParseGoesOn(s, p);
    UnclosedTail(s, p);
    BehindUnclosed(s, p);
    assert ItemAt(s, p).children == Parse(s, TagEnd(s, p) + 2).nodes;
    hide *;
  }

  lemma {:induction false} ClosedIff(s: string, p: nat)
    requires p <= |s|
    ensures AllClosed(s, p) <==> (Opens(s, p) || IsPlainTag(s, p) ==>
              AllClosed(s, After(s, p)) && (Opens(s, p) ==> !UnclosedAt(s, p) && AllClosed(s, TagEnd(s, p) + 2)))
  {
    hide Parse;
    hide After;
  }

  lemma {:induction false} UnclosedEnds(s: string, p: nat)
    requires p <= |s| && UnclosedAt(s, p)
    ensures AllClosed(s, After(s, p)) && Parse(s, After(s, p)).closer == |s|
  {
    UnclosedTail(s, p);
    BehindUnclosed(s, p);
    hide *;
    ClosedIff(s, After(s, p));
    NoTagLeft(s, After(s, p));
  }

  lemma {:induction false} NoTagLeft(s: string, q: nat)
    requires q <= |s| && TagEnd(s, q) == |s|
    ensures !Opens(s, q) && !IsPlainTag(s, q)
  {
  }

  /** The parser, started at p, comes to read the text and tag at q. */
  ghost predicate Reaches(s: string, p: nat, q: nat)
    requires p <= |s|
    decreases |s| - p
  {
    q == p ||
    ((Opens(s, p) || IsPlainTag(s, p)) &&
     (Reaches(s, After(s, p), q) || (Opens(s, p) && Reaches(s, TagEnd(s, p) + 2, q))))
  }

  lemma {:induction false} ReachesItself(s: string, p: nat)
    requires p <= |s|
    ensures Reaches(s, p, p)
  {
  }

  lemma {:induction false} ReachesFurther(s: string, p: nat, q: nat)
    requires p <= |s| && (Opens(s, p) || IsPlainTag(s, p)) && Reaches(s, After(s, p), q)
    ensures Reaches(s, p, q)
  {
  }

  lemma {:induction false} UnclosedIff(s: string, p: nat)
    requires p <= |s|
    ensures UnclosedAt(s, p) <==> Opens(s, p) && Parse(s, TagEnd(s, p) + 2).closer == |s|
  {
    hide Parse;
  }

  /** A template some section of which is not closed reaches its end, and the parser comes to such a
      section. */
  lemma {:induction false} NotClosed(s: string, p: nat) returns (q: nat)
    requires p <= |s| && !AllClosed(s, p)
    ensures Parse(s, p).closer == |s| && q <= |s| && UnclosedAt(s, q) && Reaches(s, p, q)
    decreases |s| - p
  {
    hide *;
    ClosedIff(s, p);
    CursorPasses(s, p, After(s, p));
    UnclosedIff(s, p);
    if !AllClosed(s, After(s, p)) {
      q := NotClosed(s, After(s, p));
      ReachesFurther(s, p, q);
    } else if UnclosedAt(s, p) {
      q := p;
      ReachesItself(s, p);
      UnclosedEnds(s, p);
    } else {
      TagShape(s, p);
      q := NotClosed(s, TagEnd(s, p) + 2);
      assert false;
    }
  }

  lemma {:induction false} PrintReaches(s: string, p: nat)
    requires p <= |s| && AllClosed(s, p)
    ensures |Print(TreeAt(s, p))| == Parse(s, p).closer - p
  {
    PrintOfTree(s, p);
    hide Print;
    hide TreeAt;
    hide AllClosed;
    hide Parse;
  }

  lemma {:induction false} ThenLength(s: string, p: nat)
    requires p <= |s| && (Opens(s, p) || IsPlainTag(s, p))
    ensures |Print(TreeAt(s, p))| == TagBegin(s, p) - p + |PrintItem(TreeItem(s, p))| + |Print(TreeAt(s, After(s, p)))|
  {
    hide PrintItem;
    hide TreeItem;
    hide After;
  }

  lemma {:induction false} PlainLength(s: string, p: nat)
    requires p <= |s| && IsPlainTag(s, p)
    ensures |PrintItem(TreeItem(s, p))| == After(s, p) - TagBegin(s, p)
  {
    PlainTag(s, TagBegin(s, p), TagEnd(s, p));
  }

  lemma {:induction false} NestedLength(s: string, p: nat)
    requires p <= |s| && Opens(s, p)
    ensures |PrintItem(TreeItem(s, p))| ==
            TagEnd(s, p) + 2 - TagBegin(s, p) + |Print(TreeAt(s, TagEnd(s, p) + 2))| + 5 + |CloseName(s, TagEnd(s, p) + 2)|
  {
    var b, e := TagBegin(s, p), TagEnd(s, p);
    var t := TreeItem(s, p);
    assert |t.name| == e - (b + 3);
    hide TreeAt;
    hide CloseName;
  }

  lemma {:induction false} ClosedLength(s: string, q: nat)
    requires q <= |s| && AllClosed(s, q) && Parse(s, q).closer < |s|
    ensures |Print(TreeAt(s, q))| + 5 + |CloseName(s, q)| == Parse(s, q).pos - q
  {
    PrintReaches(s, q);
    hide Parse;
    hide Print;
    hide TreeAt;
    hide AllClosed;
  }

  /** A body takes at least the text up to what closed it. */
  lemma {:induction false} BodyLength(s: string, q: nat)
    requires q <= |s| && Parse(s, q).closer == |s| && (!AllClosed(s, q) ==> |Print(TreeAt(s, q))| > |s| - q)
    ensures |Print(TreeAt(s, q))| >= |s| - q
  {
    if AllClosed(s, q) { PrintReaches(s, q); }
  }

  /** Printing what was parsed takes more room than the text if a section was not closed: its last
      text twice, and a closing tag that was not there. */
  lemma {:induction false} PrintOfUnclosed(s: string, p: nat)
    requires p <= |s| && !AllClosed(s, p)
    ensures |Print(TreeAt(s, p))| > |s| - p
    decreases |s| - p, 1
  {
    ClosedIff(s, p);
    ThenLength(s, p);
    if Opens(s, p) {
      UnclosedInside(s, p);
    } else {
      PlainLength(s, p);
      hide *;
      PrintOfUnclosed(s, After(s, p));
    }
  }

  lemma {:induction false} UnclosedInside(s: string, p: nat)
    requires p <= |s| && Opens(s, p) && !AllClosed(s, p)
    ensures TagBegin(s, p) - p + |PrintItem(TreeItem(s, p))| + |Print(TreeAt(s, After(s, p)))| > |s| - p
    decreases |s| - p, 0
  {
    var q := TagEnd(s, p) + 2;
    ClosedIff(s, p);
    NestedLength(s, p);
    assert UnclosedAt(s, p) <==> Parse(s, q).closer == |s|;
    assert After(s, p) == Parse(s, q).pos;
    hide *;
    if UnclosedAt(s, p) {
      if !AllClosed(s, q) { PrintOfUnclosed(s, q); }
      BodyLength(s, q);
    } else {
      if !AllClosed(s, q) {
        var r := NotClosed(s, q);
      } else {
        ClosedLength(s, q);
        PrintOfUnclosed(s, After(s, p));
      }
    }
  }

  /** Printing gives the template back for the balanced ones, and for no others. */
  lemma {:induction false} PrintGivesBackIff(s: string)
    ensures Print(TreeAt(s, 0)) == s <==> Balanced(s)
  {
    if AllClosed(s, 0) {
      PrintReaches(s, 0);
      if Balanced(s) { ParseThenPrint(s); }
    } else {
      PrintOfUnclosed(s, 0);
    }
  }
}
