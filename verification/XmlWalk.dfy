/** Walking through what the scanner framed (xmcomp/src/xmlfsm.c). */
module XmlWalk {
  import opened Common
  import opened Scanner
  import opened XmlText
  import opened Framing

  /** A piece of memory. */
  datatype Span = Span(data: nat, end: nat)

  datatype XmlAttr = XmlAttr(name: Span, value: Span)

  /** A text stands in memory. */
  predicate At(mem: string, from: nat, text: string): (b: bool)
    ensures b ==> from + |text| <= |mem|
    decreases |text|
  {
    if text == "" then from <= |mem|
    else from < |mem| && mem[from] == text[0] && At(mem, from + 1, text[1..])
  }

  predicate Spells(mem: string, span: Span, text: string) {
    At(mem, span.data, text) && span.end == span.data + |text|
  }

  lemma {:induction false} AtSlice(mem: string, from: nat, text: string)
    ensures At(mem, from, text) <==> from + |text| <= |mem| && mem[from..from + |text|] == text
    decreases |text|
  {
    if text != "" && from < |mem| {
      AtSlice(mem, from + 1, text[1..]);
      if from + |text| <= |mem| {
        var slice := mem[from..from + |text|];
        assert slice == [mem[from]] + mem[from + 1..from + |text|];
        assert text == [text[0]] + text[1..];
      }
    }
  }

  lemma {:induction false} AtParts(mem: string, from: nat, a: string, mid: nat, b: string)
    requires At(mem, from, a + b) && mid == from + |a|
    ensures At(mem, from, a)
    ensures At(mem, mid, b)
    decreases |a|
  {
    if a == "" {
      assert a + b == b;
      AtSlice(mem, from, b);
    } else {
      assert (a + b)[1..] == a[1..] + b;
      AtParts(mem, from + 1, a[1..], mid, b);
    }
  }

  lemma {:induction false} AtBoth(mem: string, from: nat, a: string, mid: nat, b: string)
    requires At(mem, from, a) && mid == from + |a| && At(mem, mid, b)
    ensures At(mem, from, a + b)
    decreases |a|
  {
    if a == "" {
      assert a + b == b;
    } else {
      assert (a + b)[1..] == a[1..] + b;
      AtBoth(mem, from + 1, a[1..], mid, b);
    }
  }

  lemma {:induction false} AtIndex(mem: string, from: nat, text: string, i: nat)
    requires At(mem, from, text) && i < |text|
    ensures mem[from + i] == text[i]
  {
    AtSlice(mem, from, text);
    assert mem[from..from + |text|][i] == mem[from + i];
  }

  // ----- Attributes -----

  /** What the program's skipping loops look for. */
  datatype Goal = NotSpace | EndOfName | EndOfNodeName | Quote | Only(c: char)

  predicate Ends(goal: Goal, c: char) {
    match goal
    case NotSpace => !IsSpace(c)
    case EndOfName => IsSpace(c) || c == '='
    case EndOfNodeName => IsSpace(c) || c == '>' || c == '/'
    case Quote => IsQuote(c)
    case Only(d) => c == d
  }

  /** The first position that ends the skipping, or the end of memory. */
  function Skip(mem: string, from: nat, goal: Goal): (at: nat)
    requires from <= |mem|
    ensures from <= at <= |mem|
    decreases |mem| - from
  {
    if from == |mem| || Ends(goal, mem[from]) then from else Skip(mem, from + 1, goal)
  }

  /** Skip finds the one position that ends the skipping with none before it. */
  lemma {:induction false} SkipIs(mem: string, from: nat, at: nat, goal: Goal)
    requires from <= at <= |mem|
    ensures at == Skip(mem, from, goal) <==>
            (forall i :: from <= i < at ==> !Ends(goal, mem[i])) && (at < |mem| ==> Ends(goal, mem[at]))
    decreases |mem| - from
  {
    if from < |mem| && !Ends(goal, mem[from]) && from < at {
      SkipIs(mem, from + 1, at, goal);
    }
  }

  /** Nothing in the program stops a reader at the end of its buffer: Overrun is reading on. */
  datatype AttrResult =
    | Attribute(attr: XmlAttr, next: nat)
    | EmptyNode(next: nat)
    | NoAttr(next: nat)
    | Overrun

  function NextAttr(mem: string, from: nat): (r: AttrResult)
    requires from <= |mem|
    ensures !r.Overrun? ==> from < r.next <= |mem|
    ensures r.Attribute? ==>
              r.attr.name.data <= r.attr.name.end < r.attr.value.data <= r.attr.value.end == r.next - 1
  {
    var start := Skip(mem, from, NotSpace);
    if start == |mem| then Overrun
    else if mem[start] == '/' then if start + 2 <= |mem| then EmptyNode(start + 2) else Overrun
    else if mem[start] == '>' then NoAttr(start + 1)
    else
      var nameEnd := Skip(mem, start, EndOfName);
      var quote := Skip(mem, nameEnd, Quote);
      if quote == |mem| then Overrun
      else
        var valueEnd := Skip(mem, quote + 1, Only(mem[quote]));
        if valueEnd == |mem| then Overrun
        else Attribute(XmlAttr(Span(start, nameEnd), Span(quote + 1, valueEnd)), valueEnd + 1)
  }

  datatype Walked = Walked(attrs: seq<XmlAttr>, last: AttrResult)

  /** All attributes, and what ended them. */
  function WalkAttrs(mem: string, from: nat): (w: Walked)
    requires from <= |mem|
    ensures !w.last.Attribute?
    decreases |mem| - from
  {
    match NextAttr(mem, from)
    case Attribute(attr, next) =>
      var w := WalkAttrs(mem, next);
      Walked([attr] + w.attrs, w.last)
    case last => Walked([], last)
  }

  lemma {:induction false} SkipsText(mem: string, from: nat, text: string, goal: Goal)
    requires At(mem, from, text) && from + |text| < |mem| && Ends(goal, mem[from + |text|])
    requires forall i :: 0 <= i < |text| ==> !Ends(goal, text[i])
    ensures Skip(mem, from, goal) == from + |text|
  {
    forall i | from <= i < from + |text|
      ensures !Ends(goal, mem[i])
    {
      AtIndex(mem, from, text, i - from);
    }
    SkipIs(mem, from, from + |text|, goal);
  }

  /** Where an attribute printed at `from` has its name and value. */
  function Located(a: Attr, from: nat): XmlAttr {
    var name := from + |a.space|;
    var value := name + |a.name| + |a.equals| + 1;
    XmlAttr(Span(name, name + |a.name|), Span(value, value + |a.value|))
  }

  /** The pieces of a printed attribute. */
  lemma {:induction false} AttrPieces(mem: string, from: nat, a: Attr)
    requires At(mem, from, PrintAttr(a))
    ensures var l := Located(a, from);
            && At(mem, from, a.space)
            && Spells(mem, l.name, a.name)
            && At(mem, l.name.end, a.equals)
            && At(mem, l.value.data - 1, [a.quote])
            && Spells(mem, l.value, a.value)
            && At(mem, l.value.end, [a.quote])
            && l.value.end + 1 == from + |PrintAttr(a)|
  {
    var named := a.space + a.name;
    var l := Located(a, from);
    AtParts(mem, from, named + a.equals + [a.quote] + a.value, l.value.end, [a.quote]);
    AtParts(mem, from, named + a.equals + [a.quote], l.value.data, a.value);
    AtParts(mem, from, named + a.equals, l.value.data - 1, [a.quote]);
    AtParts(mem, from, named, l.name.end, a.equals);
    AtParts(mem, from, a.space, l.name.data, a.name);
  }

  lemma {:induction false} AttrNameIsRead(mem: string, from: nat, a: Attr, name: Span)
    requires ValidAttr(a) && name == Located(a, from).name
    requires At(mem, from, a.space) && Spells(mem, name, a.name) && At(mem, name.end, a.equals)
    ensures Skip(mem, from, NotSpace) == name.data
    ensures IsPlain(mem[name.data])
    ensures Skip(mem, name.data, EndOfName) == name.end
  {
    AtIndex(mem, name.data, a.name, 0);
    AtIndex(mem, name.end, a.equals, 0);
    forall i | 0 <= i < |a.name|
      ensures IsPlain(a.name[i]) && !Ends(EndOfName, a.name[i])
    {
    }
    SkipsText(mem, from, a.space, NotSpace);
    SkipsText(mem, name.data, a.name, EndOfName);
  }

  lemma {:induction false} AttrValueIsRead(mem: string, nameEnd: nat, a: Attr, value: Span)
    requires ValidAttr(a) && value.data == nameEnd + |a.equals| + 1
    requires At(mem, nameEnd, a.equals) && At(mem, value.data - 1, [a.quote])
    requires Spells(mem, value, a.value) && At(mem, value.end, [a.quote])
    ensures Skip(mem, nameEnd, Quote) == value.data - 1
    ensures mem[value.data - 1] == a.quote
    ensures Skip(mem, value.data, Only(a.quote)) == value.end
  {
    AtIndex(mem, value.data - 1, [a.quote], 0);
    AtIndex(mem, value.end, [a.quote], 0);
    SkipsText(mem, nameEnd, a.equals, Quote);
    SkipsText(mem, value.data, a.value, Only(a.quote));
  }

  /** Reading undoes the printing of one attribute. */
  lemma {:induction false} AttrIsRead(mem: string, from: nat, r: AttrResult, a: Attr)
    requires ValidAttr(a) && At(mem, from, PrintAttr(a))
    requires r == NextAttr(mem, from)
    ensures r == Attribute(Located(a, from), from + |PrintAttr(a)|)
  {
    AttrPieces(mem, from, a);
    var l := Located(a, from);
    AttrNameIsRead(mem, from, a, l.name);
    AttrValueIsRead(mem, l.name.end, a, l.value);
    AttrParts(mem, from, r, l);
  }

  lemma {:induction false} AttrParts(mem: string, from: nat, r: AttrResult, l: XmlAttr)
    requires from <= l.name.data <= l.name.end < l.value.data <= l.value.end < |mem|
    requires Skip(mem, from, NotSpace) == l.name.data && mem[l.name.data] != '/' && mem[l.name.data] != '>'
    requires Skip(mem, l.name.data, EndOfName) == l.name.end
    requires Skip(mem, l.name.end, Quote) == l.value.data - 1
    requires Skip(mem, l.value.data, Only(mem[l.value.data - 1])) == l.value.end
    requires r == NextAttr(mem, from)
    ensures r == Attribute(l, l.value.end + 1)
  {
  }

  /** The end of an opening tag. */
  function TagEnd(pad: string, empty: bool): string {
    pad + (if empty then "/>" else ">")
  }

  lemma {:induction false} TagEndIsRead(mem: string, from: nat, pad: string, empty: bool)
    requires Spaces(pad) && At(mem, from, TagEnd(pad, empty))
    ensures var next := from + |TagEnd(pad, empty)|;
            NextAttr(mem, from) == if empty then EmptyNode(next) else NoAttr(next)
  {
    var bracket := if empty then "/>" else ">";
    AtParts(mem, from, pad, from + |pad|, bracket);
    AtIndex(mem, from + |pad|, bracket, 0);
    SkipsText(mem, from, pad, NotSpace);
  }

  /** Attributes and the end of their tag. */
  function Opening(attrs: seq<Attr>, end: string): (text: string)
    ensures text == PrintAttrs(attrs) + end
  {
    if attrs == [] then end else PrintAttr(attrs[0]) + Opening(attrs[1..], end)
  }

  function TagEndRead(next: nat, empty: bool): AttrResult {
    if empty then EmptyNode(next) else NoAttr(next)
  }

  /** The spans hold these names and values. */
  predicate AreSpelled(mem: string, l: seq<XmlAttr>, attrs: seq<Attr>) {
    && |l| == |attrs|
    && forall i :: 0 <= i < |l| ==> IsSpelled(mem, l[i], attrs[i])
  }

  predicate IsSpelled(mem: string, l: XmlAttr, a: Attr) {
    Spells(mem, l.name, a.name) && Spells(mem, l.value, a.value)
  }

  lemma {:induction false} OneMoreIsSpelled(mem: string, first: XmlAttr, rest: seq<XmlAttr>, attrs: seq<Attr>)
    requires attrs != [] && IsSpelled(mem, first, attrs[0]) && AreSpelled(mem, rest, attrs[1..])
    ensures AreSpelled(mem, [first] + rest, attrs)
  {
  }

  /** Where the attributes of a list printed at `from` are. */
  function AllLocated(attrs: seq<Attr>, from: nat): (l: seq<XmlAttr>)
    ensures |l| == |attrs|
  {
    if attrs == [] then []
    else [Located(attrs[0], from)] + AllLocated(attrs[1..], from + |PrintAttr(attrs[0])|)
  }

  /** Walking undoes the printing of the attributes: exactly those, in order, then the end
   *  of the tag, never past it. */
  lemma {:induction false} AttrsAreWalked(
      mem: string, from: nat, w: Walked, attrs: seq<Attr>, pad: string, empty: bool, to: nat)
    requires ValidAttrs(attrs) && Spaces(pad)
    requires At(mem, from, Opening(attrs, TagEnd(pad, empty)))
    requires w == WalkAttrs(mem, from) && to == from + |Opening(attrs, TagEnd(pad, empty))|
    ensures AreSpelled(mem, w.attrs, attrs)
    ensures w.last == TagEndRead(to, empty)
    decreases |attrs|
  {
    if attrs == [] {
      TagEndIsRead(mem, from, pad, empty);
    } else {
      var first := PrintAttr(attrs[0]);
      var next := from + |first|;
      AtParts(mem, from, first, next, Opening(attrs[1..], TagEnd(pad, empty)));
      var rest := RestIsWalked(mem, from, w, attrs[0], next);
      AttrsAreWalked(mem, next, rest, attrs[1..], pad, empty, to);
      OneMoreIsSpelled(mem, Located(attrs[0], from), rest.attrs, attrs);
    }
  }

  /** The walk also finds them where they were printed. */
  lemma {:induction false} AttrsAreLocated(
      mem: string, from: nat, w: Walked, attrs: seq<Attr>, pad: string, empty: bool, l: seq<XmlAttr>)
    requires ValidAttrs(attrs) && Spaces(pad)
    requires At(mem, from, Opening(attrs, TagEnd(pad, empty)))
    requires w == WalkAttrs(mem, from) && l == AllLocated(attrs, from)
    ensures w.attrs == l
    decreases |attrs|
  {
    if attrs == [] {
      TagEndIsRead(mem, from, pad, empty);
    } else {
      var first := PrintAttr(attrs[0]);
      var next := from + |first|;
      AtParts(mem, from, first, next, Opening(attrs[1..], TagEnd(pad, empty)));
      var rest := RestIsWalked(mem, from, w, attrs[0], next);
      AttrsAreLocated(mem, next, rest, attrs[1..], pad, empty, l[1..]);
    }
  }

  lemma {:induction false} RestIsWalked(mem: string, from: nat, w: Walked, a: Attr, next: nat) returns (rest: Walked)
    requires ValidAttr(a) && At(mem, from, PrintAttr(a)) && next == from + |PrintAttr(a)|
    requires w == WalkAttrs(mem, from)
    ensures rest == WalkAttrs(mem, next)
    ensures w == Walked([Located(a, from)] + rest.attrs, rest.last)
    ensures IsSpelled(mem, Located(a, from), a)
  {
    AttrIsRead(mem, from, NextAttr(mem, from), a);
    AttrPieces(mem, from, a);
    rest := WalkAttrs(mem, next);
  }

  // ----- Siblings -----

  /** A sibling: its slice, with the text before it, and its name. */
  datatype Sibling = Sibling(slice: Span, name: Span)

  /** A node that the scanner finds has an opening bracket, and ends with a closing one. */
  lemma {:induction false} FoundNodeHasBrackets(s: Scan, text: string)
    requires Run(s, text).Stopped?
    ensures text[Run(s, text).length - 1] == '>'
    ensures !s.tag ==> exists i :: 0 <= i < Run(s, text).length - 1 && text[i] == '<'
    decreases |text|
  {
    if Feed(s, text[0]).More? {
      FoundNodeHasBrackets(Feed(s, text[0]).scan, text[1..]);
      var k := Run(s, text).length;
      if !s.tag && text[0] != '<' {
        var i :| 0 <= i < k - 2 && text[1..][i] == '<';
        assert text[i + 1] == '<';
      } else if !s.tag {
        assert text[0] == '<';
      }
    }
  }

  /** The name behind the first opening bracket, if memory has one. */
  function NameOf(mem: string, from: nat): (name: Span)
    requires from <= |mem|
    ensures from <= name.data <= name.end <= |mem|
  {
    var at := Skip(mem, from, Only('<'));
    var start := if at < |mem| then at + 1 else at;
    Span(start, Skip(mem, start, EndOfNodeName))
  }

  /** The name of a node the scanner found is always inside it. */
  lemma {:induction false} NameIsInside(mem: string, from: nat, to: nat)
    requires from < to <= |mem| && Run(START, mem[from..to]) == Stopped(to - from)
    ensures var name := NameOf(mem, from);
            && from < name.data <= name.end < to
            && mem[name.data - 1] == '<' && (forall i :: from <= i < name.data - 1 ==> mem[i] != '<')
            && Ends(EndOfNodeName, mem[name.end])
            && forall i :: name.data <= i < name.end ==> !Ends(EndOfNodeName, mem[i])
  {
    var i := BracketOf(mem, from, to);
    NameBetween(mem, from, to, i, NameOf(mem, from));
  }

  /** A found node has an opening bracket, and ends with a closing one. */
  lemma {:induction false} BracketOf(mem: string, from: nat, to: nat) returns (i: nat)
    requires from < to <= |mem| && Run(START, mem[from..to]) == Stopped(to - from)
    ensures from <= i < to - 1 && mem[i] == '<' && mem[to - 1] == '>'
  {
    var text := mem[from..to];
    FoundNodeHasBrackets(START, text);
    assert mem[to - 1] == text[|text| - 1] == '>';
    var k :| 0 <= k < |text| - 1 && text[k] == '<';
    i := from + k;
  }

  lemma {:induction false} NameBetween(mem: string, from: nat, to: nat, i: nat, name: Span)
    requires from <= i < to - 1 && to <= |mem| && mem[i] == '<' && mem[to - 1] == '>'
    requires name == NameOf(mem, from)
    ensures from < name.data <= name.end < to
    ensures mem[name.data - 1] == '<' && forall k :: from <= k < name.data - 1 ==> mem[k] != '<'
    ensures Ends(EndOfNodeName, mem[name.end])
    ensures forall k :: name.data <= k < name.end ==> !Ends(EndOfNodeName, mem[k])
  {
    var at := Skip(mem, from, Only('<'));
    SkipIs(mem, from, at, Only('<'));
    SkipIs(mem, at + 1, Skip(mem, at + 1, EndOfNodeName), EndOfNodeName);
  }

  /** The next node between two positions. */
  function NextSibling(mem: string, from: nat, to: nat): (s: Option<Sibling>)
    requires from <= to <= |mem|
    ensures s.Some? ==> s.value.slice.data == from < s.value.slice.end <= to
  {
    match Found(Run(START, mem[from..to]))
    case None => None
    case Some(k) => Some(Sibling(Span(from, from + k), NameOf(mem, from)))
  }

  /** All nodes between two positions. */
  function Siblings(mem: string, from: nat, to: nat): (s: seq<Sibling>)
    requires from <= to <= |mem|
    decreases |mem| - from
  {
    match NextSibling(mem, from, to)
    case None => []
    case Some(s) => [s] + Siblings(mem, s.slice.end, to)
  }

  /** An element and the text before it. */
  datatype Piece = Piece(lead: string, element: Node)

  /** The elements of a forest in order, after some text. */
  function Pieces(lead: string, f: Forest): (p: seq<Piece>)
    requires ValidForest(f)
    ensures forall i :: 0 <= i < |p| ==> p[i].element.Element? && ValidNode(p[i].element)
    decreases f
  {
    match f
    case Nil => []
    case Cons(Text(text), tail) => Pieces(lead + text, tail)
    case Cons(e, tail) => [Piece(lead, e)] + Pieces("", tail)
  }

  /** A sibling is the printed piece. */
  predicate IsPiece(mem: string, s: Sibling, p: Piece) {
    && p.element.Element?
    && Spells(mem, s.slice, p.lead + Print(p.element))
    && s.name.data == s.slice.data + |p.lead| + 1
    && Spells(mem, s.name, p.element.name)
  }

  predicate ArePieces(mem: string, s: seq<Sibling>, p: seq<Piece>) {
    |s| == |p| && forall i :: 0 <= i < |s| ==> IsPiece(mem, s[i], p[i])
  }

  /** Text, then an element: the scanner skips both. */
  lemma {:induction false} LeadAndElement(lead: string, e: Node, rest: string)
    requires PlainText(lead) && e.Element? && ValidNode(e)
    ensures Found(Run(START, lead + Print(e) + rest)) == Some(|lead + Print(e)|)
  {
    OverIdle(START, lead);
    OverElement(0, e);
    RunInParts(START, lead, Print(e));
    RunInParts(START, lead + Print(e), rest);
  }

  /** What comes behind the name of a printed element. */
  function AfterName(e: Node): (text: string)
    requires e.Element?
    ensures Print(e) == "<" + e.name + text
  {
    match e.kids
    case None => PrintAttrs(e.attrs) + (e.pad + "/>")
    case Some(kids) =>
      var opening := PrintAttrs(e.attrs) + (e.pad + ">");
      var closing := "</" + e.name + ">";
      assert Print(e) == "<" + e.name + (opening + PrintForest(kids) + closing);
      opening + PrintForest(kids) + closing
  }

  /** Behind the name come the attributes, the end of the tag, and the kids. */
  lemma {:induction false} KidsAfterName(e: Node)
    requires e.Element? && e.kids.Some?
    ensures AfterName(e) == Opening(e.attrs, TagEnd(e.pad, false)) + (PrintForest(e.kids.value) + ("</" + e.name + ">"))
  {
  }

  lemma {:induction false} NameIsRead(mem: string, from: nat, lead: string, name: string, after: string)
    requires PlainText(lead) && Name(name) && after != "" && Ends(EndOfNodeName, after[0])
    requires At(mem, from, lead + ("<" + name + after))
    ensures Skip(mem, from, Only('<')) == from + |lead|
    ensures At(mem, from + |lead| + 1, name)
    ensures Skip(mem, from + |lead| + 1, EndOfNodeName) == from + |lead| + 1 + |name|
  {
    NamePieces(mem, from, lead, name, after);
    BracketIsFound(mem, from, lead);
    NameEnds(mem, from + |lead| + 1, name, after);
  }

  lemma {:induction false} NamePieces(mem: string, from: nat, lead: string, name: string, after: string)
    requires At(mem, from, lead + ("<" + name + after))
    ensures At(mem, from, lead)
    ensures At(mem, from + |lead|, "<")
    ensures At(mem, from + |lead| + 1, name)
    ensures At(mem, from + |lead| + 1 + |name|, after)
  {
    var at := from + |lead|;
    AtParts(mem, from, lead, at, "<" + name + after);
    AtParts(mem, at, "<" + name, at + 1 + |name|, after);
    AtParts(mem, at, "<", at + 1, name);
  }

  lemma {:induction false} BracketIsFound(mem: string, from: nat, lead: string)
    requires PlainText(lead) && At(mem, from, lead) && At(mem, from + |lead|, "<")
    ensures Skip(mem, from, Only('<')) == from + |lead|
  {
    AtIndex(mem, from + |lead|, "<", 0);
    SkipsText(mem, from, lead, Only('<'));
  }

  lemma {:induction false} NameEnds(mem: string, from: nat, name: string, after: string)
    requires Name(name) && At(mem, from, name) && At(mem, from + |name|, after)
    requires after != "" && Ends(EndOfNodeName, after[0])
    ensures Skip(mem, from, EndOfNodeName) == from + |name|
  {
    AtIndex(mem, from + |name|, after, 0);
    forall i | 0 <= i < |name|
      ensures !Ends(EndOfNodeName, name[i])
    {
      assert IsPlain(name[i]);
    }
    SkipsText(mem, from, name, EndOfNodeName);
  }

  lemma {:induction false} AfterNameStarts(e: Node)
    requires e.Element? && ValidNode(e)
    ensures AfterName(e) != "" && Ends(EndOfNodeName, AfterName(e)[0])
  {
    if e.kids.Some? {
      KidsAfterName(e);
    }
    var end := TagEnd(e.pad, e.kids.None?);
    var start := Opening(e.attrs, end);
    assert AfterName(e)[0] == start[0];
    if e.attrs == [] {
      assert start == end;
    } else {
      assert start[0] == e.attrs[0].space[0];
    }
  }

  lemma {:induction false} PieceIsFound(
      mem: string, from: nat, to: nat, s: Option<Sibling>, lead: string, e: Node, rest: string)
    requires PlainText(lead) && e.Element? && ValidNode(e)
    requires from <= to <= |mem| && mem[from..to] == lead + Print(e) + rest
    requires s == NextSibling(mem, from, to)
    ensures s.Some? && IsPiece(mem, s.value, Piece(lead, e))
  {
    var slice := Span(from, from + |lead + Print(e)|);
    var name := Span(from + |lead| + 1, from + |lead| + 1 + |e.name|);
    LeadAndElement(lead, e, rest);
    AtSlice(mem, from, lead + Print(e) + rest);
    AtParts(mem, from, lead + Print(e), slice.end, rest);
    AfterNameStarts(e);
    NameIsRead(mem, from, lead, e.name, AfterName(e));
    assert NameOf(mem, from) == name;
  }

  /** Walking over a printed forest yields exactly its elements in order, each with its name
   *  and with the text before it. */
  lemma {:induction false} ForestIsWalked(
      mem: string, from: nat, to: nat, s: seq<Sibling>, lead: string, f: Forest)
    requires PlainText(lead) && ValidForest(f)
    requires from <= to <= |mem| && mem[from..to] == lead + PrintForest(f)
    requires s == Siblings(mem, from, to)
    ensures ArePieces(mem, s, Pieces(lead, f))
    decreases f
  {
    match f
    case Nil =>
      assert mem[from..to] == lead;
      OverIdle(START, lead);
    case Cons(Text(text), tail) =>
      assert lead + PrintForest(f) == (lead + text) + PrintForest(tail);
      ForestIsWalked(mem, from, to, s, lead + text, tail);
    case Cons(e, tail) =>
      FirstIsWalked(mem, from, to, s, lead, e, tail);
      ForestIsWalked(mem, s[0].slice.end, to, s[1..], "", tail);
  }

  lemma {:induction false} FirstIsWalked(
      mem: string, from: nat, to: nat, s: seq<Sibling>, lead: string, e: Node, tail: Forest)
    requires PlainText(lead) && e.Element? && ValidNode(e)
    requires from <= to <= |mem| && mem[from..to] == lead + PrintForest(Cons(e, tail))
    requires s == Siblings(mem, from, to)
    ensures s != [] && IsPiece(mem, s[0], Piece(lead, e))
    ensures s[0].slice.end <= to && mem[s[0].slice.end..to] == "" + PrintForest(tail)
    ensures s[1..] == Siblings(mem, s[0].slice.end, to)
  {
    assert lead + PrintForest(Cons(e, tail)) == lead + Print(e) + PrintForest(tail);
    PieceIsFound(mem, from, to, NextSibling(mem, from, to), lead, e, PrintForest(tail));
    RestOf(mem, from, to, lead + Print(e), PrintForest(tail));
  }

  lemma {:induction false} RestOf(mem: string, from: nat, to: nat, a: string, b: string)
    requires from <= to <= |mem| && mem[from..to] == a + b
    ensures mem[from + |a|..to] == "" + b
  {
    assert mem[from..to][|a|..] == mem[from + |a|..to];
  }

  /** From the name of a printed element on, the attributes are walked exactly, and then
   *  the kids follow, if there are any. */
  lemma {:induction false} PieceIsWalked(mem: string, s: Sibling, w: Walked, p: Piece)
    requires p.element.Element? && ValidNode(p.element) && IsPiece(mem, s, p)
    requires w == WalkAttrs(mem, s.name.end)
    ensures AreSpelled(mem, w.attrs, p.element.attrs)
    ensures p.element.kids.None? ==> w.last == EmptyNode(s.slice.end)
    ensures p.element.kids.Some? ==> w.last.NoAttr? && At(mem, w.last.next, PrintForest(p.element.kids.value))
  {
    var e := p.element;
    var end := TagEnd(e.pad, e.kids.None?);
    var to := s.name.end + |Opening(e.attrs, end)|;
    BehindName(mem, s, p, to);
    AttrsAreWalked(mem, s.name.end, w, e.attrs, e.pad, e.kids.None?, to);
  }

  /** What stands in memory behind the name of a printed element. */
  lemma {:induction false} BehindName(mem: string, s: Sibling, p: Piece, to: nat)
    requires p.element.Element? && IsPiece(mem, s, p)
    requires to == s.name.end + |Opening(p.element.attrs, TagEnd(p.element.pad, p.element.kids.None?))|
    ensures At(mem, s.name.end, Opening(p.element.attrs, TagEnd(p.element.pad, p.element.kids.None?)))
    ensures p.element.kids.None? ==> to == s.slice.end
    ensures p.element.kids.Some? ==> At(mem, to, PrintForest(p.element.kids.value))
  {
    var e := p.element;
    var at := s.slice.data + |p.lead|;
    AtParts(mem, s.slice.data, p.lead, at, Print(e));
    AtParts(mem, at, "<" + e.name, s.name.end, AfterName(e));
    var opening := Opening(e.attrs, TagEnd(e.pad, e.kids.None?));
    match e.kids
    case None =>
    case Some(kids) =>
      KidsAfterName(e);
      AtParts(mem, s.name.end, opening, to, PrintForest(kids) + ("</" + e.name + ">"));
      AtParts(mem, to, PrintForest(kids), to + |PrintForest(kids)|, "</" + e.name + ">");
  }

  // ----- Looking for a name -----

  predicate Named(mem: string, span: Span, name: string) {
    span.data <= span.end <= |mem| && mem[span.data..span.end] == name
  }

  /** The next attribute of a name, or whatever ended the attributes. */
  function FindAttr(mem: string, from: nat, name: string): (r: AttrResult)
    requires from <= |mem|
    ensures !r.Overrun? ==> from < r.next <= |mem|
    decreases |mem| - from
  {
    var r := NextAttr(mem, from);
    if r.Attribute? && !Named(mem, r.attr.name, name) then FindAttr(mem, r.next, name) else r
  }

  lemma {:induction false} FirstBehind(mem: string, attrs: seq<XmlAttr>, name: string, found: XmlAttr)
    requires attrs != [] && !Named(mem, attrs[0].name, name)
    requires exists i :: 0 <= i < |attrs[1..]| && attrs[1..][i] == found &&
               forall j :: 0 <= j < i ==> !Named(mem, attrs[1..][j].name, name)
    ensures exists i :: 0 <= i < |attrs| && attrs[i] == found &&
              forall j :: 0 <= j < i ==> !Named(mem, attrs[j].name, name)
  {
    var i :| 0 <= i < |attrs[1..]| && attrs[1..][i] == found &&
               forall j :: 0 <= j < i ==> !Named(mem, attrs[1..][j].name, name);
    assert attrs[i + 1] == found;
    forall j | 0 <= j < i + 1
      ensures !Named(mem, attrs[j].name, name)
    {
      assert j > 0 ==> attrs[j] == attrs[1..][j - 1];
    }
  }

  /** It is the first of that name among all attributes. */
  lemma {:induction false} FindAttrIsFirst(mem: string, from: nat, name: string, r: AttrResult, w: Walked)
    requires from <= |mem| && r == FindAttr(mem, from, name) && w == WalkAttrs(mem, from)
    ensures !r.Attribute? ==> r == w.last && forall j :: 0 <= j < |w.attrs| ==> !Named(mem, w.attrs[j].name, name)
    ensures r.Attribute? ==>
              && Named(mem, r.attr.name, name)
              && exists i :: 0 <= i < |w.attrs| && w.attrs[i] == r.attr &&
                   forall j :: 0 <= j < i ==> !Named(mem, w.attrs[j].name, name)
    decreases |mem| - from
  {
    var first := NextAttr(mem, from);
    if first.Attribute? {
      var rest := WalkAttrs(mem, first.next);
      assert w.attrs[0] == first.attr && w.attrs[1..] == rest.attrs;
      if !Named(mem, first.attr.name, name) {
        FindAttrIsFirst(mem, first.next, name, r, rest);
        if r.Attribute? {
          FirstBehind(mem, w.attrs, name, r.attr);
        }
      }
    }
  }

  /** The next node of a name. */
  function FindSibling(mem: string, from: nat, to: nat, name: string): (s: Option<Sibling>)
    requires from <= to <= |mem|
    ensures s.Some? ==> s.value.slice.end <= to
    decreases |mem| - from
  {
    match NextSibling(mem, from, to)
    case None => None
    case Some(s) => if Named(mem, s.name, name) then Some(s) else FindSibling(mem, s.slice.end, to, name)
  }

  /** It is the first of that name among the siblings. */
  lemma {:induction false} FindSiblingIsFirst(
      mem: string, from: nat, to: nat, name: string, r: Option<Sibling>, s: seq<Sibling>)
    requires from <= to <= |mem| && r == FindSibling(mem, from, to, name) && s == Siblings(mem, from, to)
    ensures r.None? ==> forall j :: 0 <= j < |s| ==> !Named(mem, s[j].name, name)
    ensures r.Some? ==>
              && Named(mem, r.value.name, name)
              && exists i :: 0 <= i < |s| && s[i] == r.value &&
                   forall j :: 0 <= j < i ==> !Named(mem, s[j].name, name)
    decreases |mem| - from
  {
    var first := NextSibling(mem, from, to);
    if first.Some? {
      var rest := Siblings(mem, first.value.slice.end, to);
      assert s[0] == first.value && s[1..] == rest;
      if !Named(mem, first.value.name, name) {
        FindSiblingIsFirst(mem, first.value.slice.end, to, name, r, rest);
        if r.Some? {
          var i :| 0 <= i < |rest| && rest[i] == r.value &&
                     forall j :: 0 <= j < i ==> !Named(mem, rest[j].name, name);
          assert s[i + 1] == r.value;
        }
      }
    }
  }
}

/** The walkers as the program has them. */
module XmlWalker {
  import opened Common
  import opened Scanner
  import opened XmlFsm
  import opened XmlWalk

  /** The program's skipping loop: it reads until it finds what it looks for. */
  method SkipUntil(mem: string, from: nat, goal: Goal) returns (at: nat)
    requires from <= |mem| && Skip(mem, from, goal) < |mem|
    ensures at == Skip(mem, from, goal)
  {
    at := from;
    while !Ends(goal, mem[at])
      invariant from <= at < |mem| && Skip(mem, at, goal) == Skip(mem, from, goal)
      decreases |mem| - at
    {
      at := at + 1;
    }
  }

  /** xmlfsm_next_attr: it trusts that the attributes end. */
  method ReadAttr(mem: string, buffer: BufferPtr) returns (r: AttrResult)
    requires buffer.data <= |mem| && !NextAttr(mem, buffer.data).Overrun?
    modifies buffer`data
    ensures r == NextAttr(mem, old(buffer.data)) && buffer.data == r.next
  {
    // The space before the name.
    buffer.data := SkipUntil(mem, buffer.data, NotSpace);

    // The tag may end here.
    if mem[buffer.data] == '/' {
      buffer.data := buffer.data + 2;
      return EmptyNode(buffer.data);
    } else if mem[buffer.data] == '>' {
      buffer.data := buffer.data + 1;
      return NoAttr(buffer.data);
    }

    var start := buffer.data;
    buffer.data := SkipUntil(mem, buffer.data, EndOfName);
    var nameEnd := buffer.data;

    // Whatever stands before the value.
    buffer.data := SkipUntil(mem, buffer.data, Quote);

    // The value runs up to the quote that opened it.
    var quote := mem[buffer.data];
    buffer.data := buffer.data + 1;
    var value := buffer.data;
    buffer.data := SkipUntil(mem, buffer.data, Only(quote));
    var attr := XmlAttr(Span(start, nameEnd), Span(value, buffer.data));

    // Behind the value.
    buffer.data := buffer.data + 1;
    return Attribute(attr, buffer.data);
  }

  /** xmlfsm_node_name. */
  method ReadName(mem: string, buffer: BufferPtr) returns (name: Span)
    requires buffer.data <= buffer.end <= |mem|
    requires Skip(mem, buffer.data, Only('<')) < buffer.end && NameOf(mem, buffer.data).end < |mem|
    modifies buffer`data
    ensures name == NameOf(mem, old(buffer.data)) && buffer.data == name.end
  {
    var at := MemChr(mem, buffer.data, buffer.end, '<');
    MemChrIsSkip(mem, buffer.data, buffer.end, at);
    buffer.data := SkipUntil(mem, at + 1, EndOfNodeName);
    return Span(at + 1, buffer.data);
  }

  lemma {:induction false} MemChrIsSkip(mem: string, from: nat, to: nat, at: nat)
    requires from <= at <= to <= |mem| && Skip(mem, from, Only('<')) < to
    requires (forall i :: from <= i < at ==> mem[i] != '<') && (at < to ==> mem[at] == '<')
    ensures at == Skip(mem, from, Only('<'))
  {
    var k := Skip(mem, from, Only('<'));
    SkipIs(mem, from, k, Only('<'));
    SkipIs(mem, from, at, Only('<'));
  }

  /** xmlfsm_skip_attrs: whether the node may have kids. */
  method SkipAttrs(mem: string, buffer: BufferPtr) returns (open: bool)
    requires buffer.data <= |mem| && !WalkAttrs(mem, buffer.data).last.Overrun?
    modifies buffer`data
    ensures var last := WalkAttrs(mem, old(buffer.data)).last;
            open == last.NoAttr? && buffer.data == last.next
  {
    var r := ReadAttr(mem, buffer);
    while r.Attribute?
      invariant !r.Overrun? && buffer.data == r.next <= |mem|
      invariant WalkAttrs(mem, old(buffer.data)).last ==
                if r.Attribute? then WalkAttrs(mem, buffer.data).last else r
      decreases |mem| - buffer.data, r.Attribute?
    {
      r := ReadAttr(mem, buffer);
    }
    return r.NoAttr?;
  }

  /** xmlfsm_skipto_attr. */
  method SkipToAttr(mem: string, buffer: BufferPtr, name: string) returns (r: AttrResult)
    requires buffer.data <= |mem| && !FindAttr(mem, buffer.data, name).Overrun?
    modifies buffer`data
    ensures r == FindAttr(mem, old(buffer.data), name) && buffer.data == r.next
  {
    r := ReadAttr(mem, buffer);
    while r.Attribute?
      invariant !r.Overrun? && buffer.data == r.next <= |mem|
      invariant r.Attribute? ==> r.attr.name.data <= r.attr.name.end <= |mem|
      invariant FindAttr(mem, old(buffer.data), name) ==
                if r.Attribute? && !Named(mem, r.attr.name, name) then FindAttr(mem, r.next, name) else r
      decreases |mem| - buffer.data, r.Attribute?
    {
      if mem[r.attr.name.data..r.attr.name.end] == name {
        return;
      }
      r := ReadAttr(mem, buffer);
    }
  }

  class XmlNodeTraverser {
    /** What is still to be walked. */
    const buffer: BufferPtr
    /** The node that was found, from its name on. */
    const node: BufferPtr
    var nodeName: Span
    var nodeStart: nat

    constructor (data: nat, end: nat)
      ensures fresh(buffer) && fresh(node) && buffer != node
      ensures buffer.data == data && buffer.end == end
    {
      buffer := new BufferPtr(data, end);
      node := new BufferPtr(0, 0);
      nodeName, nodeStart := Span(0, 0), 0;
    }

    ghost predicate Valid(mem: string)
      reads this, buffer
    {
      buffer != node && buffer.data <= buffer.end <= |mem|
    }

    ghost predicate IsAt(s: Sibling)
      reads this, node
    {
      && nodeStart == s.slice.data && nodeName == s.name
      && node.data == s.name.end && node.end == s.slice.end
    }

    /** xmlfsm_next_sibling: it never reads out of bounds, whatever the text is. */
    method NextSibling(mem: string) returns (ok: bool)
      requires Valid(mem)
      modifies this, buffer`data, node
      ensures Valid(mem) && buffer.end == old(buffer.end)
      ensures var s := XmlWalk.NextSibling(mem, old(buffer.data), buffer.end);
              && ok == s.Some?
              && (ok ==> IsAt(s.value) && buffer.data == s.value.slice.end)
              && (!ok ==> buffer.data == old(buffer.data))
    {
      node.data := buffer.data;
      ghost var from := buffer.data;
      ok := SkipNode(mem, buffer);
      if ok {
        node.end := buffer.data;
        nodeStart := node.data;
        StopIsStable(Scanner.START, mem[from..buffer.end], buffer.data - from);
        assert mem[from..buffer.end][..buffer.data - from] == mem[from..buffer.data];
        NameIsInside(mem, from, buffer.data);
        nodeName := ReadName(mem, node);
      }
    }
  }

  /** xmlfsm_skipto_node: the cursor stays when there is no such node. */
  method SkipToNode(mem: string, buffer: BufferPtr, name: string, node: BufferPtr) returns (ok: bool)
    requires buffer != node && buffer.data <= buffer.end <= |mem|
    modifies buffer`data, node
    ensures var s := FindSibling(mem, old(buffer.data), buffer.end, name);
            && ok == s.Some?
            && (ok ==> node.data == s.value.slice.data && node.end == s.value.slice.end
                       && buffer.data == s.value.slice.end)
            && (!ok ==> buffer.data == old(buffer.data))
  {
    var nodes := new XmlNodeTraverser(buffer.data, buffer.end);
    ok := nodes.NextSibling(mem);
    while ok
      invariant nodes.Valid(mem) && nodes.buffer.end == buffer.end && buffer.data == old(buffer.data)
      invariant fresh(nodes) && fresh(nodes.buffer) && fresh(nodes.node)
      invariant ok ==> nodes.nodeName.data <= nodes.nodeName.end <= |mem|
      invariant ok ==> nodes.node.end == nodes.buffer.data
      invariant FindSibling(mem, old(buffer.data), buffer.end, name) ==
                if !ok then None
                else if Named(mem, nodes.nodeName, name) then
                  Some(Sibling(Span(nodes.nodeStart, nodes.node.end), nodes.nodeName))
                else FindSibling(mem, nodes.buffer.data, buffer.end, name)
      decreases |mem| - nodes.buffer.data, ok
    {
      if mem[nodes.nodeName.data..nodes.nodeName.end] == name {
        node.data := nodes.nodeStart;
        node.end := nodes.node.end;
        buffer.data := nodes.buffer.data;
        return;
      }
      ok := nodes.NextSibling(mem);
    }
  }
}
