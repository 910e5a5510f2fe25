/** Printed XML as the server sends it, and how the scanner frames it. */
module XmlText {
  import opened Common

  datatype Attr = Attr(space: string, name: string, equals: string, quote: char, value: string)

  /** An element without kids is printed as an empty tag. */
  datatype Node =
    | Text(text: string)
    | Element(name: string, attrs: seq<Attr>, pad: string, kids: Option<Forest>)

  datatype Forest = Nil | Cons(head: Node, tail: Forest)

  predicate IsSpace(c: char) {
    c == ' ' || c == '\t' || c == '\n' || c == '\r'
  }

  predicate IsQuote(c: char) {
    c == '"' || c == '\''
  }

  predicate IsPlain(c: char) {
    !IsSpace(c) && !IsQuote(c) && c != '<' && c != '>' && c != '/' && c != '='
  }

  predicate Spaces(s: string) {
    forall i :: 0 <= i < |s| ==> IsSpace(s[i])
  }

  predicate Name(s: string) {
    s != "" && forall i {:trigger IsPlain(s[i])} :: 0 <= i < |s| ==> IsPlain(s[i])
  }

  /** Text is free of raw quotes and of opening brackets. */
  predicate PlainText(s: string) {
    forall i :: 0 <= i < |s| ==> !IsQuote(s[i]) && s[i] != '<'
  }

  /** White space may stand around the equals sign. */
  predicate Equals(s: string) {
    s != "" && forall i :: 0 <= i < |s| ==> IsSpace(s[i]) || s[i] == '='
  }

  predicate ValidAttr(a: Attr) {
    && a.space != "" && Spaces(a.space) && Name(a.name) && Equals(a.equals) && IsQuote(a.quote)
    && forall i :: 0 <= i < |a.value| ==> a.value[i] != a.quote
  }

  predicate ValidAttrs(attrs: seq<Attr>) {
    forall i :: 0 <= i < |attrs| ==> ValidAttr(attrs[i])
  }

  predicate ValidNode(n: Node) {
    match n
    case Text(text) => PlainText(text)
    case Element(name, attrs, pad, kids) =>
      Name(name) && ValidAttrs(attrs) && Spaces(pad) && (kids.Some? ==> ValidForest(kids.value))
  }

  predicate ValidForest(f: Forest) {
    f.Cons? ==> ValidNode(f.head) && ValidForest(f.tail)
  }

  function PrintAttr(a: Attr): string {
    a.space + a.name + a.equals + [a.quote] + a.value + [a.quote]
  }

  function PrintAttrs(attrs: seq<Attr>): string {
    if attrs == [] then "" else PrintAttr(attrs[0]) + PrintAttrs(attrs[1..])
  }

  function Print(n: Node): string {
    match n
    case Text(text) => text
    case Element(name, attrs, pad, None) =>
      "<" + name + (PrintAttrs(attrs) + (pad + "/>"))
    case Element(name, attrs, pad, Some(kids)) =>
      "<" + name + (PrintAttrs(attrs) + (pad + ">")) + PrintForest(kids) + ("</" + name + ">")
  }

  function PrintForest(f: Forest): string {
    if f.Nil? then "" else Print(f.head) + PrintForest(f.tail)
  }
}

/** The scanner stops exactly at the end of a printed element. */
module Framing {
  import opened Common
  import opened Scanner
  import opened XmlText

  /** Between tags, at some depth. */
  function Between(level: int): Scan {
    Scan(level, None, false, NoSlash)
  }

  /** Inside an opening tag. */
  function InTag(level: int): Scan {
    Scan(level, None, true, NoSlash)
  }

  /** The scanner goes from one state to another over a text. */
  predicate Over(s: Scan, text: string, t: Scan) {
    Run(s, text) == Running(t)
  }

  lemma {:induction false} OverBoth(s: Scan, a: string, t: Scan, b: string, u: Scan)
    requires Over(s, a, t) && Over(t, b, u)
    ensures Over(s, a + b, u)
  {
    RunInParts(s, a, b);
  }

  /** Characters that mean nothing to the scanner in this state. */
  lemma {:induction false} OverIdle(s: Scan, text: string)
    requires s.slash != JustNow
    requires forall i :: 0 <= i < |text| ==> Feed(s, text[i]) == More(s)
    ensures Over(s, text, s)
    decreases |text|
  {
    if text != "" {
      OverIdle(s, text[1..]);
    }
  }

  lemma {:induction false} OverName(s: Scan, name: string)
    requires Name(name) && s.quote.None? && s.slash != JustNow
    ensures Over(s, name, s)
  {
    forall i | 0 <= i < |name|
      ensures Feed(s, name[i]) == More(s)
    {
      assert IsPlain(name[i]);
    }
    OverIdle(s, name);
  }

  lemma {:induction false} OverAttr(level: int, a: Attr)
    requires ValidAttr(a)
    ensures Over(InTag(level), PrintAttr(a), InTag(level))
  {
    var s := InTag(level);
    var quoted := s.(quote := Some(a.quote));
    OverIdle(s, a.space);
    OverName(s, a.name);
    OverBoth(s, a.space, s, a.name, s);
    OverIdle(s, a.equals);
    var named := a.space + a.name;
    OverBoth(s, named, s, a.equals, s);
    OverBoth(s, named + a.equals, s, [a.quote], quoted);
    OverIdle(quoted, a.value);
    OverBoth(s, named + a.equals + [a.quote], quoted, a.value, quoted);
    OverBoth(s, named + a.equals + [a.quote] + a.value, quoted, [a.quote], s);
  }

  lemma {:induction false} OverAttrs(level: int, attrs: seq<Attr>)
    requires ValidAttrs(attrs)
    ensures Over(InTag(level), PrintAttrs(attrs), InTag(level))
    decreases |attrs|
  {
    if attrs != [] {
      OverAttr(level, attrs[0]);
      OverAttrs(level, attrs[1..]);
      OverBoth(InTag(level), PrintAttr(attrs[0]), InTag(level), PrintAttrs(attrs[1..]), InTag(level));
    }
  }

  lemma {:induction false} OverOpening(level: int, name: string, attrs: seq<Attr>, pad: string)
    requires Name(name) && ValidAttrs(attrs) && Spaces(pad)
    ensures Over(Between(level), "<" + name + (PrintAttrs(attrs) + pad), InTag(level + 1))
  {
    var s := InTag(level + 1);
    OverName(s, name);
    OverBoth(Between(level), "<", s, name, s);
    OverAttrs(level + 1, attrs);
    OverIdle(s, pad);
    OverBoth(s, PrintAttrs(attrs), s, pad, s);
    OverBoth(Between(level), "<" + name, s, PrintAttrs(attrs) + pad, s);
  }

  /** A closing bracket ends the outermost element, and only that. */
  function Closed(level: int, length: nat): Outcome {
    if level == 0 then Stopped(length) else Running(Between(level))
  }

  lemma {:induction false} ClosesEmptyTag(level: int)
    ensures Run(InTag(level + 1), "/>") == Closed(level, 2)
  {
    assert "/>"[1..] == ">";
  }

  lemma {:induction false} OverClosingSlash(level: int)
    ensures Over(Between(level + 1), "</", Scan(level + 2, None, true, JustNow))
  {
    assert "</"[1..] == "/";
  }

  lemma {:induction false} OverClosingName(level: int, name: string)
    requires Name(name)
    ensures Over(Scan(level, None, true, JustNow), name, Scan(level, None, true, Earlier))
  {
    var named := Scan(level, None, true, Earlier);
    assert IsPlain(name[0]);
    assert Feed(Scan(level, None, true, JustNow), name[0]) == More(named);
    forall i | 0 <= i < |name[1..]|
      ensures Feed(named, name[1..][i]) == More(named)
    {
      assert IsPlain(name[i + 1]);
    }
    OverIdle(named, name[1..]);
  }

  lemma {:induction false} ClosesElement(level: int, name: string)
    requires Name(name)
    ensures Run(Between(level + 1), "</" + name + ">") == Closed(level, |name| + 3)
  {
    var after := Scan(level + 2, None, true, JustNow);
    var named := Scan(level + 2, None, true, Earlier);
    OverClosingSlash(level);
    OverClosingName(level + 2, name);
    OverBoth(Between(level + 1), "</", after, name, named);
    assert Run(named, ">") == Closed(level, 1);
    RunInParts(Between(level + 1), "</" + name, ">");
  }

  /** An element ends where what opened it is closed. */
  lemma {:induction false} Concluded(level: int, opening: string, inside: Scan, closing: string)
    requires Over(Between(level), opening, inside)
    requires Run(inside, closing) == Closed(level, |closing|)
    ensures Run(Between(level), opening + closing) == Closed(level, |opening + closing|)
  {
    RunInParts(Between(level), opening, closing);
  }

  lemma {:induction false} PrintedEmpty(name: string, attrs: seq<Attr>, pad: string)
    ensures Print(Element(name, attrs, pad, None)) == "<" + name + (PrintAttrs(attrs) + pad) + "/>"
  {
  }

  lemma {:induction false} PrintedFull(name: string, attrs: seq<Attr>, pad: string, kids: Forest)
    ensures Print(Element(name, attrs, pad, Some(kids))) ==
            "<" + name + (PrintAttrs(attrs) + pad) + ">" + PrintForest(kids) + ("</" + name + ">")
  {
  }

  /** Over a printed element the scanner comes back to where it was, or stops at its end
   *  when it started outside all elements. */
  lemma {:induction false} OverElement(level: nat, n: Node)
    requires ValidNode(n) && n.Element?
    ensures Run(Between(level), Print(n)) == Closed(level, |Print(n)|)
    decreases n, 1
  {
    var opening := "<" + n.name + (PrintAttrs(n.attrs) + n.pad);
    OverOpening(level, n.name, n.attrs, n.pad);
    match n.kids
    case None =>
      ClosesEmptyTag(level);
      PrintedEmpty(n.name, n.attrs, n.pad);
      Concluded(level, opening, InTag(level + 1), "/>");
    case Some(forest) =>
      OverForest(level + 1, forest);
      PrintedFull(n.name, n.attrs, n.pad, forest);
      FullElement(level, opening, n.name, forest);
  }

  lemma {:induction false} FullElement(level: nat, opening: string, name: string, forest: Forest)
    requires Name(name) && Over(Between(level), opening, InTag(level + 1))
    requires Over(Between(level + 1), PrintForest(forest), Between(level + 1))
    ensures var all := opening + ">" + PrintForest(forest) + ("</" + name + ">");
            Run(Between(level), all) == Closed(level, |all|)
  {
    OverBoth(Between(level), opening, InTag(level + 1), ">", Between(level + 1));
    OverBoth(Between(level), opening + ">", Between(level + 1), PrintForest(forest), Between(level + 1));
    ClosesElement(level, name);
    Concluded(level, opening + ">" + PrintForest(forest), Between(level + 1), "</" + name + ">");
  }

  lemma {:induction false} OverForest(level: nat, f: Forest)
    requires ValidForest(f) && level > 0
    ensures Over(Between(level), PrintForest(f), Between(level))
    decreases f, 0
  {
    if f.Cons? {
      if f.head.Text? {
        OverIdle(Between(level), f.head.text);
      } else {
        OverElement(level, f.head);
      }
      OverForest(level, f.tail);
      OverBoth(Between(level), Print(f.head), Between(level), PrintForest(f.tail), Between(level));
    }
  }

  // ----- Framing -----

  /** Every proper prefix of a printed element makes the scanner fail; the whole element,
   *  whatever follows, makes it stop exactly at the element's end. */
  lemma {:induction false} ElementIsFramed(n: Node, rest: string)
    requires ValidNode(n) && n.Element?
    ensures Found(Run(START, Print(n) + rest)) == Some(|Print(n)|)
    ensures forall k :: 0 <= k < |Print(n)| ==> Found(Run(START, Print(n)[..k])) == None
  {
    OverElement(0, n);
    RunInParts(START, Print(n), rest);
    forall k | 0 <= k < |Print(n)|
      ensures Found(Run(START, Print(n)[..k])) == None
    {
      StopIsStable(START, Print(n), k);
    }
  }

  /** In a ring whose border falls between the slash and the bracket of an empty element,
   *  the scanner does not find that element. */
  lemma {:induction false} SplitElementIsMissed(n: Node, high: string, rest: string)
    requires ValidNode(n) && n.Element? && n.kids.None? && high + ">" == Print(n)
    ensures Found(Run(START, high + (">" + rest))) == Some(|Print(n)|)
    ensures Found(RunRing(START, high, ">" + rest)) != Some(|Print(n)|)
  {
    var opening := "<" + n.name + (PrintAttrs(n.attrs) + n.pad);
    PrintedEmpty(n.name, n.attrs, n.pad);
    assert high == Print(n)[..|Print(n)| - 1] == opening + "/";
    OverOpening(0, n.name, n.attrs, n.pad);
    OverBoth(START, opening, InTag(1), "/", Scan(1, None, true, JustNow));
    ElementIsFramed(n, rest);
    assert high + (">" + rest) == Print(n) + rest;
    RingScanIsLinear(high, ">" + rest);
  }

  // ----- A stream of stanzas in chunks -----

  datatype Extracted = Extracted(stanzas: seq<string>, rest: string)

  function Prepend(stanza: string, e: Extracted): Extracted {
    e.(stanzas := [stanza] + e.stanzas)
  }

  /** Take stanzas from the front as long as there is a whole one. */
  function Extract(buf: string): Extracted
    decreases |buf|
  {
    match Run(START, buf)
    case Running(_) => Extracted([], buf)
    case Stopped(k) => Prepend(buf[..k], Extract(buf[k..]))
  }

  function After(stanzas: seq<string>, e: Extracted): Extracted {
    e.(stanzas := stanzas + e.stanzas)
  }

  /** What is found first, then what is found with more text behind the rest. */
  function Onward(e: Extracted, more: string): Extracted {
    After(e.stanzas, Extract(e.rest + more))
  }

  lemma {:induction false} OnwardPrepend(stanza: string, e: Extracted, more: string)
    ensures Onward(Prepend(stanza, e), more) == Prepend(stanza, Onward(e, more))
  {
    var f := Extract(e.rest + more);
    assert [stanza] + e.stanzas + f.stanzas == [stanza] + (e.stanzas + f.stanzas);
  }

  lemma {:induction false} ExtractFirst(first: string, rest: string)
    requires Run(START, first + rest) == Stopped(|first|)
    ensures Extract(first + rest) == Prepend(first, Extract(rest))
  {
    assert (first + rest)[..|first|] == first && (first + rest)[|first|..] == rest;
  }

  /** Scanning again when more has arrived finds what scanning all at once finds. */
  lemma {:induction false} ExtractInParts(a: string, b: string)
    ensures Extract(a + b) == Onward(Extract(a), b)
    decreases |a|
  {
    RunInParts(START, a, b);
    match Run(START, a)
    case Running(_) =>
    case Stopped(k) =>
      assert a + b == a[..k] + (a[k..] + b);
      ExtractFirst(a[..k], a[k..] + b);
      ExtractInParts(a[k..], b);
      OnwardPrepend(a[..k], Extract(a[k..]), b);
  }

  function Flatten(chunks: seq<string>): string {
    if chunks == [] then "" else Flatten(chunks[..|chunks| - 1]) + chunks[|chunks| - 1]
  }

  /** Extract after every arrival, keeping the rest. */
  function FeedAll(chunks: seq<string>): Extracted {
    if chunks == [] then Extracted([], "")
    else
      Onward(FeedAll(chunks[..|chunks| - 1]), chunks[|chunks| - 1])
  }

  /** How the bytes arrive does not matter. */
  lemma {:induction false} ChunksDoNotMatter(chunks: seq<string>)
    ensures FeedAll(chunks) == Extract(Flatten(chunks))
    decreases |chunks|
  {
    if chunks != [] {
      ChunksDoNotMatter(chunks[..|chunks| - 1]);
      ExtractInParts(Flatten(chunks[..|chunks| - 1]), chunks[|chunks| - 1]);
    }
  }

  predicate ValidElements(es: seq<Node>) {
    forall i :: 0 <= i < |es| ==> es[i].Element? && ValidNode(es[i])
  }

  function PrintAll(es: seq<Node>): string {
    if es == [] then "" else Print(es[0]) + PrintAll(es[1..])
  }

  function Printed(es: seq<Node>): (p: seq<string>)
    ensures |p| == |es| && forall i :: 0 <= i < |es| ==> p[i] == Print(es[i])
  {
    seq(|es|, i requires 0 <= i < |es| => Print(es[i]))
  }

  lemma {:induction false} ExtractPrinted(es: seq<Node>, partial: string)
    requires ValidElements(es) && Run(START, partial).Running?
    ensures Extract(PrintAll(es) + partial) == Extracted(Printed(es), partial)
    decreases |es|
  {
    if es == [] {
      assert PrintAll(es) + partial == partial;
    } else {
      var rest := PrintAll(es[1..]) + partial;
      assert PrintAll(es) + partial == Print(es[0]) + rest;
      ElementIsFramed(es[0], rest);
      ExtractFirst(Print(es[0]), rest);
      ExtractPrinted(es[1..], partial);
      assert Printed(es) == [Print(es[0])] + Printed(es[1..]);
    }
  }

  /** Elements printed back to back, cut into any chunks, with a proper prefix of one more
   *  element at the end: rescanning after every arrival yields exactly the elements. */
  lemma {:induction false} StreamIsFramed(es: seq<Node>, chunks: seq<string>, next: Node, k: nat)
    requires ValidElements(es) && ValidNode(next) && next.Element? && k < |Print(next)|
    requires Flatten(chunks) == PrintAll(es) + Print(next)[..k]
    ensures FeedAll(chunks) == Extracted(Printed(es), Print(next)[..k])
  {
    ElementIsFramed(next, "");
    ChunksDoNotMatter(chunks);
    ExtractPrinted(es, Print(next)[..k]);
  }
}

/** The reader's loop (xmcomp/src/reader.c) over a buffer that does not wrap. */
module Reader {
  import opened Common
  import opened Scanner
  import opened XmlFsm
  import opened Framing

  /** The text from the cursor on. */
  function Unread(data: string, buffer: BufferPtr): string
    requires buffer.data <= buffer.end == |data|
    reads buffer
  {
    data[buffer.data..]
  }

  /** Look for one more stanza behind the cursor. */
  method TakeStanza(data: string, buffer: BufferPtr) returns (ok: bool, stanza: string)
    requires buffer.data <= buffer.end == |data|
    modifies buffer`data
    ensures buffer.data <= buffer.end
    ensures ok == Run(START, old(Unread(data, buffer))).Stopped?
    ensures ok ==> old(buffer.data) < buffer.data
    ensures Extract(old(Unread(data, buffer))) ==
            if ok then Prepend(stanza, Extract(Unread(data, buffer)))
            else Extracted([], Unread(data, buffer))
  {
    var current := buffer.data;
    assert data[current..buffer.end] == data[current..];
    ok := SkipNode(data, buffer);
    stanza := data[current..buffer.data];
    if ok {
      assert data[current..][..buffer.data - current] == stanza;
      assert data[current..][buffer.data - current..] == data[buffer.data..];
    }
  }

  lemma {:induction false} TakenInOrder(stanzas: seq<string>, stanza: string, e: Extracted)
    ensures After(stanzas, Prepend(stanza, e)) == After(stanzas + [stanza], e)
  {
    assert stanzas + ([stanza] + e.stanzas) == stanzas + [stanza] + e.stanzas;
  }

  /** Hand on every whole stanza in the buffer. */
  method TakeStanzas(data: string) returns (stanzas: seq<string>, rest: string)
    ensures Extracted(stanzas, rest) == Extract(data)
  {
    var buffer := new BufferPtr(0, |data|);
    stanzas := [];
    assert Unread(data, buffer) == data;
    ghost var all := Extract(data);
    ghost var left := all;
    var ok, stanza := TakeStanza(data, buffer);
    while ok
      invariant buffer.data <= buffer.end == |data| && fresh(buffer)
      invariant all == After(stanzas, left)
      invariant left == if ok then Prepend(stanza, Extract(Unread(data, buffer)))
                        else Extracted([], Unread(data, buffer))
      decreases |data| - buffer.data, ok
    {
      TakenInOrder(stanzas, stanza, Extract(Unread(data, buffer)));
      left := Extract(Unread(data, buffer));
      stanzas := stanzas + [stanza];
      ok, stanza := TakeStanza(data, buffer);
    }
    rest := data[buffer.data..];
  }

  method ReadAll(chunks: seq<string>) returns (stanzas: seq<string>, rest: string)
    ensures Extracted(stanzas, rest) == Extract(Flatten(chunks))
  {
    stanzas, rest := [], "";
    var n := 0;
    while n < |chunks|
      invariant n <= |chunks|
      invariant Extracted(stanzas, rest) == FeedAll(chunks[..n])
    {
      var more;
      more, rest := TakeStanzas(rest + chunks[n]);
      stanzas := stanzas + more;
      assert chunks[..n + 1][..n] == chunks[..n];
      n := n + 1;
    }
    assert chunks[..|chunks|] == chunks;
    ChunksDoNotMatter(chunks);
  }
}
