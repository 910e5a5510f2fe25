/** What parsing and cleaning mean for stanzas as a server prints them. */
module PacketLaws {
  import opened Common
  import opened Jids
  import opened JidText
  import opened XmlText
  import opened XmlWalk
  import opened Headers
  import opened Packets

  // ----- Parsing undoes printing -----

  /** The place of the attribute of a name, in a list printed at `from`. */
  function PlaceOf(attrs: seq<Attr>, from: nat, name: string): Option<XmlAttr> {
    if attrs == [] then None
    else if attrs[0].name == name then Some(Located(attrs[0], from))
    else PlaceOf(attrs[1..], from + |PrintAttr(attrs[0])|, name)
  }

  function ValueOf(attrs: seq<Attr>, name: string): Option<string> {
    if attrs == [] then None
    else if attrs[0].name == name then Some(attrs[0].value)
    else ValueOf(attrs[1..], name)
  }

  // ----- The words of the protocol -----

  function TagOf(s: Stanza): string {
    match s
    case Iq => "iq"
    case Message => "message"
    case Presence => "presence"
  }

  /** A stanza without a type has no word for it. */
  function Spelling(t: Type): string {
    match t
    case NoType => ""
    case Get => "get"
    case Set => "set"
    case Result => "result"
    case Chat => "chat"
    case GroupChat => "groupchat"
    case Unavailable => "unavailable"
    case ErrorType => "error"
  }

  /** Anything may be an error; all other types belong to one stanza. */
  predicate Suits(s: Stanza, t: Type) {
    || t.ErrorType?
    || (s.Iq? && (t.Get? || t.Set? || t.Result?))
    || (s.Message? && (t.Chat? || t.GroupChat?))
    || (s.Presence? && t.Unavailable?)
  }

  lemma {:induction false} StanzaIsNamed(name: string, s: Stanza)
    ensures StanzaOf(name) == Some(s) <==> name == TagOf(s)
  {
    assert |TagOf(Iq)| == 2 && |TagOf(Message)| == 7 && |TagOf(Presence)| == 8;
  }

  lemma {:induction false} TypeIsSpelled(s: Stanza, value: string, t: Type)
    ensures TypeOf(s, value) == Some(t) <==> Suits(s, t) && value == Spelling(t)
  {
    assert Spelling(Get)[0] != Spelling(Set)[0] && |Spelling(Chat)| == 4;
    assert |Spelling(ErrorType)| == 5 && |Spelling(Result)| == 6;
    assert |Spelling(GroupChat)| == 9 && |Spelling(Unavailable)| == 11;
  }

  lemma {:induction false} AttrIsNamed(name: string)
    ensures AttrKindOf(name) == FromAttr <==> name == "from"
    ensures AttrKindOf(name) == ToAttr <==> name == "to"
    ensures AttrKindOf(name) == TypeAttr <==> name == "type"
    ensures AttrKindOf(name) == IdAttr <==> name == "id"
  {
  }

  /** Addresses must have their form, and a type must suit the stanza. */
  predicate Acceptable(s: Stanza, a: Attr) {
    match AttrKindOf(a.name)
    case FromAttr => Struct(a.value).Some?
    case ToAttr => Struct(a.value).Some?
    case TypeAttr => TypeOf(s, a.value).Some?
    case IdAttr => true
    case OtherAttr => true
  }

  predicate AllAcceptable(s: Stanza, attrs: seq<Attr>) {
    forall i :: 0 <= i < |attrs| ==> Acceptable(s, attrs[i])
  }

  /** What one attribute says, on top of what is known. */
  function Told(f: Fields, s: Stanza, a: Attr, from: nat): Fields {
    var told := Take(s, f, AttrKindOf(a.name), a.value, Located(a, from));
    if told.Some? then told.value else f
  }

  /** What the attributes of a list printed at `from` say in turn. */
  function FieldsOf(f: Fields, s: Stanza, attrs: seq<Attr>, from: nat): Fields
    decreases |attrs|
  {
    if attrs == [] then f
    else FieldsOf(Told(f, s, attrs[0], from), s, attrs[1..], from + |PrintAttr(attrs[0])|)
  }

  lemma {:induction false} SliceOf(mem: string, span: Span, text: string)
    requires Spells(mem, span, text)
    ensures Slice(mem, span) == text
  {
    AtSlice(mem, span.data, text);
  }

  lemma {:induction false} AbsentName(attrs: seq<Attr>, from: nat, name: string)
    requires !HasName(attrs, name)
    ensures PlaceOf(attrs, from, name) == None && ValueOf(attrs, name) == None
    decreases |attrs|
  {
    if attrs != [] {
      HasNameFirst(attrs, name);
      AbsentName(attrs[1..], from + |PrintAttr(attrs[0])|, name);
    }
  }

  lemma {:induction false} OneIsTaken(mem: string, s: Stanza, f: Fields, from: nat, a: Attr)
    requires IsSpelled(mem, Located(a, from), a)
    ensures TakeAttr(mem, s, f, Located(a, from)) ==
            if Acceptable(s, a) then Some(Told(f, s, a, from)) else None
  {
    SliceOf(mem, Located(a, from).name, a.name);
    SliceOf(mem, Located(a, from).value, a.value);
  }

  ghost predicate Says<T>(field: Option<T>, told: Option<T>, before: Option<T>) {
    field == if told.Some? then told else before
  }

  /** Distinct attributes: each place is where the attribute of its name is. */
  lemma {:induction false} PlacesSay(f: Fields, s: Stanza, attrs: seq<Attr>, from: nat, g: Fields)
    requires Distinct(attrs) && g == FieldsOf(f, s, attrs, from) && AllAcceptable(s, attrs)
    ensures Says(g.from, PlaceOf(attrs, from, "from"), f.from)
    ensures Says(g.to, PlaceOf(attrs, from, "to"), f.to)
    ensures Says(g.id, PlaceOf(attrs, from, "id"), f.id)
    ensures Says(g.typeAttr, PlaceOf(attrs, from, "type"), f.typeAttr)
    decreases |attrs|
  {
    if attrs != [] {
      var a, rest, next := attrs[0], attrs[1..], from + |PrintAttr(attrs[0])|;
      assert !HasName(rest, a.name);
      AbsentName(rest, next, a.name);
      AcceptableInTurn(s, attrs);
      PlacesSay(Told(f, s, a, from), s, rest, next, g);
    }
  }

  /** The first attribute says what its name stands for and leaves the rest as it was. */
  lemma {:induction false} FirstSays(f: Fields, s: Stanza, attrs: seq<Attr>, from: nat, g: Fields)
      returns (told: Fields, next: nat)
    requires attrs != [] && g == FieldsOf(f, s, attrs, from) && AllAcceptable(s, attrs)
    ensures g == FieldsOf(told, s, attrs[1..], next) && AllAcceptable(s, attrs[1..])
    ensures told.realFrom == if attrs[0].name == "from" then Struct(attrs[0].value) else f.realFrom
    ensures told.proxyTo == if attrs[0].name == "to" then Struct(attrs[0].value) else f.proxyTo
    ensures if attrs[0].name == "type" then Suits(s, told.kind) && Spelling(told.kind) == attrs[0].value
            else told.kind == f.kind
  {
    next := from + |PrintAttr(attrs[0])|;
    told := Told(f, s, attrs[0], from);
    AcceptableInTurn(s, attrs);
    if attrs[0].name == "type" {
      TypeIsSpelled(s, attrs[0].value, TypeOf(s, attrs[0].value).value);
    }
  }

  /** Distinct attributes: each value is what the attribute of its name says. */
  lemma {:induction false} ValuesSay(f: Fields, s: Stanza, attrs: seq<Attr>, from: nat, g: Fields)
    requires Distinct(attrs) && g == FieldsOf(f, s, attrs, from) && AllAcceptable(s, attrs)
    ensures var v := ValueOf(attrs, "from"); g.realFrom == if v.Some? then Struct(v.value) else f.realFrom
    ensures var v := ValueOf(attrs, "to"); g.proxyTo == if v.Some? then Struct(v.value) else f.proxyTo
    ensures var v := ValueOf(attrs, "type");
            if v.Some? then Suits(s, g.kind) && Spelling(g.kind) == v.value else g.kind == f.kind
    decreases |attrs|
  {
    if attrs != [] {
      var told, next := FirstSays(f, s, attrs, from, g);
      assert !HasName(attrs[1..], attrs[0].name);
      AbsentName(attrs[1..], next, attrs[0].name);
      ValuesSay(told, s, attrs[1..], next, g);
    }
  }

  lemma {:induction false} AcceptableInTurn(s: Stanza, attrs: seq<Attr>)
    requires attrs != []
    ensures AllAcceptable(s, attrs) <==> Acceptable(s, attrs[0]) && AllAcceptable(s, attrs[1..])
  {
    assert attrs == [attrs[0]] + attrs[1..];
  }

  lemma {:induction false} LocatedInTurn(attrs: seq<Attr>, from: nat, next: nat)
    requires attrs != [] && next == from + |PrintAttr(attrs[0])|
    ensures AllLocated(attrs, from)[0] == Located(attrs[0], from)
    ensures AllLocated(attrs, from)[1..] == AllLocated(attrs[1..], next)
  {
  }

  lemma {:induction false} ToldInTurn(f: Fields, s: Stanza, attrs: seq<Attr>, from: nat, told: Fields, next: nat)
    requires attrs != [] && next == from + |PrintAttr(attrs[0])| && told == Told(f, s, attrs[0], from)
    ensures FieldsOf(f, s, attrs, from) == FieldsOf(told, s, attrs[1..], next)
  {
  }

  lemma {:induction false} TakenFirst(mem: string, s: Stanza, f: Fields, l: seq<XmlAttr>)
    requires l != []
    ensures TakeAttrs(mem, s, f, l) ==
            match TakeAttr(mem, s, f, l[0])
            case None => None
            case Some(g) => TakeAttrs(mem, s, g, l[1..])
  {
  }

  lemma {:induction false} SpelledInTurn(mem: string, l: seq<XmlAttr>, attrs: seq<Attr>)
    requires AreSpelled(mem, l, attrs) && attrs != []
    ensures IsSpelled(mem, l[0], attrs[0]) && AreSpelled(mem, l[1..], attrs[1..])
  {
  }

  lemma {:induction false} TakenInTurn(
      mem: string, s: Stanza, f: Fields, a: Attr, from: nat, l: seq<XmlAttr>, r: Option<Fields>)
    requires l != [] && l[0] == Located(a, from) && IsSpelled(mem, l[0], a)
    requires r == TakeAttrs(mem, s, f, l)
    ensures r == if !Acceptable(s, a) then None else TakeAttrs(mem, s, Told(f, s, a, from), l[1..])
  {
    TakenFirst(mem, s, f, l);
    OneIsTaken(mem, s, f, from, a);
  }

  /** Taking the first attribute leaves the same question about the others. */
  lemma {:induction false} FirstIsTaken(
      mem: string, s: Stanza, f: Fields, attrs: seq<Attr>, from: nat, l: seq<XmlAttr>, r: Option<Fields>, g: Fields,
      next: nat, told: Fields)
    requires AreSpelled(mem, l, attrs) && l == AllLocated(attrs, from)
    requires r == TakeAttrs(mem, s, f, l) && g == FieldsOf(f, s, attrs, from)
    requires attrs != [] && next == from + |PrintAttr(attrs[0])| && told == Told(f, s, attrs[0], from)
    ensures AllAcceptable(s, attrs) <==> Acceptable(s, attrs[0]) && AllAcceptable(s, attrs[1..])
    ensures AreSpelled(mem, l[1..], attrs[1..]) && l[1..] == AllLocated(attrs[1..], next)
    ensures r == if !Acceptable(s, attrs[0]) then None else TakeAttrs(mem, s, told, l[1..])
    ensures g == FieldsOf(told, s, attrs[1..], next)
  {
    LocatedInTurn(attrs, from, next);
    SpelledInTurn(mem, l, attrs);
    TakenInTurn(mem, s, f, attrs[0], from, l, r);
    AcceptableInTurn(s, attrs);
    ToldInTurn(f, s, attrs, from, told, next);
  }

  /** The attributes are accepted if each of them is, and then say what was printed. */
  lemma {:induction false} AllAreTaken(
      mem: string, s: Stanza, f: Fields, attrs: seq<Attr>, from: nat, l: seq<XmlAttr>, r: Option<Fields>, g: Fields)
    requires AreSpelled(mem, l, attrs) && l == AllLocated(attrs, from)
    requires r == TakeAttrs(mem, s, f, l) && g == FieldsOf(f, s, attrs, from)
    ensures r.Some? <==> AllAcceptable(s, attrs)
    ensures r.Some? ==> r.value == g
    decreases |attrs|
  {
    if attrs != [] {
      var next, told := from + |PrintAttr(attrs[0])|, Told(f, s, attrs[0], from);
      FirstIsTaken(mem, s, f, attrs, from, l, r, g, next, told);
      if Acceptable(s, attrs[0]) {
        AllAreTaken(mem, s, told, attrs[1..], next, l[1..], r, g);
      }
    }
  }

  /** A printed stanza. */
  predicate IsStanza(mem: string, from: nat, e: Node) {
    e.Element? && ValidNode(e) && Distinct(e.attrs) && At(mem, from, Print(e))
  }

  function HeaderStart(from: nat, e: Node): nat
    requires e.Element?
  {
    from + 1 + |e.name|
  }

  function TagEndOf(e: Node): string
    requires e.Element?
  {
    TagEnd(e.pad, e.kids.None?)
  }

  function HeaderStop(from: nat, e: Node): nat
    requires e.Element?
  {
    HeaderStart(from, e) + |PrintAttrs(e.attrs)|
  }

  function AfterTag(from: nat, e: Node): nat
    requires e.Element?
  {
    HeaderStop(from, e) + |TagEndOf(e)|
  }

  /** The name of a printed element, and what is behind it. */
  lemma {:induction false} StanzaTag(mem: string, from: nat, e: Node)
    requires IsStanza(mem, from, e)
    ensures from <= |mem| && NameOf(mem, from) == Span(from + 1, HeaderStart(from, e))
    ensures Spells(mem, NameOf(mem, from), e.name)
    ensures Skip(mem, from, Only('<')) == from
    ensures At(mem, HeaderStart(from, e), Opening(e.attrs, TagEndOf(e)))
  {
    assert "" + Print(e) == Print(e);
    AfterNameStarts(e);
    NameIsRead(mem, from, "", e.name, AfterName(e));
    var whole := Sibling(Span(from, from + |Print(e)|), Span(from + 1, HeaderStart(from, e)));
    BehindName(mem, whole, Piece("", e), AfterTag(from, e));
  }

  lemma {:induction false} StanzaAttrs(mem: string, from: nat, e: Node, w: Walked)
    requires IsStanza(mem, from, e)
    requires HeaderStart(from, e) <= |mem| && w == WalkAttrs(mem, HeaderStart(from, e))
    ensures w.attrs == AllLocated(e.attrs, HeaderStart(from, e)) && AreSpelled(mem, w.attrs, e.attrs)
    ensures w.last == TagEndRead(AfterTag(from, e), e.kids.None?)
    ensures At(mem, HeaderStart(from, e), PrintAttrs(e.attrs))
    ensures At(mem, HeaderStop(from, e), TagEndOf(e))
  {
    StanzaTag(mem, from, e);
    var start := HeaderStart(from, e);
    AttrsAreWalked(mem, start, w, e.attrs, e.pad, e.kids.None?, AfterTag(from, e));
    AttrsAreLocated(mem, start, w, e.attrs, e.pad, e.kids.None?, AllLocated(e.attrs, start));
    AtParts(mem, start, PrintAttrs(e.attrs), HeaderStop(from, e), TagEndOf(e));
  }

  lemma {:induction false} LocatedStop(a: Attr, from: nat)
    ensures Located(a, from).value.end + 1 == from + |PrintAttr(a)|
  {
  }

  lemma {:induction false} LocatedEnd(attrs: seq<Attr>, from: nat, l: seq<XmlAttr>, to: nat)
    requires l == AllLocated(attrs, from) && to == from + |PrintAttrs(attrs)|
    ensures HeaderEnd(from, l) == to
    decreases |attrs|
  {
    if attrs != [] {
      var next := from + |PrintAttr(attrs[0])|;
      LocatedInTurn(attrs, from, next);
      LocatedStop(attrs[0], from);
      HeaderEndMoves(from, l);
      LocatedEnd(attrs[1..], next, AllLocated(attrs[1..], next), to);
    }
  }

  /** What the opening tag of a printed stanza says. */
  function HeadOf(s: Stanza, e: Node, from: nat): Head
    requires e.Element?
  {
    var start := HeaderStart(from, e);
    Head(Span(from + 1, start), s, FieldsOf(NO_FIELDS, s, e.attrs, start), Span(start, HeaderStop(from, e)),
         TagEndRead(AfterTag(from, e), e.kids.None?))
  }

  lemma {:induction false} HeadIsParsed(mem: string, from: nat, e: Node, h: Option<Head>)
    requires IsStanza(mem, from, e) && from <= |mem| && h == ParseHead(mem, from)
    ensures var s := StanzaOf(e.name);
            h == if s.Some? && AllAcceptable(s.value, e.attrs) then Some(HeadOf(s.value, e, from)) else None
  {
    StanzaTag(mem, from, e);
    SliceOf(mem, NameOf(mem, from), e.name);
    var s := StanzaOf(e.name);
    if s.Some? {
      var start := HeaderStart(from, e);
      var w := WalkAttrs(mem, start);
      StanzaAttrs(mem, from, e, w);
      AllAreTaken(mem, s.value, NO_FIELDS, e.attrs, start, w.attrs, TakeAttrs(mem, s.value, NO_FIELDS, w.attrs),
                  FieldsOf(NO_FIELDS, s.value, e.attrs, start));
      LocatedEnd(e.attrs, start, w.attrs, HeaderStop(from, e));
    }
  }

  /** Where the kids of a printed stanza are. */
  function KidsSpan(from: nat, e: Node): Option<Span>
    requires e.Element?
  {
    match e.kids
    case None => None
    case Some(f) => Some(Span(AfterTag(from, e), AfterTag(from, e) + |PrintForest(f)|))
  }

  lemma {:induction false} PrintedLength(from: nat, e: Node)
    requires e.Element?
    ensures from + |Print(e)| == AfterTag(from, e) +
            if e.kids.None? then 0 else |PrintForest(e.kids.value)| + |e.name| + 3
  {
    assert |Print(e)| == 1 + |e.name| + |AfterName(e)|;
    if e.kids.Some? {
      KidsAfterName(e);
    }
  }

  /** Counting back from the end of the stanza finds the end of the kids. */
  lemma {:induction false} InnerIsKids(from: nat, e: Node, h: Head, to: nat)
    requires e.Element? && to == from + |Print(e)| && h.tag == Span(from + 1, HeaderStart(from, e))
    requires h.last == TagEndRead(AfterTag(from, e), e.kids.None?)
    ensures InnerOf(h.tag, h.last, to) == KidsSpan(from, e) && AfterTag(from, e) <= to
  {
    PrintedLength(from, e);
  }

  lemma {:induction false} KidsStand(mem: string, from: nat, e: Node)
    requires IsStanza(mem, from, e)
    ensures e.kids.Some? ==> Spells(mem, KidsSpan(from, e).value, PrintForest(e.kids.value))
    ensures from + |Print(e)| <= |mem|
  {
    assert "" + Print(e) == Print(e);
    StanzaTag(mem, from, e);
    var whole := Sibling(Span(from, from + |Print(e)|), NameOf(mem, from));
    BehindName(mem, whole, Piece("", e), AfterTag(from, e));
  }

  // ----- The nodes inside a presence -----

  predicate IsKid(e: Node, ns: string) {
    e.Element? && e.name == "x" && ValueOf(e.attrs, "xmlns") == Some(ns)
  }

  function Count(p: seq<Piece>, ns: string): nat {
    if p == [] then 0 else (if IsKid(p[0].element, ns) then 1 else 0) + Count(p[1..], ns)
  }

  lemma {:induction false} NamedIsSpelled(mem: string, span: Span, text: string, name: string)
    requires Spells(mem, span, text)
    ensures Named(mem, span, name) <==> text == name
  {
    AtSlice(mem, span.data, text);
  }

  lemma {:induction false} ValueOfFirst(attrs: seq<Attr>, i: nat, name: string)
    requires i < |attrs| && attrs[i].name == name
    requires forall j :: 0 <= j < i ==> attrs[j].name != name
    ensures ValueOf(attrs, name) == Some(attrs[i].value)
    decreases i
  {
    if i > 0 {
      ValueOfFirst(attrs[1..], i - 1, name);
    }
  }

  /** Looking for an attribute of a printed element finds its value, or the end of the tag. */
  lemma {:induction false} AttrIsFound(mem: string, s: Sibling, p: Piece, name: string, r: AttrResult)
    requires p.element.Element? && ValidNode(p.element) && IsPiece(mem, s, p)
    requires r == FindAttr(mem, s.name.end, name)
    ensures !r.Overrun?
    ensures if r.Attribute? then ValueOf(p.element.attrs, name) == Some(Slice(mem, r.attr.value))
            else ValueOf(p.element.attrs, name) == None
  {
    var w := WalkAttrs(mem, s.name.end);
    PieceIsWalked(mem, s, w, p);
    FindAttrIsFirst(mem, s.name.end, name, r, w);
    FirstIsValue(mem, w, p.element.attrs, name, r);
  }

  lemma {:induction false} FirstIsValue(mem: string, w: Walked, attrs: seq<Attr>, name: string, r: AttrResult)
    requires AreSpelled(mem, w.attrs, attrs)
    requires !r.Attribute? ==> forall j :: 0 <= j < |w.attrs| ==> !Named(mem, w.attrs[j].name, name)
    requires r.Attribute? ==>
               && Named(mem, r.attr.name, name)
               && exists i :: 0 <= i < |w.attrs| && w.attrs[i] == r.attr &&
                    forall j :: 0 <= j < i ==> !Named(mem, w.attrs[j].name, name)
    ensures if r.Attribute? then ValueOf(attrs, name) == Some(Slice(mem, r.attr.value))
            else ValueOf(attrs, name) == None
  {
    forall j | 0 <= j < |attrs|
      ensures Named(mem, w.attrs[j].name, name) <==> attrs[j].name == name
    {
      assert IsSpelled(mem, w.attrs[j], attrs[j]);
      NamedIsSpelled(mem, w.attrs[j].name, attrs[j].name, name);
    }
    if r.Attribute? {
      var i :| 0 <= i < |w.attrs| && w.attrs[i] == r.attr &&
                 forall j :: 0 <= j < i ==> !Named(mem, w.attrs[j].name, name);
      assert IsSpelled(mem, w.attrs[i], attrs[i]);
      SliceOf(mem, r.attr.value, attrs[i].value);
      ValueOfFirst(attrs, i, name);
    } else {
      AbsentName(attrs, 0, name);
    }
  }

  /** A presence may have one node of each extension. */
  function KidAfter(k: Kids, e: Node, slice: Span): Option<Kids> {
    if IsKid(e, MUC_USER) then if k.mucUser.None? then Some(k.(mucUser := Some(slice))) else None
    else if IsKid(e, MUC) then if k.muc.None? then Some(k.(muc := Some(slice))) else None
    else Some(k)
  }

  lemma {:induction false} KidIsTaken(mem: string, k: Kids, s: Sibling, p: Piece)
    requires p.element.Element? && ValidNode(p.element) && IsPiece(mem, s, p)
    ensures TakeKid(mem, k, s) == KidAfter(k, p.element, s.slice)
    ensures IsKid(p.element, "http://jabber.org/protocol/muc") ==>
              TakeKid(mem, k, s) == if k.muc.None? then Some(k.(muc := Some(s.slice))) else None
    ensures IsKid(p.element, "http://jabber.org/protocol/muc#user") ==>
              TakeKid(mem, k, s) == if k.mucUser.None? then Some(k.(mucUser := Some(s.slice))) else None
  {
    NamedIsSpelled(mem, s.name, p.element.name, "x");
    AttrIsFound(mem, s, p, "xmlns", FindAttr(mem, s.name.end, "xmlns"));
    assert MUC_USER != MUC;
  }

  function Taken<T>(o: Option<T>): nat {
    if o.Some? then 1 else 0
  }

  predicate ValidPieces(p: seq<Piece>) {
    forall i :: 0 <= i < |p| ==> p[i].element.Element? && ValidNode(p[i].element)
  }

  predicate StartAfter(k: Kids, lo: nat) {
    (k.muc.Some? ==> lo <= k.muc.value.data) && (k.mucUser.Some? ==> lo <= k.mucUser.value.data)
  }

  /** A presence is dropped if and only if an extension comes twice. */
  lemma {:induction false} KidsAreTaken(
      mem: string, k: Kids, s: seq<Sibling>, p: seq<Piece>, lo: nat, r: Option<Kids>)
    requires ArePieces(mem, s, p) && ValidPieces(p) && r == TakeKids(mem, k, s)
    requires StartAfter(k, lo) && forall i :: 0 <= i < |s| ==> lo <= s[i].slice.data
    ensures r.Some? <==> Count(p, MUC_USER) + Taken(k.mucUser) <= 1 && Count(p, MUC) + Taken(k.muc) <= 1
    ensures r.Some? ==> StartAfter(r.value, lo)
    decreases |s|
  {
    if s != [] {
      KidIsTaken(mem, k, s[0], p[0]);
      assert MUC_USER != MUC;
      var l := KidAfter(k, p[0].element, s[0].slice);
      if l.Some? {
        KidsAreTaken(mem, l.value, s[1..], p[1..], lo, r);
      }
    }
  }

  lemma {:induction false} SiblingsFollow(mem: string, from: nat, to: nat, s: seq<Sibling>)
    requires from <= to <= |mem| && s == Siblings(mem, from, to)
    ensures forall i :: 0 <= i < |s| ==> from <= s[i].slice.data
    decreases |mem| - from
  {
    var first := NextSibling(mem, from, to);
    if first.Some? {
      SiblingsFollow(mem, first.value.slice.end, to, Siblings(mem, first.value.slice.end, to));
    }
  }

  function KidsOf(e: Node): seq<Piece>
    requires e.Element? && ValidNode(e)
  {
    if e.kids.Some? then Pieces("", e.kids.value) else []
  }

  lemma {:induction false} KidsArePieces(mem: string, from: nat, e: Node, s: seq<Sibling>)
    requires IsStanza(mem, from, e) && s == SiblingsIn(mem, KidsSpan(from, e))
    ensures ArePieces(mem, s, KidsOf(e)) && ValidPieces(KidsOf(e))
    ensures forall i :: 0 <= i < |s| ==> AfterTag(from, e) <= s[i].slice.data
  {
    KidsStand(mem, from, e);
    if e.kids.Some? {
      var f := e.kids.value;
      var span := KidsSpan(from, e).value;
      AtSlice(mem, span.data, PrintForest(f));
      assert "" + PrintForest(f) == PrintForest(f);
      ForestIsWalked(mem, span.data, span.end, s, "", f);
      SiblingsFollow(mem, span.data, span.end, s);
    }
  }

  /** No extension comes twice. */
  predicate OnePerKind(e: Node)
    requires e.Element? && ValidNode(e)
  {
    Count(KidsOf(e), MUC_USER) <= 1 && Count(KidsOf(e), MUC) <= 1
  }

  predicate RoutableStanza(s: Stanza, attrs: seq<Attr>) {
    Routable(s, FieldsOf(NO_FIELDS, s, attrs, 0))
  }

  /** When a printed stanza is accepted: the name is known, every attribute is acceptable,
   *  it can be routed, and a presence has no extension twice. */
  predicate Accepted(e: Node)
    requires e.Element? && ValidNode(e)
  {
    var s := StanzaOf(e.name);
    && s.Some? && AllAcceptable(s.value, e.attrs) && RoutableStanza(s.value, e.attrs)
    && (s.value == Presence ==> OnePerKind(e))
  }

  /** A packet holds what the attributes of the opening tag say, where they are, and where
   *  the kids are. */
  predicate Describes(p: Packet, h: Head, inner: Option<Span>, lo: nat) {
    && p.name == h.name && p.fields == h.fields && p.header == h.header
    && p.inner == inner && StartAfter(p.kids, lo)
  }

  lemma {:induction false} FinishIs(
      mem: string, h: Head, to: nat, inner: Option<Span>, k: Option<Kids>, lo: nat, p: Option<Packet>)
    requires inner == InnerOf(h.tag, h.last, to) && k == TakeKids(mem, NO_KIDS, SiblingsIn(mem, inner))
    requires p == Finish(mem, h, to) && (k.Some? ==> StartAfter(k.value, lo))
    ensures p.Some? <==> Routable(h.name, h.fields) && (h.name == Presence ==> k.Some?)
    ensures p.Some? ==> Describes(p.value, h, inner, lo)
  {
  }

  /** Where the attributes are does not matter for what they say. */
  lemma {:induction false} SaidAnywhere(f: Fields, g: Fields, s: Stanza, attrs: seq<Attr>, from: nat, to: nat)
    requires f.realFrom == g.realFrom && f.proxyTo == g.proxyTo && f.kind == g.kind
    ensures var a, b := FieldsOf(f, s, attrs, from), FieldsOf(g, s, attrs, to);
            a.realFrom == b.realFrom && a.proxyTo == b.proxyTo && a.kind == b.kind
    decreases |attrs|
  {
    if attrs != [] {
      var size := |PrintAttr(attrs[0])|;
      SaidAnywhere(Told(f, s, attrs[0], from), Told(g, s, attrs[0], to), s, attrs[1..], from + size, to + size);
    }
  }

  lemma {:induction false} KidsAreParsed(mem: string, from: nat, e: Node, k: Option<Kids>)
    requires IsStanza(mem, from, e) && k == TakeKids(mem, NO_KIDS, SiblingsIn(mem, KidsSpan(from, e)))
    ensures k.Some? <==> OnePerKind(e)
    ensures k.Some? ==> StartAfter(k.value, AfterTag(from, e))
  {
    var s := SiblingsIn(mem, KidsSpan(from, e));
    KidsArePieces(mem, from, e, s);
    KidsAreTaken(mem, NO_KIDS, s, KidsOf(e), AfterTag(from, e), k);
  }

  /** The rest of the parsing, from an opening tag on. */
  lemma {:induction false} FinishedStanza(mem: string, from: nat, e: Node, h: Head, to: nat, p: Option<Packet>)
    requires IsStanza(mem, from, e) && h == HeadOf(h.name, e, from)
    requires to == from + |Print(e)| && p == Finish(mem, h, to)
    ensures p.Some? <==> Routable(h.name, h.fields) && (h.name == Presence ==> OnePerKind(e))
    ensures p.Some? ==> Describes(p.value, h, KidsSpan(from, e), AfterTag(from, e))
  {
    var k := TakeKids(mem, NO_KIDS, SiblingsIn(mem, KidsSpan(from, e)));
    InnerIsKids(from, e, h, to);
    KidsAreParsed(mem, from, e, k);
    FinishIs(mem, h, to, KidsSpan(from, e), k, AfterTag(from, e), p);
  }

  /** A tag that can be routed is a stanza that can. */
  lemma {:induction false} RoutableAnywhere(from: nat, e: Node, h: Head)
    requires e.Element? && h == HeadOf(h.name, e, from)
    ensures Routable(h.name, h.fields) <==> RoutableStanza(h.name, e.attrs)
  {
    SaidAnywhere(NO_FIELDS, NO_FIELDS, h.name, e.attrs, HeaderStart(from, e), 0);
  }

  lemma {:induction false} ParseIs(mem: string, from: nat, to: nat, h: Option<Head>, p: Option<Packet>)
    requires from <= |mem| && h == ParseHead(mem, from) && p == Parse(mem, from, to)
    ensures p == if h.Some? then Finish(mem, h.value, to) else None
  {
  }

  /** Parsing undoes printing: a printed stanza is accepted exactly when it should be. */
  lemma {:induction false} StanzaIsAccepted(mem: string, from: nat, e: Node, to: nat, p: Option<Packet>)
    requires IsStanza(mem, from, e) && from <= |mem|
    requires to == from + |Print(e)| && p == Parse(mem, from, to)
    ensures p.Some? <==> Accepted(e)
  {
    var h := ParseHead(mem, from);
    HeadIsParsed(mem, from, e, h);
    ParseIs(mem, from, to, h, p);
    if h.Some? {
      FinishedStanza(mem, from, e, h.value, to, p);
      RoutableAnywhere(from, e, h.value);
    }
  }

  /** When that is, in the words of the protocol: a known tag; a sender and an addressee, both of
   *  them addresses; a type, if any, that the stanza may have; a room to go to unless it is a
   *  query; for a message to the whole room, the type that says so; and in a presence none of
   *  the two extensions more than once. */
  predicate InOrder(s: Stanza, attrs: seq<Attr>) {
    var from, to, kind := ValueOf(attrs, "from"), ValueOf(attrs, "to"), ValueOf(attrs, "type");
    && from.Some? && Struct(from.value).Some?
    && to.Some? && Struct(to.value).Some?
    && (kind.Some? ==> exists t :: Suits(s, t) && Spelling(t) == kind.value)
    && var room := Struct(to.value).value;
       && (s == Message || s == Presence ==> room.node != None && room.node != Some(""))
       && (s == Message && room.resource == None ==> kind == Some("groupchat"))
  }

  lemma {:induction false} AcceptableIff(s: Stanza, a: Attr)
    ensures Acceptable(s, a) <==>
            && (a.name == "from" || a.name == "to" ==> Struct(a.value).Some?)
            && (a.name == "type" ==> exists t :: Suits(s, t) && Spelling(t) == a.value)
  {
    if TypeOf(s, a.value).Some? {
      TypeIsSpelled(s, a.value, TypeOf(s, a.value).value);
    }
    if t :| Suits(s, t) && Spelling(t) == a.value {
      TypeIsSpelled(s, a.value, t);
    }
  }

  lemma {:induction false} ValueStands(attrs: seq<Attr>, name: string)
    ensures var v := ValueOf(attrs, name);
            v.Some? ==> exists i :: 0 <= i < |attrs| && attrs[i].name == name && attrs[i].value == v.value
    decreases |attrs|
  {
    if attrs != [] && attrs[0].name != name {
      ValueStands(attrs[1..], name);
      var v := ValueOf(attrs[1..], name);
      if v.Some? {
        var i :| 0 <= i < |attrs[1..]| && attrs[1..][i].name == name && attrs[1..][i].value == v.value;
        assert attrs[i + 1] == attrs[1..][i];
      }
    }
  }

  /** Distinct attributes are acceptable if and only if the three that matter are. */
  lemma {:induction false} AllAcceptableIff(s: Stanza, attrs: seq<Attr>)
    requires Distinct(attrs)
    ensures AllAcceptable(s, attrs) <==>
            var from, to, kind := ValueOf(attrs, "from"), ValueOf(attrs, "to"), ValueOf(attrs, "type");
            && (from.Some? ==> Struct(from.value).Some?) && (to.Some? ==> Struct(to.value).Some?)
            && (kind.Some? ==> exists t :: Suits(s, t) && Spelling(t) == kind.value)
  {
    forall i | 0 <= i < |attrs|
      ensures ValueOf(attrs, attrs[i].name) == Some(attrs[i].value)
      ensures Acceptable(s, attrs[i]) <==>
              && (attrs[i].name == "from" || attrs[i].name == "to" ==> Struct(attrs[i].value).Some?)
              && (attrs[i].name == "type" ==> exists t :: Suits(s, t) && Spelling(t) == attrs[i].value)
    {
      ValueOfFirst(attrs, i, attrs[i].name);
      AcceptableIff(s, attrs[i]);
    }
    ValueStands(attrs, "from");
    ValueStands(attrs, "to");
    ValueStands(attrs, "type");
  }

  lemma {:induction false} GroupChatIsSpelled(s: Stanza, t: Type)
    requires s == Message
    ensures Suits(s, t) && Spelling(t) == "groupchat" <==> t == GroupChat
  {
    TypeIsSpelled(s, Spelling(t), t);
    TypeIsSpelled(s, "groupchat", GroupChat);
  }

  lemma {:induction false} RoutableIff(s: Stanza, attrs: seq<Attr>)
    requires Distinct(attrs)
    ensures AllAcceptable(s, attrs) && RoutableStanza(s, attrs) <==> InOrder(s, attrs)
  {
    AllAcceptableIff(s, attrs);
    if AllAcceptable(s, attrs) {
      var f := FieldsOf(NO_FIELDS, s, attrs, 0);
      ValuesSay(NO_FIELDS, s, attrs, 0, f);
      if s == Message {
        GroupChatIsSpelled(s, f.kind);
      }
    }
  }

  lemma {:induction false} AcceptedIff(e: Node)
    requires e.Element? && ValidNode(e) && Distinct(e.attrs)
    ensures Accepted(e) <==>
            exists s: Stanza :: e.name == TagOf(s) && InOrder(s, e.attrs) &&
              (s == Presence ==>
                 && Count(KidsOf(e), "http://jabber.org/protocol/muc#user") <= 1
                 && Count(KidsOf(e), "http://jabber.org/protocol/muc") <= 1)
  {
    forall s: Stanza
      ensures StanzaOf(e.name) == Some(s) <==> e.name == TagOf(s)
      ensures AllAcceptable(s, e.attrs) && RoutableStanza(s, e.attrs) <==> InOrder(s, e.attrs)
    {
      StanzaIsNamed(e.name, s);
      RoutableIff(s, e.attrs);
    }
  }

  /** Then the packet describes it. */
  lemma {:induction false} StanzaIsDescribed(
      mem: string, from: nat, e: Node, h: Option<Head>, to: nat, p: Option<Packet>)
    requires IsStanza(mem, from, e) && from <= |mem|
    requires h == ParseHead(mem, from)
    requires to == from + |Print(e)| && p == Parse(mem, from, to) && p.Some?
    ensures h.Some? && StanzaOf(e.name) == Some(h.value.name) && h.value == HeadOf(h.value.name, e, from)
    ensures Describes(p.value, h.value, KidsSpan(from, e), AfterTag(from, e))
  {
    HeadIsParsed(mem, from, e, h);
    ParseIs(mem, from, to, h, p);
    FinishedStanza(mem, from, e, h.value, to, p);
  }

  /** An accepted packet has the tag of the stanza, the two addresses, and the type that its
   *  attribute spells; without that attribute it has none. */
  lemma {:induction false} PacketSays(mem: string, from: nat, e: Node, to: nat, p: Packet)
    requires IsStanza(mem, from, e) && from <= |mem|
    requires to == from + |Print(e)| && Parse(mem, from, to) == Some(p)
    ensures e.name == TagOf(p.name)
    ensures var v := ValueOf(e.attrs, "from"); v.Some? && p.fields.realFrom == Struct(v.value)
    ensures var v := ValueOf(e.attrs, "to"); v.Some? && p.fields.proxyTo == Struct(v.value)
    ensures var v := ValueOf(e.attrs, "type");
            if v.Some? then Suits(p.name, p.fields.kind) && Spelling(p.fields.kind) == v.value
            else p.fields.kind == NoType
  {
    var h := ParseHead(mem, from);
    StanzaIsAccepted(mem, from, e, to, Some(p));
    StanzaIsDescribed(mem, from, e, h, to, Some(p));
    StanzaIsNamed(e.name, p.name);
    RoutableIff(p.name, e.attrs);
    ValuesSay(NO_FIELDS, p.name, e.attrs, HeaderStart(from, e), p.fields);
  }

  lemma {:induction false} PrintedKidsEnd(mem: string, from: nat, e: Node, s: seq<Sibling>)
    requires IsStanza(mem, from, e) && s == SiblingsIn(mem, KidsSpan(from, e))
    ensures KidsEnd(mem, s)
  {
    KidsArePieces(mem, from, e, s);
    forall i | 0 <= i < |s|
      ensures s[i].name.end <= |mem| && !FindAttr(mem, s[i].name.end, "xmlns").Overrun?
    {
      AttrIsFound(mem, s[i], KidsOf(e)[i], "xmlns", FindAttr(mem, s[i].name.end, "xmlns"));
    }
  }

  lemma {:induction false} PrintedHeadEnds(mem: string, from: nat, e: Node)
    requires IsStanza(mem, from, e) && from + |Print(e)| <= |mem|
    ensures HeadEnds(mem, from, from + |Print(e)|)
    ensures WalkAttrs(mem, HeaderStart(from, e)).last == TagEndRead(AfterTag(from, e), e.kids.None?)
  {
    StanzaTag(mem, from, e);
    StanzaAttrs(mem, from, e, WalkAttrs(mem, HeaderStart(from, e)));
    PrintedLength(from, e);
  }

  lemma {:induction false} PrintedInnerEnds(mem: string, from: nat, e: Node, h: Head)
    requires IsStanza(mem, from, e) && h == HeadOf(Iq, e, from)
    ensures InnerEnds(mem, h.tag, h.last, from + |Print(e)|)
  {
    InnerIsKids(from, e, h, from + |Print(e)|);
    KidsStand(mem, from, e);
    PrintedKidsEnd(mem, from, e, SiblingsIn(mem, KidsSpan(from, e)));
  }

  /** A printed stanza is never read past its end. */
  lemma {:induction false} PrintedIsReadable(mem: string, from: nat, e: Node)
    requires IsStanza(mem, from, e)
    ensures from + |Print(e)| <= |mem| && Readable(mem, from, from + |Print(e)|)
  {
    KidsStand(mem, from, e);
    StanzaTag(mem, from, e);
    PrintedHeadEnds(mem, from, e);
    PrintedInnerEnds(mem, from, e, HeadOf(Iq, e, from));
  }
}
