/** Parsing a stanza and cleaning its header in place (src/packet.c). */
module Packets {
  import opened Common
  import opened Jids
  import opened JidText
  import opened XmlText
  import opened XmlFsm
  import opened XmlWalk
  import opened XmlWalker
  import opened Headers

  datatype Stanza = Message | Presence | Iq

  datatype Type = NoType | ErrorType | Chat | GroupChat | Unavailable | Get | Set | Result

  function StanzaOf(name: string): Option<Stanza> {
    match name
    case "message" => Some(Message)
    case "presence" => Some(Presence)
    case "iq" => Some(Iq)
    case _ => None
  }

  /** set_type: the type that a value means, if it is one the stanza may have. */
  function TypeOf(s: Stanza, value: string): Option<Type> {
    if value == "error" then Some(ErrorType)
    else
      match s
      case Message =>
        if value == "chat" then Some(Chat) else if value == "groupchat" then Some(GroupChat) else None
      case Presence =>
        if value == "unavailable" then Some(Unavailable) else None
      case Iq =>
        if value == "get" then Some(Get) else if value == "set" then Some(Set)
        else if value == "result" then Some(Result) else None
  }

  function Slice(mem: string, span: Span): string {
    if span.data <= span.end <= |mem| then mem[span.data..span.end] else ""
  }

  /** What the attributes of a stanza say. */
  datatype Fields = Fields(
    realFrom: Option<Jid>, proxyTo: Option<Jid>, kind: Type,
    from: Option<XmlAttr>, to: Option<XmlAttr>, id: Option<XmlAttr>, typeAttr: Option<XmlAttr>)

  const NO_FIELDS := Fields(None, None, NoType, None, None, None, None)

  /** The extensions of XEP-0045 in a presence. */
  datatype Kids = Kids(muc: Option<Span>, mucUser: Option<Span>)

  datatype Packet = Packet(name: Stanza, fields: Fields, header: Span, inner: Option<Span>, kids: Kids)

  /** The attributes that the program looks at. */
  datatype AttrKind = FromAttr | ToAttr | TypeAttr | IdAttr | OtherAttr

  function AttrKindOf(name: string): AttrKind {
    match name
    case "from" => FromAttr
    case "to" => ToAttr
    case "type" => TypeAttr
    case "id" => IdAttr
    case _ => OtherAttr
  }

  /** An attribute with a value, somewhere; None drops the stanza. */
  function Take(s: Stanza, f: Fields, kind: AttrKind, value: string, a: XmlAttr): Option<Fields> {
    match kind
    case FromAttr => var j := Struct(value); if j.None? then None else Some(f.(realFrom := j, from := Some(a)))
    case ToAttr => var j := Struct(value); if j.None? then None else Some(f.(proxyTo := j, to := Some(a)))
    case TypeAttr =>
      var t := TypeOf(s, value);
      if t.None? then None else Some(f.(kind := t.value, typeAttr := Some(a)))
    case IdAttr => Some(f.(id := Some(a)))
    case OtherAttr => Some(f)
  }

  function TakeAttr(mem: string, s: Stanza, f: Fields, a: XmlAttr): Option<Fields> {
    Take(s, f, AttrKindOf(Slice(mem, a.name)), Slice(mem, a.value), a)
  }

  function TakeAttrs(mem: string, s: Stanza, f: Fields, attrs: seq<XmlAttr>): Option<Fields>
    decreases |attrs|
  {
    if attrs == [] then Some(f)
    else
      match TakeAttr(mem, s, f, attrs[0])
      case None => None
      case Some(g) => TakeAttrs(mem, s, g, attrs[1..])
  }

  const MUC_USER := "http://jabber.org/protocol/muc#user"
  const MUC := "http://jabber.org/protocol/muc"

  /** One node inside a presence; None drops the stanza. */
  function TakeKid(mem: string, k: Kids, s: Sibling): Option<Kids> {
    if !Named(mem, s.name, "x") then Some(k)
    else
      var r := FindAttr(mem, s.name.end, "xmlns");
      if !r.Attribute? then Some(k)
      else if Slice(mem, r.attr.value) == MUC_USER then
        if k.mucUser.None? then Some(k.(mucUser := Some(s.slice))) else None
      else if Slice(mem, r.attr.value) == MUC then
        if k.muc.None? then Some(k.(muc := Some(s.slice))) else None
      else Some(k)
  }

  function TakeKids(mem: string, k: Kids, s: seq<Sibling>): Option<Kids>
    decreases |s|
  {
    if s == [] then Some(k)
    else
      match TakeKid(mem, k, s[0])
      case None => None
      case Some(l) => TakeKids(mem, l, s[1..])
  }

  /** Messages and presences must name a room, and messages to the room must be for all. */
  predicate Routable(s: Stanza, f: Fields) {
    && f.realFrom.Some? && f.proxyTo.Some?
    && (s != Iq ==> f.proxyTo.value.node.Some? && f.proxyTo.value.node.value != "")
    && (s == Message && f.proxyTo.value.resource.None? ==> f.kind == GroupChat)
  }

  /** The end of the last attribute, if there are any. */
  function HeaderEnd(end: nat, attrs: seq<XmlAttr>): nat {
    if attrs == [] then end else attrs[|attrs| - 1].value.end + 1
  }

  lemma {:induction false} HeaderEndMoves(end: nat, attrs: seq<XmlAttr>)
    requires attrs != []
    ensures HeaderEnd(attrs[0].value.end + 1, attrs[1..]) == HeaderEnd(end, attrs)
  {
  }

  /** The inside of a node that ends at `to`: the closing tag is taken to be exactly `</name>`. */
  function InnerOf(name: Span, last: AttrResult, to: nat): Option<Span> {
    var tag := name.end - name.data + 3;
    if last.NoAttr? && name.data <= name.end && tag <= to then Some(Span(last.next, to - tag)) else None
  }

  function SiblingsIn(mem: string, inner: Option<Span>): seq<Sibling> {
    if inner.Some? && inner.value.data <= inner.value.end <= |mem|
    then Siblings(mem, inner.value.data, inner.value.end) else []
  }

  const NO_KIDS := Kids(None, None)

  /** The opening tag of a stanza, read. */
  datatype Head = Head(tag: Span, name: Stanza, fields: Fields, header: Span, last: AttrResult)

  function ParseHead(mem: string, from: nat): Option<Head>
    requires from <= |mem|
  {
    var tag := NameOf(mem, from);
    var s := StanzaOf(Slice(mem, tag));
    if s.None? then None
    else
      var w := WalkAttrs(mem, tag.end);
      var f := TakeAttrs(mem, s.value, NO_FIELDS, w.attrs);
      if f.None? then None
      else Some(Head(tag, s.value, f.value, Span(tag.end, HeaderEnd(tag.end, w.attrs)), w.last))
  }

  function Finish(mem: string, h: Head, to: nat): Option<Packet> {
    var inner := InnerOf(h.tag, h.last, to);
    if !Routable(h.name, h.fields) then None
    else if h.name != Presence then Some(Packet(h.name, h.fields, h.header, inner, NO_KIDS))
    else
      match TakeKids(mem, NO_KIDS, SiblingsIn(mem, inner))
      case None => None
      case Some(k) => Some(Packet(h.name, h.fields, h.header, inner, k))
  }

  /** packet_parse; None drops the stanza. */
  function Parse(mem: string, from: nat, to: nat): Option<Packet>
    requires from <= |mem|
  {
    match ParseHead(mem, from)
    case None => None
    case Some(h) => Finish(mem, h, to)
  }

  // ----- What a clean-up writes -----

  /** From the name of an attribute to its closing quote. */
  predicate InAttr(a: Option<XmlAttr>, i: int) {
    a.Some? && a.value.name.data <= i <= a.value.value.end
  }

  predicate InSpan(s: Option<Span>, i: int) {
    s.Some? && s.value.data <= i < s.value.end
  }

  /** In an attribute that the mode overwrites. */
  predicate InBlanked(f: Fields, m: CleanUp, i: int) {
    || (m.id && InAttr(f.id, i))
    || (m.to && InAttr(f.to, i))
    || (m.from && !m.swap && InAttr(f.from, i))
  }

  predicate Blanked(p: Packet, m: CleanUp, i: int) {
    || InSpan(p.kids.muc, i) || InSpan(p.kids.mucUser, i)
    || InAttr(p.fields.typeAttr, i)
    || InBlanked(p.fields, m, i)
  }

  predicate InNewName(p: Packet, m: CleanUp, i: int) {
    m.Switches() && p.fields.from.Some? && 0 <= i - p.fields.from.value.name.data < 4
  }

  function CleanChar(c: char, p: Packet, m: CleanUp, i: int): char {
    if InNewName(p, m, i) then "  to"[i - p.fields.from.value.name.data]
    else if Blanked(p, m, i) then ' ' else c
  }

  predicate IsCleaned(before: string, after: string, p: Packet, m: CleanUp) {
    |after| == |before| && forall i :: 0 <= i < |after| ==> after[i] == CleanChar(before[i], p, m, i)
  }

  // ----- Where the program reads -----

  /** Looking for the namespace of a sibling finds the end of its attributes. */
  predicate KidsEnd(mem: string, s: seq<Sibling>) {
    forall i :: 0 <= i < |s| && Named(mem, s[i].name, "x") ==>
      s[i].name.end <= |mem| && !FindAttr(mem, s[i].name.end, "xmlns").Overrun?
  }

  predicate HeadEnds(mem: string, from: nat, to: nat)
    requires from <= to <= |mem|
  {
    var tag := NameOf(mem, from);
    Skip(mem, from, Only('<')) < to && tag.end < |mem| && !WalkAttrs(mem, tag.end).last.Overrun?
  }

  /** There is room for a closing tag. */
  predicate InnerEnds(mem: string, tag: Span, last: AttrResult, to: nat) {
    last.NoAttr? ==>
      && tag.end - tag.data + 3 <= to <= |mem|
      && last.next <= to - (tag.end - tag.data + 3)
      && KidsEnd(mem, SiblingsIn(mem, InnerOf(tag, last, to)))
  }

  /** The program never checks for the end of the stanza; this is what it relies on. */
  predicate Readable(mem: string, from: nat, to: nat)
    requires from <= to <= |mem|
  {
    var tag := NameOf(mem, from);
    HeadEnds(mem, from, to) && InnerEnds(mem, tag, WalkAttrs(mem, tag.end).last, to)
  }

  /** What was just read is the first of what is still to be walked. */
  predicate IsAhead(mem: string, r: AttrResult, w: Walked) {
    if r.Attribute? then
      r.next <= |mem| && w.attrs != [] && w.attrs[0] == r.attr &&
      Walked(w.attrs[1..], w.last) == WalkAttrs(mem, r.next)
    else w == Walked([], r)
  }

  method ReadOn(mem: string, buffer: BufferPtr, ghost w: Walked) returns (r: AttrResult)
    requires buffer.data <= |mem| && w == WalkAttrs(mem, buffer.data) && !w.last.Overrun?
    modifies buffer`data
    ensures !r.Overrun? && buffer.data == r.next <= |mem| && old(buffer.data) < buffer.data
    ensures r.Attribute? ==> r.attr.value.end + 1 == r.next
    ensures IsAhead(mem, r, w)
  {
    r := ReadAttr(mem, buffer);
  }

  class IncomingPacket {
    var name: Stanza
    var kind: Type
    var realFrom: Option<Jid>
    var proxyTo: Option<Jid>
    var header: Span
    var inner: Option<Span>
    var fromAttr: Option<XmlAttr>
    var toAttr: Option<XmlAttr>
    var idAttr: Option<XmlAttr>
    var typeAttr: Option<XmlAttr>
    var muc: Option<Span>
    var mucUser: Option<Span>

    constructor ()
      ensures Taken() == NO_FIELDS && muc == None && mucUser == None
    {
      name, kind, realFrom, proxyTo := Message, NoType, None, None;
      header, inner := Span(0, 0), None;
      fromAttr, toAttr, idAttr, typeAttr := None, None, None, None;
      muc, mucUser := None, None;
    }

    ghost function Taken(): Fields
      reads this
    {
      Fields(realFrom, proxyTo, kind, fromAttr, toAttr, idAttr, typeAttr)
    }

    ghost function Contents(): Packet
      reads this
    {
      Packet(name, Taken(), header, inner, Kids(muc, mucUser))
    }

    /** The body of the loop over the attributes. */
    method TakeOne(mem: string, attr: XmlAttr) returns (ok: bool)
      modifies this`realFrom, this`proxyTo, this`kind, this`fromAttr, this`toAttr, this`idAttr, this`typeAttr
      ensures var f := TakeAttr(mem, name, old(Taken()), attr);
              ok == f.Some? && (ok ==> Taken() == f.value)
    {
      var attrName := Slice(mem, attr.name);
      var value := Slice(mem, attr.value);
      ok := true;
      if attrName == "from" {
        var j := JidStruct(value);
        if j.None? {
          return false;
        }
        realFrom := j;
        fromAttr := Some(attr);
      } else if attrName == "to" {
        var j := JidStruct(value);
        if j.None? {
          return false;
        }
        proxyTo := j;
        toAttr := Some(attr);
      } else if attrName == "type" {
        var t := TypeOf(name, value);
        if t.None? {
          return false;
        }
        kind := t.value;
        typeAttr := Some(attr);
      } else if attrName == "id" {
        idAttr := Some(attr);
      }
    }

    /** The loop over the attributes. */
    method TakeHeader(mem: string, buffer: BufferPtr) returns (ok: bool, last: AttrResult)
      requires buffer.data <= |mem| && !WalkAttrs(mem, buffer.data).last.Overrun?
      requires header.data == header.end == buffer.data
      modifies buffer`data, this`realFrom, this`proxyTo, this`kind, this`fromAttr, this`toAttr, this`idAttr,
               this`typeAttr, this`header
      ensures var w := WalkAttrs(mem, old(buffer.data));
              var f := TakeAttrs(mem, name, old(Taken()), w.attrs);
              && ok == f.Some?
              && (ok ==> Taken() == f.value && last == w.last && buffer.data == w.last.next
                         && header == Span(old(buffer.data), HeaderEnd(old(buffer.data), w.attrs)))
    {
      ghost var from := buffer.data;
      ghost var w := WalkAttrs(mem, from);
      ghost var all := TakeAttrs(mem, name, Taken(), w.attrs);
      ghost var left := w;
      last := ReadOn(mem, buffer, left);
      while last.Attribute?
        invariant !last.Overrun? && buffer.data == last.next <= |mem|
        invariant last.Attribute? ==> last.attr.value.end + 1 == last.next
        invariant IsAhead(mem, last, left) && left.last == w.last
        invariant all == TakeAttrs(mem, name, Taken(), left.attrs)
        invariant header.data == from && HeaderEnd(header.end, left.attrs) == HeaderEnd(from, w.attrs)
        decreases |mem| - buffer.data, last.Attribute?
      {
        HeaderEndMoves(header.end, left.attrs);
        header := header.(end := buffer.data);
        ok := TakeOne(mem, last.attr);
        if !ok {
          return;
        }
        left := WalkAttrs(mem, buffer.data);
        last := ReadOn(mem, buffer, left);
      }
      ok := true;
    }

    /** The body of the loop over the nodes inside a presence. */
    method TakeChild(mem: string, nodes: XmlNodeTraverser, ghost s: Sibling) returns (ok: bool)
      requires nodes.IsAt(s) && s.name.data <= s.name.end <= |mem|
      requires Named(mem, s.name, "x") ==> !FindAttr(mem, s.name.end, "xmlns").Overrun?
      modifies nodes.node`data, this`muc, this`mucUser
      ensures var k := TakeKid(mem, old(Kids(muc, mucUser)), s);
              ok == k.Some? && (ok ==> Kids(muc, mucUser) == k.value)
    {
      if mem[nodes.nodeName.data..nodes.nodeName.end] == "x" {
        var slice := Span(nodes.nodeStart, nodes.node.end);
        var r := SkipToAttr(mem, nodes.node, "xmlns");
        if !r.Attribute? {
          return true;
        }
        if Slice(mem, r.attr.value) == MUC_USER {
          if mucUser.Some? {
            return false;
          }
          mucUser := Some(slice);
        } else if Slice(mem, r.attr.value) == MUC {
          if muc.Some? {
            return false;
          }
          muc := Some(slice);
        }
      }
      return true;
    }

    /** parse_presence_inner. */
    method TakeInner(mem: string) returns (ok: bool)
      requires inner.Some? ==> inner.value.data <= inner.value.end <= |mem|
      requires KidsEnd(mem, SiblingsIn(mem, inner))
      modifies this`muc, this`mucUser
      ensures var k := TakeKids(mem, old(Kids(muc, mucUser)), SiblingsIn(mem, inner));
              ok == k.Some? && (ok ==> Kids(muc, mucUser) == k.value)
    {
      var start, end := 0, 0;
      if inner.Some? {
        start, end := inner.value.data, inner.value.end;
      }
      var nodes := new XmlNodeTraverser(start, end);
      ghost var all := TakeKids(mem, Kids(muc, mucUser), SiblingsIn(mem, inner));
      NoTextNoSiblings(mem);
      ghost var left := SiblingsIn(mem, inner);
      ghost var sibling := NextSibling(mem, start, end);
      ok := nodes.NextSibling(mem);
      while ok
        invariant fresh(nodes) && fresh(nodes.buffer) && fresh(nodes.node)
        invariant nodes.Valid(mem) && nodes.buffer.end == end
        invariant ok == (left != []) && (ok ==> nodes.IsAt(left[0]) && left[0].name.data <= left[0].name.end <= |mem|)
        invariant ok ==> left[1..] == Siblings(mem, nodes.buffer.data, end)
        invariant KidsEnd(mem, left)
        invariant all == TakeKids(mem, Kids(muc, mucUser), left)
        decreases |left|
      {
        ok := TakeChild(mem, nodes, left[0]);
        if !ok {
          return;
        }
        left := left[1..];
        ok := nodes.NextSibling(mem);
      }
      ok := true;
    }

    /** The opening tag. */
    method ReadHead(mem: string, buffer: BufferPtr) returns (ok: bool, tag: Span, last: AttrResult)
      requires buffer.data <= buffer.end <= |mem| && HeadEnds(mem, buffer.data, buffer.end)
      requires Taken() == NO_FIELDS
      modifies buffer`data, this`realFrom, this`proxyTo, this`kind, this`fromAttr, this`toAttr, this`idAttr,
               this`typeAttr, this`header, this`name
      ensures var h := ParseHead(mem, old(buffer.data));
              && ok == h.Some?
              && (ok ==> h.value == Head(tag, name, Taken(), header, last)
                         && tag == NameOf(mem, old(buffer.data))
                         && last == WalkAttrs(mem, tag.end).last && buffer.data == last.next)
    {
      last := Overrun;
      tag := ReadName(mem, buffer);
      var s := StanzaOf(mem[tag.data..tag.end]);
      if s.None? {
        return false, tag, last;
      }
      name := s.value;
      header := Span(buffer.data, buffer.data);
      ok, last := TakeHeader(mem, buffer);
    }

    /** The checks, and the inside of a presence. */
    method FinishFrom(mem: string, buffer: BufferPtr, tag: Span, last: AttrResult) returns (ok: bool)
      requires (last.NoAttr? || last.EmptyNode?) && buffer.data == last.next
      requires tag.data <= tag.end && InnerEnds(mem, tag, last, buffer.end)
      requires inner == muc == mucUser == None
      modifies this`inner, this`muc, this`mucUser
      ensures var p := Finish(mem, Head(tag, name, Taken(), header, last), buffer.end);
              ok == p.Some? && (ok ==> Contents() == p.value)
    {
      if !last.EmptyNode? {
        inner := Some(Span(buffer.data, buffer.end - (tag.end - tag.data) - 3));
      }
      assert inner == InnerOf(tag, last, buffer.end);

      if realFrom.None? || proxyTo.None? {
        return false;
      }
      if name == Message || name == Presence {
        if proxyTo.value.node.None? || |proxyTo.value.node.value| == 0 {
          return false;
        }
        if name == Message && proxyTo.value.resource.None? && kind != GroupChat {
          return false;
        }
      }
      ok := true;
      if name == Presence {
        ok := TakeInner(mem);
      }
    }

    ghost predicate FitsIn(size: nat)
      reads this
    {
      && (muc.Some? ==> muc.value.data <= muc.value.end <= size)
      && (mucUser.Some? ==> mucUser.value.data <= mucUser.value.end <= size)
      && (forall a :: a in {fromAttr, toAttr, idAttr, typeAttr} && a.Some? ==>
            a.value.name.data <= a.value.value.end < size)
    }

    /** What every clean-up overwrites. */
    method FillAlways(mem: array<char>)
      requires FitsIn(mem.Length)
      modifies mem
      ensures forall i :: 0 <= i < mem.Length ==>
                mem[i] == if InSpan(muc, i) || InSpan(mucUser, i) || InAttr(typeAttr, i) then ' ' else old(mem[i])
    {
      FillSpan(mem, muc);
      FillSpan(mem, mucUser);
      FillAttr(mem, typeAttr);
    }

    /** What the mode asks for. */
    method FillAsked(mem: array<char>, m: CleanUp)
      requires FitsIn(mem.Length)
      requires (m.id ==> idAttr.Some?) && (m.to ==> toAttr.Some?) && (m.from ==> fromAttr.Some?)
      requires m.Switches() ==> fromAttr.value.name.data + 4 <= mem.Length
      modifies mem
      ensures forall i :: 0 <= i < mem.Length ==>
                mem[i] == if InNewName(Contents(), m, i) then "  to"[i - fromAttr.value.name.data]
                          else if InBlanked(Taken(), m, i) then ' ' else old(mem[i])
    {
      if m.id {
        FillAttr(mem, idAttr);
      }
      if m.to {
        FillAttr(mem, toAttr);
      }
      if m.Switches() {
        Rename(mem, fromAttr.value.name.data);
      } else if m.from {
        FillAttr(mem, fromAttr);
      }
    }

    /** packet_cleanup: the mode may only ask for attributes that the stanza has. */
    method Cleanup(mem: array<char>, m: CleanUp)
      requires FitsIn(mem.Length)
      requires (m.id ==> idAttr.Some?) && (m.to ==> toAttr.Some?) && (m.from ==> fromAttr.Some?)
      requires m.Switches() ==> fromAttr.value.name.data + 4 <= mem.Length
      modifies mem
      ensures IsCleaned(old(mem[..]), mem[..], Contents(), m)
    {
      FillAlways(mem);
      FillAsked(mem, m);
    }

    /** packet_parse. */
    method ParseFrom(mem: string, buffer: BufferPtr) returns (ok: bool)
      requires buffer.data <= buffer.end <= |mem| && Readable(mem, buffer.data, buffer.end)
      modifies this, buffer`data
      ensures var p := Parse(mem, old(buffer.data), buffer.end);
              ok == p.Some? && (ok ==> Contents() == p.value)
    {
      kind, realFrom, proxyTo, inner := NoType, None, None, None;
      fromAttr, toAttr, idAttr, typeAttr, muc, mucUser := None, None, None, None, None, None;
      var tag, last;
      ok, tag, last := ReadHead(mem, buffer);
      if ok {
        ok := FinishFrom(mem, buffer, tag, last);
      }
    }
  }

  method Fill(mem: array<char>, from: nat, to: nat)
    requires from <= to <= mem.Length
    modifies mem
    ensures forall i :: 0 <= i < mem.Length ==> mem[i] == if from <= i < to then ' ' else old(mem[i])
  {
    var k := from;
    while k < to
      invariant from <= k <= to
      invariant forall i :: 0 <= i < mem.Length ==> mem[i] == if from <= i < k then ' ' else old(mem[i])
    {
      mem[k] := ' ';
      k := k + 1;
    }
  }

  method FillSpan(mem: array<char>, s: Option<Span>)
    requires s.Some? ==> s.value.data <= s.value.end <= mem.Length
    modifies mem
    ensures forall i :: 0 <= i < mem.Length ==> mem[i] == if InSpan(s, i) then ' ' else old(mem[i])
  {
    if s.Some? {
      Fill(mem, s.value.data, s.value.end);
    }
  }

  method FillAttr(mem: array<char>, a: Option<XmlAttr>)
    requires a.Some? ==> a.value.name.data <= a.value.value.end < mem.Length
    modifies mem
    ensures forall i :: 0 <= i < mem.Length ==> mem[i] == if InAttr(a, i) then ' ' else old(mem[i])
  {
    if a.Some? {
      Fill(mem, a.value.name.data, a.value.value.end + 1);
    }
  }

  method Rename(mem: array<char>, at: nat)
    requires at + 4 <= mem.Length
    modifies mem
    ensures forall i :: 0 <= i < mem.Length ==>
              mem[i] == if 0 <= i - at < 4 then "  to"[i - at] else old(mem[i])
  {
    mem[at] := ' ';
    mem[at + 1] := ' ';
    mem[at + 2] := 't';
    mem[at + 3] := 'o';
  }

  lemma {:induction false} NoTextNoSiblings(mem: string)
    ensures Siblings(mem, 0, 0) == []
  {
    assert mem[0..0] == "";
  }

}
