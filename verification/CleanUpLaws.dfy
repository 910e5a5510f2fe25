/** A cleaned header reads as the original attributes, rewritten. */
module CleanUpLaws {
  import opened Common
  import Jids
  import JidText
  import opened XmlText
  import opened XmlWalk
  import opened Headers
  import opened Packets
  import opened PacketLaws

  /** A field does not touch a range. */
  predicate Outside(f: Option<XmlAttr>, from: nat, to: nat) {
    f.Some? ==> f.value.value.end < from || f.value.name.data >= to
  }

  /** A field is this attribute, if it has its name, or else does not touch it. */
  predicate Matches(f: Option<XmlAttr>, name: string, a: Attr, from: nat) {
    if a.name == name then f == Some(Located(a, from)) else Outside(f, from, from + |PrintAttr(a)|)
  }

  /** The field is where the attribute of its name is, in a list printed at `from`. */
  predicate Placed(f: Option<XmlAttr>, name: string, attrs: seq<Attr>, from: nat) {
    attrs == [] ||
    (Matches(f, name, attrs[0], from) && Placed(f, name, attrs[1..], from + |PrintAttr(attrs[0])|))
  }

  lemma {:induction false} OutsideIsPlaced(f: Option<XmlAttr>, name: string, attrs: seq<Attr>, from: nat)
    requires !HasName(attrs, name) && Outside(f, from, from + |PrintAttrs(attrs)|)
    ensures Placed(f, name, attrs, from)
    decreases |attrs|
  {
    if attrs != [] {
      HasNameFirst(attrs, name);
      assert |PrintAttrs(attrs)| == |PrintAttr(attrs[0])| + |PrintAttrs(attrs[1..])|;
      OutsideIsPlaced(f, name, attrs[1..], from + |PrintAttr(attrs[0])|);
    }
  }

  lemma {:induction false} PlaceIsBehind(attrs: seq<Attr>, from: nat, name: string)
    ensures var f := PlaceOf(attrs, from, name); f.Some? ==> from <= f.value.name.data
    decreases |attrs|
  {
    if attrs != [] && attrs[0].name != name {
      PlaceIsBehind(attrs[1..], from + |PrintAttr(attrs[0])|, name);
    }
  }

  lemma {:induction false} PlaceIsPlaced(attrs: seq<Attr>, from: nat, name: string, f: Option<XmlAttr>)
    requires Distinct(attrs) && f == PlaceOf(attrs, from, name)
    ensures Placed(f, name, attrs, from)
    decreases |attrs|
  {
    if attrs != [] {
      var a, rest, next := attrs[0], attrs[1..], from + |PrintAttr(attrs[0])|;
      if a.name == name {
        LocatedStop(a, from);
        assert !HasName(rest, name);
        OutsideIsPlaced(f, name, rest, next);
      } else {
        PlaceIsBehind(rest, next, name);
        PlaceIsPlaced(rest, next, name, f);
      }
    }
  }

  /** The new name of the field stays inside it. */
  predicate HasRoom(f: Option<XmlAttr>) {
    f.Some? ==> f.value.name.data + 4 <= f.value.value.end
  }

  lemma {:induction false} PlaceHasRoom(attrs: seq<Attr>, from: nat)
    ensures HasRoom(PlaceOf(attrs, from, "from"))
    decreases |attrs|
  {
    if attrs != [] && attrs[0].name != "from" {
      PlaceHasRoom(attrs[1..], from + |PrintAttr(attrs[0])|);
    }
  }

  /** The four fields of a header. */
  predicate AllMatch(f: Fields, a: Attr, from: nat) {
    && Matches(f.from, "from", a, from) && Matches(f.to, "to", a, from)
    && Matches(f.id, "id", a, from) && Matches(f.typeAttr, "type", a, from)
  }

  predicate AllPlaced(f: Fields, attrs: seq<Attr>, from: nat) {
    && Placed(f.from, "from", attrs, from) && Placed(f.to, "to", attrs, from)
    && Placed(f.id, "id", attrs, from) && Placed(f.typeAttr, "type", attrs, from)
  }

  lemma {:induction false} FieldCovers(f: Option<XmlAttr>, name: string, a: Attr, from: nat, i: nat)
    requires Matches(f, name, a, from) && i < |PrintAttr(a)|
    ensures InAttr(f, from + i) <==> a.name == name && |a.space| <= i
  {
    LocatedStop(a, from);
  }

  /** Which characters of an attribute a clean-up overwrites. */
  lemma {:induction false} CoveredChars(p: Packet, m: CleanUp, a: Attr, from: nat, i: nat)
    requires AllMatch(p.fields, a, from) && StartAfter(p.kids, from + |PrintAttr(a)|) && i < |PrintAttr(a)|
    requires HasRoom(p.fields.from)
    ensures Blanked(p, m, from + i) <==> m.Blanks(a.name) && |a.space| <= i
    ensures InNewName(p, m, from + i) <==>
              m.Renames(a.name) && |a.space| <= i < |a.space| + 4
    ensures m.Renames(a.name) ==> p.fields.from.Some? && p.fields.from.value.name.data == from + |a.space|
  {
    FieldCovers(p.fields.from, "from", a, from, i);
    FieldCovers(p.fields.to, "to", a, from, i);
    FieldCovers(p.fields.id, "id", a, from, i);
    FieldCovers(p.fields.typeAttr, "type", a, from, i);
  }

  /** The characters of a rewritten attribute. */
  lemma {:induction false} RewrittenChars(a: Attr, m: CleanUp, i: nat)
    requires i < |PrintAttr(a)|
    ensures |Rewritten(a, m)| == |PrintAttr(a)|
    ensures Rewritten(a, m)[i] ==
            if m.Renames(a.name) && |a.space| <= i < |a.space| + 4 then "  to"[i - |a.space|]
            else if m.Blanks(a.name) && |a.space| <= i then ' ' else PrintAttr(a)[i]
  {
    SameLength(a, m);
    BodyOf(a);
    if m.Renames(a.name) {
      var tail := a.equals + [a.quote] + a.value + [a.quote];
      assert PrintAttr(a) == a.space + "from" + tail;
      assert PrintAttr(Renamed(a)) == a.space + "  to" + tail;
    }
  }

  lemma {:induction false} AttrIsCleaned(
      before: string, after: string, p: Packet, m: CleanUp, a: Attr, from: nat)
    requires IsCleaned(before, after, p, m) && At(before, from, PrintAttr(a))
    requires AllMatch(p.fields, a, from) && StartAfter(p.kids, from + |PrintAttr(a)|) && HasRoom(p.fields.from)
    ensures At(after, from, Rewritten(a, m))
  {
    SameLength(a, m);
    forall i | 0 <= i < |Rewritten(a, m)|
      ensures after[from + i] == Rewritten(a, m)[i]
    {
      AtIndex(before, from, PrintAttr(a), i);
      CoveredChars(p, m, a, from, i);
      RewrittenChars(a, m, i);
    }
    assert after[from..from + |Rewritten(a, m)|] == Rewritten(a, m);
    AtSlice(after, from, Rewritten(a, m));
  }

  lemma {:induction false} HeaderIsCleaned(
      before: string, after: string, p: Packet, m: CleanUp, attrs: seq<Attr>, from: nat, to: nat)
    requires IsCleaned(before, after, p, m) && At(before, from, PrintAttrs(attrs))
    requires to == from + |PrintAttrs(attrs)|
    requires AllPlaced(p.fields, attrs, from) && StartAfter(p.kids, to) && HasRoom(p.fields.from)
    ensures At(after, from, RewrittenAll(attrs, m)) && |RewrittenAll(attrs, m)| == to - from
    decreases |attrs|
  {
    if attrs != [] {
      var a, rest, next := attrs[0], attrs[1..], from + |PrintAttr(attrs[0])|;
      AtParts(before, from, PrintAttr(a), next, PrintAttrs(rest));
      assert to == next + |PrintAttrs(rest)|;
      AttrIsCleaned(before, after, p, m, a, from);
      HeaderIsCleaned(before, after, p, m, rest, next, to);
      SameLength(a, m);
      AtBoth(after, from, Rewritten(a, m), next, RewrittenAll(rest, m));
    }
  }

  /** What no field and no extension touches stays as it was. */
  lemma {:induction false} RestIsKept(
      before: string, after: string, p: Packet, m: CleanUp, from: nat, text: string)
    requires IsCleaned(before, after, p, m) && At(before, from, text)
    requires StartAfter(p.kids, from + |text|) && HasRoom(p.fields.from)
    requires EndBefore(p.fields, from)
    ensures At(after, from, text)
  {
    AtSlice(before, from, text);
    forall i | 0 <= i < |text|
      ensures after[from + i] == text[i]
    {
      AtIndex(before, from, text, i);
    }
    assert after[from..from + |text|] == text;
    AtSlice(after, from, text);
  }

  predicate EndsBefore(f: Option<XmlAttr>, to: nat) {
    f.Some? ==> f.value.value.end < to
  }

  predicate EndBefore(f: Fields, to: nat) {
    EndsBefore(f.from, to) && EndsBefore(f.to, to) && EndsBefore(f.id, to) && EndsBefore(f.typeAttr, to)
  }

  lemma {:induction false} PlaceEnds(attrs: seq<Attr>, from: nat, name: string, to: nat)
    requires to == from + |PrintAttrs(attrs)|
    ensures EndsBefore(PlaceOf(attrs, from, name), to)
    decreases |attrs|
  {
    if attrs != [] {
      assert to == from + |PrintAttr(attrs[0])| + |PrintAttrs(attrs[1..])|;
      LocatedStop(attrs[0], from);
      PlaceEnds(attrs[1..], from + |PrintAttr(attrs[0])|, name, to);
    }
  }

  lemma {:induction false} FieldsArePlaced(s: Stanza, attrs: seq<Attr>, from: nat, f: Fields, to: nat)
    requires Distinct(attrs) && f == FieldsOf(NO_FIELDS, s, attrs, from) && to == from + |PrintAttrs(attrs)|
    requires AllAcceptable(s, attrs)
    ensures AllPlaced(f, attrs, from) && EndBefore(f, to) && HasRoom(f.from)
  {
    PlacesSay(NO_FIELDS, s, attrs, from, f);
    PlaceIsPlaced(attrs, from, "from", f.from);
    PlaceIsPlaced(attrs, from, "to", f.to);
    PlaceIsPlaced(attrs, from, "id", f.id);
    PlaceIsPlaced(attrs, from, "type", f.typeAttr);
    PlaceEnds(attrs, from, "from", to);
    PlaceEnds(attrs, from, "to", to);
    PlaceEnds(attrs, from, "id", to);
    PlaceEnds(attrs, from, "type", to);
    PlaceHasRoom(attrs, from);
  }

  /** The cleaned opening tag is again a printed one. */
  lemma {:induction false} TagIsCleaned(
      before: string, after: string, from: nat, e: Node, p: Packet, m: CleanUp, shown: seq<Attr>, left: string)
    requires IsStanza(before, from, e) && AllAcceptable(p.name, e.attrs)
    requires Describes(p, HeadOf(p.name, e, from), KidsSpan(from, e), AfterTag(from, e))
    requires IsCleaned(before, after, p, m)
    requires shown == Shown(e.attrs, m, "") && left == Leftover(e.attrs, m, "")
    ensures At(after, HeaderStart(from, e), Opening(shown, TagEnd(left + e.pad, e.kids.None?)))
    ensures |Opening(shown, TagEnd(left + e.pad, e.kids.None?))| == AfterTag(from, e) - HeaderStart(from, e)
  {
    var start, stop := HeaderStart(from, e), HeaderStop(from, e);
    StanzaTag(before, from, e);
    StanzaAttrs(before, from, e, WalkAttrs(before, start));
    FieldsArePlaced(p.name, e.attrs, start, p.fields, stop);
    HeaderIsCleaned(before, after, p, m, e.attrs, start, stop);
    RestIsKept(before, after, p, m, stop, TagEndOf(e));
    AtBoth(after, start, RewrittenAll(e.attrs, m), stop, TagEndOf(e));
    RewrittenIsPrinted(e.attrs, m, "");
    OpeningIs(e.attrs, m, e.pad, e.kids.None?);
  }

  lemma {:induction false} OpeningIs(attrs: seq<Attr>, m: CleanUp, pad: string, empty: bool)
    requires "" + RewrittenAll(attrs, m) == PrintAttrs(Shown(attrs, m, "")) + Leftover(attrs, m, "")
    ensures RewrittenAll(attrs, m) + TagEnd(pad, empty) ==
            Opening(Shown(attrs, m, ""), TagEnd(Leftover(attrs, m, "") + pad, empty))
  {
    var shown, left := PrintAttrs(Shown(attrs, m, "")), Leftover(attrs, m, "");
    assert "" + RewrittenAll(attrs, m) == RewrittenAll(attrs, m);
    var bracket := if empty then "/>" else ">";
    Regroup(shown, left, pad, bracket);
  }

  lemma {:induction false} Regroup(a: string, b: string, c: string, d: string)
    ensures a + b + (c + d) == a + (b + c + d)
  {
  }

  predicate Shows(mem: string, l: seq<XmlAttr>, p: seq<(string, string)>) {
    && |l| == |p|
    && forall i :: 0 <= i < |l| ==> Spells(mem, l[i].name, p[i].0) && Spells(mem, l[i].value, p[i].1)
  }

  lemma {:induction false} SpelledShows(mem: string, l: seq<XmlAttr>, attrs: seq<Attr>)
    requires AreSpelled(mem, l, attrs)
    ensures Shows(mem, l, NamesAndValues(attrs))
    decreases |attrs|
  {
    if attrs != [] {
      assert IsSpelled(mem, l[0], attrs[0]);
      assert AreSpelled(mem, l[1..], attrs[1..]);
      SpelledShows(mem, l[1..], attrs[1..]);
    }
  }

  /** A tag that holds the attributes to be shown shows them. */
  lemma {:induction false} ShownAreRead(
      mem: string, from: nat, e: Node, m: CleanUp, shown: seq<Attr>, left: string, to: nat, w: Walked)
    requires e.Element? && ValidNode(e)
    requires shown == Shown(e.attrs, m, "") && left == Leftover(e.attrs, m, "")
    requires At(mem, from, Opening(shown, TagEnd(left + e.pad, e.kids.None?)))
    requires to == from + |Opening(shown, TagEnd(left + e.pad, e.kids.None?))|
    requires from <= |mem| && w == WalkAttrs(mem, from)
    ensures Shows(mem, w.attrs, Faithful(e.attrs, m))
    ensures w.last == TagEndRead(to, e.kids.None?)
  {
    ShownAreValid(e.attrs, m, "");
    AttrsAreWalked(mem, from, w, shown, left + e.pad, e.kids.None?, to);
    SpelledShows(mem, w.attrs, shown);
  }

  /** Header rewriting is faithful: reading the header again after a clean-up gives the
   *  original attributes in order, minus `type` and the blanked ones, with `from` renamed to
   *  `to` and its value kept in switch mode, and ends where it ended before. */
  lemma {:induction false} CleanUpIsFaithful(
      before: string, after: string, from: nat, e: Node, to: nat, p: Packet, m: CleanUp, w: Walked)
    requires IsStanza(before, from, e) && from <= |before|
    requires to == from + |Print(e)| && Parse(before, from, to) == Some(p)
    requires IsCleaned(before, after, p, m)
    requires p.header.data <= |after| && w == WalkAttrs(after, p.header.data)
    ensures Shows(after, w.attrs, Faithful(e.attrs, m))
    ensures w.last == TagEndRead(AfterTag(from, e), e.kids.None?)
  {
    StanzaIsDescribed(before, from, e, ParseHead(before, from), to, Some(p));
    StanzaIsAccepted(before, from, e, to, Some(p));
    var shown, left := Shown(e.attrs, m, ""), Leftover(e.attrs, m, "");
    TagIsCleaned(before, after, from, e, p, m, shown, left);
    ShownAreRead(after, p.header.data, e, m, shown, left, AfterTag(from, e), w);
  }

  /** In an accepted stanza a clean-up leaves the names distinct unless it switches `from` to
   *  `to` without taking the old `to` away. */
  lemma {:induction false} OnlyABareSwitchRepeats(e: Node, m: CleanUp)
    requires e.Element? && ValidNode(e) && Distinct(e.attrs) && Accepted(e)
    ensures DistinctNames(Faithful(e.attrs, m)) <==> !(m.Switches() && !m.to)
  {
    var s := StanzaOf(e.name).value;
    ValuesSay(NO_FIELDS, s, e.attrs, 0, FieldsOf(NO_FIELDS, s, e.attrs, 0));
    if !HasName(e.attrs, "from") {
      AbsentName(e.attrs, 0, "from");
    }
    if !HasName(e.attrs, "to") {
      AbsentName(e.attrs, 0, "to");
    }
    NamesStayDistinct(e.attrs, m);
  }

  // ----- An example -----

  const FROM := Attr(" ", "from", "=", '\'', "a@h/r")
  const TO := Attr(" ", "to", "=", '\'', "n@s")
  const SET := Attr(" ", "type", "=", '\'', "set")

  /** A query as a client sends it to a room. */
  const QUERY := Element("iq", [FROM, TO, SET], "", None)

  /** It is a stanza like those above, and a bare switch shows `to` twice in it. */
  lemma {:induction false} QueryRepeatsTo()
    ensures ValidNode(QUERY) && Distinct(QUERY.attrs) && Accepted(QUERY)
    ensures Faithful(QUERY.attrs, CleanUp(true, false, true, false)) == [("to", "a@h/r"), ("to", "n@s")]
  {
    QueryIsAccepted();
    QueryIsShown();
  }

  /** As it is printed, it is parsed. */
  lemma {:induction false} QueryIsParsed(mem: string, p: Option<Packet>)
    requires mem == Print(QUERY) && p == Parse(mem, 0, |mem|)
    ensures IsStanza(mem, 0, QUERY) && p.Some?
  {
    QueryIsAccepted();
    AcceptedIsParsed(mem, QUERY, p);
  }

  lemma {:induction false} AcceptedIsParsed(mem: string, e: Node, p: Option<Packet>)
    requires e.Element? && ValidNode(e) && Distinct(e.attrs) && Accepted(e)
    requires mem == Print(e) && p == Parse(mem, 0, |mem|)
    ensures IsStanza(mem, 0, e) && p.Some?
  {
    AtSlice(mem, 0, Print(e));
    StanzaIsAccepted(mem, 0, e, |mem|, p);
  }

  lemma {:induction false} QueryIsShown()
    ensures Faithful([FROM, TO, SET], CleanUp(true, false, true, false)) == [("to", "a@h/r"), ("to", "n@s")]
  {
    var m := CleanUp(true, false, true, false);
    assert [FROM, TO, SET][1..] == [TO, SET] && [TO, SET][1..] == [SET] && [SET][1..] == [];
    assert Faithful([SET], m) == [];
    assert Faithful([TO, SET], m) == [("to", "n@s")];
  }

  lemma {:induction false} QueryIsAccepted()
    ensures ValidNode(QUERY) && Distinct([FROM, TO, SET]) && Accepted(QUERY)
  {
    QueryIsValid();
    AddressesAreRead();
    QueryIsRoutable([FROM, TO, SET]);
  }

  lemma {:induction false} QueryIsValid()
    ensures ValidNode(QUERY)
  {
    assert Name("from") && Name("to") && Name("type") && Name("iq");
    assert ValidAttr(FROM) && ValidAttr(TO) && ValidAttr(SET);
  }

  lemma {:induction false} AddressesAreRead()
    ensures JidText.Struct(FROM.value).Some? && JidText.Struct(TO.value).Some?
  {
    TextIsRead(FROM.value, Jids.Jid(Some("a"), "h", Some("r")));
    TextIsRead(TO.value, Jids.Jid(Some("n"), "s", None));
  }

  lemma {:induction false} TextIsRead(text: string, j: Jids.Jid)
    requires text == JidText.Text(j) && JidText.Expressible(j)
    ensures JidText.Struct(text).Some?
  {
    JidText.StructUndoesText(text, j);
  }

  lemma {:induction false} QueryIsRoutable(attrs: seq<Attr>)
    requires attrs == [FROM, TO, SET]
    requires JidText.Struct(FROM.value).Some? && JidText.Struct(TO.value).Some?
    ensures Distinct(attrs) && AllAcceptable(Iq, attrs) && RoutableStanza(Iq, attrs)
  {
    SetIsAcceptable(FROM, TO, SET);
    ValueOfFirst(attrs, 0, "from");
    ValueOfFirst(attrs, 1, "to");
    RoutableIq(attrs, FROM.value, TO.value);
  }

  lemma {:induction false} SetIsAcceptable(from: Attr, to: Attr, kind: Attr)
    requires from.name == "from" && JidText.Struct(from.value).Some?
    requires to.name == "to" && JidText.Struct(to.value).Some?
    requires kind.name == "type" && kind.value == "set"
    ensures Distinct([from, to, kind]) && AllAcceptable(Iq, [from, to, kind])
  {
    assert Acceptable(Iq, from) && Acceptable(Iq, to) && Acceptable(Iq, kind);
  }

  lemma {:induction false} RoutableIq(attrs: seq<Attr>, from: string, to: string)
    requires Distinct(attrs) && AllAcceptable(Iq, attrs)
    requires ValueOf(attrs, "from") == Some(from) && JidText.Struct(from).Some?
    requires ValueOf(attrs, "to") == Some(to) && JidText.Struct(to).Some?
    ensures RoutableStanza(Iq, attrs)
  {
    ValuesSay(NO_FIELDS, Iq, attrs, 0, FieldsOf(NO_FIELDS, Iq, attrs, 0));
  }
}
