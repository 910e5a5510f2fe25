/** The whole stanza after a clean-up: which children go, and what a reader finds then. */
module CleanedStanza {
  import opened Common
  import JidText
  import opened Scanner
  import opened XmlText
  import opened XmlFsm
  import opened XmlWalk
  import opened Headers
  import opened Packets
  import opened PacketLaws
  import opened CleanUpLaws

  // ----- Where the extensions of a presence are -----

  /** The slice of the first child of a namespace, in a forest printed at `at` whose first
   *  slice begins at `start`: the text before an element belongs to it. */
  function SpanOf(f: Forest, start: nat, at: nat, ns: string): Option<Span>
    decreases f
  {
    match f
    case Nil => None
    case Cons(e, tail) =>
      var end := at + |Print(e)|;
      if e.Text? then SpanOf(tail, start, end, ns)
      else if IsKid(e, ns) then Some(Span(start, end))
      else SpanOf(tail, end, end, ns)
  }

  function Either<T>(a: Option<T>, b: Option<T>): Option<T> {
    if a.Some? then a else b
  }

  lemma {:induction false} FirstSpanIsTaken(
      mem: string, k: Kids, from: nat, to: nat, lead: string, e: Node, tail: Forest, s: seq<Sibling>, next: nat)
    requires PlainText(lead) && e.Element? && ValidNode(e)
    requires from <= to <= |mem| && mem[from..to] == lead + PrintForest(Cons(e, tail))
    requires s == Siblings(mem, from, to) && next == from + |lead| + |Print(e)|
    ensures s != [] && TakeKid(mem, k, s[0]) == KidAfter(k, e, Span(from, next))
    ensures next <= to && mem[next..to] == "" + PrintForest(tail) && s[1..] == Siblings(mem, next, to)
  {
    FirstIsWalked(mem, from, to, s, lead, e, tail);
    KidIsTaken(mem, k, s[0], Piece(lead, e));
    assert s[0].slice == Span(from, next);
  }

  lemma {:induction false} TakenInOrder(mem: string, k: Kids, s: seq<Sibling>, r: Option<Kids>)
    requires s != [] && r == TakeKids(mem, k, s) && r.Some?
    ensures TakeKid(mem, k, s[0]).Some? && r == TakeKids(mem, TakeKid(mem, k, s[0]).value, s[1..])
  {
  }

  /** Taking an element and then the spans behind it is taking the spans with it. */
  lemma {:induction false} EitherInOrder(k: Kids, e: Node, tail: Forest, from: nat, at: nat, next: nat, l: Kids)
    requires e.Element? && next == at + |Print(e)| && KidAfter(k, e, Span(from, next)) == Some(l)
    ensures Either(l.muc, SpanOf(tail, next, next, MUC)) == Either(k.muc, SpanOf(Cons(e, tail), from, at, MUC))
    ensures Either(l.mucUser, SpanOf(tail, next, next, MUC_USER)) ==
            Either(k.mucUser, SpanOf(Cons(e, tail), from, at, MUC_USER))
  {
    assert MUC_USER != MUC;
  }

  /** The children that are taken are those of the two namespaces. */
  lemma {:induction false} SpansAreTaken(
      mem: string, k: Kids, from: nat, to: nat, lead: string, f: Forest, s: seq<Sibling>, r: Option<Kids>, at: nat)
    requires PlainText(lead) && ValidForest(f) && at == from + |lead|
    requires from <= to <= |mem| && mem[from..to] == lead + PrintForest(f)
    requires s == Siblings(mem, from, to) && r == TakeKids(mem, k, s) && r.Some?
    ensures r.value.muc == Either(k.muc, SpanOf(f, from, at, MUC))
    ensures r.value.mucUser == Either(k.mucUser, SpanOf(f, from, at, MUC_USER))
    decreases f
  {
    match f
    case Nil =>
      ForestIsWalked(mem, from, to, s, lead, f);
    case Cons(Text(text), tail) =>
      assert lead + PrintForest(f) == (lead + text) + PrintForest(tail);
      SpansAreTaken(mem, k, from, to, lead + text, tail, s, r, at + |text|);
    case Cons(e, tail) =>
      var next := at + |Print(e)|;
      FirstSpanIsTaken(mem, k, from, to, lead, e, tail, s, next);
      TakenInOrder(mem, k, s, r);
      var l := KidAfter(k, e, Span(from, next)).value;
      SpansAreTaken(mem, l, next, to, "", tail, s[1..], r, next);
      EitherInOrder(k, e, tail, from, at, next, l);
  }

  lemma {:induction false} ForestSpans(mem: string, from: nat, to: nat, f: Forest, k: Option<Kids>)
    requires ValidForest(f) && from <= to <= |mem| && mem[from..to] == PrintForest(f)
    requires k == TakeKids(mem, NO_KIDS, Siblings(mem, from, to)) && k.Some?
    ensures k.value == Kids(SpanOf(f, from, from, MUC), SpanOf(f, from, from, MUC_USER))
  {
    assert "" + PrintForest(f) == PrintForest(f);
    SpansAreTaken(mem, NO_KIDS, from, to, "", f, Siblings(mem, from, to), k, from);
  }

  /** The slices of the extensions of a printed stanza. */
  function KidSpans(s: Stanza, from: nat, e: Node): Kids
    requires e.Element?
  {
    if s != Presence || e.kids.None? then NO_KIDS
    else
      var at := AfterTag(from, e);
      Kids(SpanOf(e.kids.value, at, at, MUC), SpanOf(e.kids.value, at, at, MUC_USER))
  }

  lemma {:induction false} KidsAreSpans(mem: string, from: nat, e: Node, k: Option<Kids>)
    requires IsStanza(mem, from, e)
    requires k == TakeKids(mem, NO_KIDS, SiblingsIn(mem, KidsSpan(from, e))) && k.Some?
    ensures k.value == KidSpans(Presence, from, e)
  {
    KidsStand(mem, from, e);
    if e.kids.Some? {
      var span := KidsSpan(from, e).value;
      AtSlice(mem, span.data, PrintForest(e.kids.value));
      ForestSpans(mem, span.data, span.end, e.kids.value, k);
    }
  }

  lemma {:induction false} FinishedKids(mem: string, from: nat, e: Node, h: Head, to: nat, p: Packet)
    requires IsStanza(mem, from, e) && h == HeadOf(h.name, e, from)
    requires to == from + |Print(e)| && Finish(mem, h, to) == Some(p)
    ensures p.kids == KidSpans(h.name, from, e)
  {
    InnerIsKids(from, e, h, to);
    if h.name == Presence {
      KidsAreSpans(mem, from, e, TakeKids(mem, NO_KIDS, SiblingsIn(mem, KidsSpan(from, e))));
    }
  }

  /** A parsed packet is fully described by the stanza: its name, its fields, its header, its
   *  inner part, and the slices of its extensions. */
  lemma {:induction false} PacketIsKnown(mem: string, from: nat, e: Node, to: nat, p: Packet)
    requires IsStanza(mem, from, e) && from <= |mem|
    requires to == from + |Print(e)| && Parse(mem, from, to) == Some(p)
    ensures Accepted(e) && StanzaOf(e.name) == Some(p.name)
    ensures Describes(p, HeadOf(p.name, e, from), KidsSpan(from, e), AfterTag(from, e))
    ensures p.kids == KidSpans(p.name, from, e)
  {
    var h := ParseHead(mem, from);
    StanzaIsAccepted(mem, from, e, to, Some(p));
    StanzaIsDescribed(mem, from, e, h, to, Some(p));
    ParseIs(mem, from, to, h, Some(p));
    FinishedKids(mem, from, e, h.value, to, p);
  }

  // ----- Which children are blanked -----

  predicate IsExtension(e: Node) {
    IsKid(e, MUC) || IsKid(e, MUC_USER)
  }

  /** The next element is an extension: the text before it goes with it. */
  predicate BeforeExtension(f: Forest) {
    f.Cons? && if f.head.Text? then BeforeExtension(f.tail) else IsExtension(f.head)
  }

  /** The children after the clean-up: extensions and the text before them are blank. */
  function BlankedKids(f: Forest): Forest {
    match f
    case Nil => Nil
    case Cons(e, tail) =>
      var gone := if e.Text? then BeforeExtension(tail) else IsExtension(e);
      Cons(if gone then Text(Blank(|Print(e)|)) else e, BlankedKids(tail))
  }

  lemma {:induction false} BlankedIsValid(f: Forest)
    requires ValidForest(f)
    ensures ValidForest(BlankedKids(f)) && |PrintForest(BlankedKids(f))| == |PrintForest(f)|
    decreases f
  {
    if f.Cons? {
      BlankedIsValid(f.tail);
    }
  }

  predicate Covers(k: Kids, i: int) {
    InSpan(k.muc, i) || InSpan(k.mucUser, i)
  }

  function KidsFrom(f: Forest, start: nat, at: nat): Kids {
    Kids(SpanOf(f, start, at, MUC), SpanOf(f, start, at, MUC_USER))
  }

  lemma {:induction false} SpansFollow(f: Forest, start: nat, at: nat, ns: string)
    requires start <= at
    ensures var s := SpanOf(f, start, at, ns);
            s.Some? ==>
              || start <= s.value.data <= at <= s.value.end <= at + |PrintForest(f)|
              || at <= s.value.data <= s.value.end <= at + |PrintForest(f)|
    decreases f
  {
    if f.Cons? {
      var end := at + |Print(f.head)|;
      SpansFollow(f.tail, if f.head.Text? then start else end, end, ns);
    }
  }

  /** The text before the next element is covered if that element is an extension. */
  lemma {:induction false} CoverBefore(f: Forest, start: nat, at: nat, i: nat)
    requires start <= i < at
    ensures Covers(KidsFrom(f, start, at), i) <==> BeforeExtension(f)
    decreases f
  {
    if f.Cons? {
      var end := at + |Print(f.head)|;
      if f.head.Text? {
        CoverBefore(f.tail, start, end, i);
      } else {
        SpansFollow(f.tail, end, end, MUC);
        SpansFollow(f.tail, end, end, MUC_USER);
      }
    }
  }

  lemma {:induction false} CoverElement(e: Node, tail: Forest, start: nat, at: nat, i: nat)
    requires e.Element? && start <= at <= i < at + |Print(e)|
    ensures Covers(KidsFrom(Cons(e, tail), start, at), i) <==> IsExtension(e)
  {
    var end := at + |Print(e)|;
    SpansFollow(tail, end, end, MUC);
    SpansFollow(tail, end, end, MUC_USER);
  }

  lemma {:induction false} NoKidNoSpan(f: Forest, lead: string, start: nat, at: nat, ns: string)
    requires ValidForest(f) && Count(Pieces(lead, f), ns) == 0
    ensures SpanOf(f, start, at, ns) == None
    decreases f
  {
    match f
    case Nil =>
    case Cons(Text(text), tail) =>
      NoKidNoSpan(tail, lead + text, start, at + |text|, ns);
    case Cons(e, tail) =>
      CountFirst(lead, e, tail, ns);
      NoKidNoSpan(tail, "", at + |Print(e)|, at + |Print(e)|, ns);
  }

  lemma {:induction false} CountFirst(lead: string, e: Node, tail: Forest, ns: string)
    requires e.Element? && ValidForest(Cons(e, tail))
    ensures Count(Pieces(lead, Cons(e, tail)), ns) == (if IsKid(e, ns) then 1 else 0) + Count(Pieces("", tail), ns)
  {
    assert Pieces(lead, Cons(e, tail))[1..] == Pieces("", tail);
  }

  predicate AtMostOne(lead: string, f: Forest)
    requires ValidForest(f)
  {
    Count(Pieces(lead, f), MUC) <= 1 && Count(Pieces(lead, f), MUC_USER) <= 1
  }

  /** Behind an element the spans of the rest are what is left of the spans. */
  lemma {:induction false} CoverBehind(lead: string, e: Node, tail: Forest, start: nat, at: nat, end: nat, i: nat)
    requires e.Element? && ValidForest(Cons(e, tail)) && AtMostOne(lead, Cons(e, tail))
    requires start <= at && end == at + |Print(e)| <= i
    ensures AtMostOne("", tail)
    ensures Covers(KidsFrom(Cons(e, tail), start, at), i) <==> Covers(KidsFrom(tail, end, end), i)
  {
    CountFirst(lead, e, tail, MUC);
    CountFirst(lead, e, tail, MUC_USER);
    if IsKid(e, MUC) {
      NoKidNoSpan(tail, "", end, end, MUC);
    }
    if IsKid(e, MUC_USER) {
      NoKidNoSpan(tail, "", end, end, MUC_USER);
    }
  }

  // ----- What the clean-up makes of them -----

  /** A stretch of text behind the header: blank or as before. */
  lemma {:induction false} StretchIsCleaned(
      before: string, after: string, p: Packet, m: CleanUp, at: nat, text: string, gone: bool)
    requires IsCleaned(before, after, p, m) && At(before, at, text)
    requires EndBefore(p.fields, at) && HasRoom(p.fields.from)
    requires forall i :: at <= i < at + |text| ==> (Covers(p.kids, i) <==> gone)
    ensures At(after, at, if gone then Blank(|text|) else text)
  {
    var left := if gone then Blank(|text|) else text;
    AtSlice(before, at, text);
    forall i | 0 <= i < |text|
      ensures after[at + i] == left[i]
    {
      AtIndex(before, at, text, i);
      assert Covers(p.kids, at + i) <==> gone;
    }
    assert after[at..at + |left|] == left;
    AtSlice(after, at, left);
  }

  lemma {:induction false} KidsAreBlanked(
      before: string, after: string, p: Packet, m: CleanUp, f: Forest, lead: string, start: nat, at: nat)
    requires IsCleaned(before, after, p, m) && EndBefore(p.fields, start) && HasRoom(p.fields.from)
    requires ValidForest(f) && AtMostOne(lead, f) && start <= at && At(before, at, PrintForest(f))
    requires forall i :: start <= i ==> (Covers(p.kids, i) <==> Covers(KidsFrom(f, start, at), i))
    ensures At(after, at, PrintForest(BlankedKids(f)))
    decreases f
  {
    match f
    case Nil =>
      AtSlice(before, at, "");
      AtSlice(after, at, "");
    case Cons(e, tail) =>
      var end := at + |Print(e)|;
      var gone := if e.Text? then BeforeExtension(tail) else IsExtension(e);
      AtParts(before, at, Print(e), end, PrintForest(tail));
      HeadIsCovered(e, tail, start, at, p.kids);
      StretchIsCleaned(before, after, p, m, at, Print(e), gone);
      if e.Text? {
        KidsAreBlanked(before, after, p, m, tail, lead + e.text, start, end);
      } else {
        TailIsCovered(lead, e, tail, start, at, end, p.kids);
        KidsAreBlanked(before, after, p, m, tail, "", end, end);
      }
      AtBoth(after, at, if gone then Blank(|Print(e)|) else Print(e), end, PrintForest(BlankedKids(tail)));
  }

  lemma {:induction false} HeadIsCovered(e: Node, tail: Forest, start: nat, at: nat, k: Kids)
    requires start <= at
    requires forall i :: start <= i ==> (Covers(k, i) <==> Covers(KidsFrom(Cons(e, tail), start, at), i))
    ensures forall i :: at <= i < at + |Print(e)| ==>
              (Covers(k, i) <==> if e.Text? then BeforeExtension(tail) else IsExtension(e))
  {
    forall i | at <= i < at + |Print(e)|
      ensures Covers(k, i) <==> if e.Text? then BeforeExtension(tail) else IsExtension(e)
    {
      if e.Text? {
        CoverBefore(tail, start, at + |Print(e)|, i);
      } else {
        CoverElement(e, tail, start, at, i);
      }
    }
  }

  lemma {:induction false} TailIsCovered(lead: string, e: Node, tail: Forest, start: nat, at: nat, end: nat, k: Kids)
    requires e.Element? && ValidForest(Cons(e, tail)) && AtMostOne(lead, Cons(e, tail))
    requires start <= at && end == at + |Print(e)|
    requires forall i :: start <= i ==> (Covers(k, i) <==> Covers(KidsFrom(Cons(e, tail), start, at), i))
    ensures AtMostOne("", tail)
    ensures forall i :: end <= i ==> (Covers(k, i) <==> Covers(KidsFrom(tail, end, end), i))
  {
    CoverBehind(lead, e, tail, start, at, end, end);
    forall i | end <= i
      ensures Covers(k, i) <==> Covers(KidsFrom(tail, end, end), i)
    {
      CoverBehind(lead, e, tail, start, at, end, i);
    }
  }

  // ----- The whole stanza -----

  /** A part of the stanza that the clean-up does not touch. */
  lemma {:induction false} UntouchedIsKept(
      before: string, after: string, p: Packet, m: CleanUp, at: nat, text: string)
    requires IsCleaned(before, after, p, m) && At(before, at, text)
    requires forall i :: at <= i < at + |text| ==> !Blanked(p, m, i) && !InNewName(p, m, i)
    ensures At(after, at, text)
  {
    AtSlice(before, at, text);
    forall i | 0 <= i < |text|
      ensures after[at + i] == text[i]
    {
      AtIndex(before, at, text, i);
    }
    assert after[at..at + |text|] == text;
    AtSlice(after, at, text);
  }

  /** A field is behind `from` and ends before `to`, if it is there. */
  predicate Within(f: Option<XmlAttr>, from: nat, to: nat) {
    f.Some? ==> from <= f.value.name.data <= f.value.value.end < to
  }

  predicate AllWithin(f: Fields, from: nat, to: nat) {
    Within(f.from, from, to) && Within(f.to, from, to) && Within(f.id, from, to) && Within(f.typeAttr, from, to)
  }

  lemma {:induction false} PlaceIsWithin(attrs: seq<Attr>, from: nat, name: string, to: nat)
    requires to == from + |PrintAttrs(attrs)|
    ensures Within(PlaceOf(attrs, from, name), from, to)
    decreases |attrs|
  {
    if attrs != [] {
      assert to == from + |PrintAttr(attrs[0])| + |PrintAttrs(attrs[1..])|;
      LocatedStop(attrs[0], from);
      PlaceIsWithin(attrs[1..], from + |PrintAttr(attrs[0])|, name, to);
    }
  }

  lemma {:induction false} FieldsAreWithin(s: Stanza, attrs: seq<Attr>, from: nat, f: Fields, to: nat)
    requires Distinct(attrs) && f == FieldsOf(NO_FIELDS, s, attrs, from) && to == from + |PrintAttrs(attrs)|
    requires AllAcceptable(s, attrs)
    ensures AllWithin(f, from, to) && HasRoom(f.from)
  {
    PlacesSay(NO_FIELDS, s, attrs, from, f);
    PlaceIsWithin(attrs, from, "from", to);
    PlaceIsWithin(attrs, from, "to", to);
    PlaceIsWithin(attrs, from, "id", to);
    PlaceIsWithin(attrs, from, "type", to);
    PlaceHasRoom(attrs, from);
  }

  /** The extensions are among the children. */
  lemma {:induction false} KidSpansAreWithin(s: Stanza, from: nat, e: Node, i: nat)
    requires e.Element? && Covers(KidSpans(s, from, e), i)
    ensures s == Presence && e.kids.Some?
    ensures AfterTag(from, e) <= i < AfterTag(from, e) + |PrintForest(e.kids.value)|
  {
    var at := AfterTag(from, e);
    SpansFollow(e.kids.value, at, at, MUC);
    SpansFollow(e.kids.value, at, at, MUC_USER);
  }

  /** The stanza after the clean-up. */
  function CleanedKids(s: Stanza, kids: Option<Forest>): Option<Forest> {
    if kids.Some? && s == Presence then Some(BlankedKids(kids.value)) else kids
  }

  function Cleaned(s: Stanza, e: Node, m: CleanUp): Node
    requires e.Element?
  {
    Element(e.name, Shown(e.attrs, m, ""), Leftover(e.attrs, m, "") + e.pad, CleanedKids(s, e.kids))
  }

  lemma {:induction false} NameIsKept(before: string, after: string, from: nat, e: Node, p: Packet, m: CleanUp)
    requires IsStanza(before, from, e) && IsCleaned(before, after, p, m)
    requires AllWithin(p.fields, HeaderStart(from, e), HeaderStop(from, e))
    requires p.kids == KidSpans(p.name, from, e)
    ensures At(after, from, "<" + e.name)
  {
    AtParts(before, from, "<" + e.name, HeaderStart(from, e), AfterName(e));
    forall i | from <= i < from + |"<" + e.name|
      ensures !Blanked(p, m, i) && !InNewName(p, m, i)
    {
      if Covers(p.kids, i) {
        KidSpansAreWithin(p.name, from, e, i);
      }
    }
    UntouchedIsKept(before, after, p, m, from, "<" + e.name);
  }

  lemma {:induction false} ClosingIsKept(
      before: string, after: string, from: nat, e: Node, p: Packet, m: CleanUp, at: nat, closing: string)
    requires e.Element? && e.kids.Some? && IsCleaned(before, after, p, m)
    requires EndBefore(p.fields, at) && HasRoom(p.fields.from)
    requires p.kids == KidSpans(p.name, from, e)
    requires at == AfterTag(from, e) + |PrintForest(e.kids.value)| && At(before, at, closing)
    ensures At(after, at, closing)
  {
    forall i | at <= i < at + |closing|
      ensures !Blanked(p, m, i) && !InNewName(p, m, i)
    {
      if Covers(p.kids, i) {
        KidSpansAreWithin(p.name, from, e, i);
      }
    }
    UntouchedIsKept(before, after, p, m, at, closing);
  }

  /** The children after the clean-up are printed where they were. */
  lemma {:induction false} KidsAreCleaned(
      before: string, after: string, from: nat, e: Node, p: Packet, m: CleanUp, at: nat, f: Forest)
    requires e.Element? && ValidNode(e) && e.kids == Some(f) && IsCleaned(before, after, p, m)
    requires EndBefore(p.fields, at) && HasRoom(p.fields.from)
    requires p.kids == KidSpans(p.name, from, e) && (p.name == Presence ==> OnePerKind(e))
    requires at == AfterTag(from, e) && At(before, at, PrintForest(f))
    ensures At(after, at, PrintForest(CleanedKids(p.name, e.kids).value))
  {
    if p.name == Presence {
      KidsAreBlanked(before, after, p, m, f, "", at, at);
    } else {
      UntouchedIsKept(before, after, p, m, at, PrintForest(f));
    }
  }

  /** What stands behind the tag of a printed stanza with children. */
  lemma {:induction false} BehindTag(mem: string, from: nat, e: Node, at: nat, to: nat)
    requires IsStanza(mem, from, e) && e.kids.Some?
    requires at == AfterTag(from, e) && to == at + |PrintForest(e.kids.value)|
    ensures At(mem, at, PrintForest(e.kids.value)) && At(mem, to, "</" + e.name + ">")
  {
    AtParts(mem, from, "<" + e.name, HeaderStart(from, e), AfterName(e));
    KidsAfterName(e);
    AtParts(mem, HeaderStart(from, e), Opening(e.attrs, TagEnd(e.pad, false)), at,
            PrintForest(e.kids.value) + ("</" + e.name + ">"));
    AtParts(mem, at, PrintForest(e.kids.value), to, "</" + e.name + ">");
  }

  lemma {:induction false} CleanedLength(s: Stanza, e: Node)
    requires e.Element? && ValidNode(e) && e.kids.Some?
    ensures |PrintForest(CleanedKids(s, e.kids).value)| == |PrintForest(e.kids.value)|
  {
    BlankedIsValid(e.kids.value);
  }

  lemma {:induction false} CleanedIsValid(s: Stanza, e: Node, m: CleanUp)
    requires e.Element? && ValidNode(e)
    ensures ValidNode(Cleaned(s, e, m))
  {
    ShownAreValid(e.attrs, m, "");
    if e.kids.Some? {
      BlankedIsValid(e.kids.value);
    }
  }

  /** A printed element is put together from its pieces. */
  lemma {:induction false} PutTogether(mem: string, from: nat, e: Node, start: nat, at: nat)
    requires e.Element? && At(mem, from, "<" + e.name) && start == from + |"<" + e.name|
    requires At(mem, start, Opening(e.attrs, TagEnd(e.pad, e.kids.None?)))
    requires at == start + |Opening(e.attrs, TagEnd(e.pad, e.kids.None?))|
    requires e.kids.Some? ==>
               && At(mem, at, PrintForest(e.kids.value))
               && At(mem, at + |PrintForest(e.kids.value)|, "</" + e.name + ">")
    ensures At(mem, from, Print(e))
  {
    if e.kids.Some? {
      var f, closing := PrintForest(e.kids.value), "</" + e.name + ">";
      AtBoth(mem, at, f, at + |f|, closing);
      KidsAfterName(e);
      AtBoth(mem, start, Opening(e.attrs, TagEnd(e.pad, false)), at, f + closing);
    }
    AtBoth(mem, from, "<" + e.name, start, AfterName(e));
  }

  /** Behind the clean-up the memory holds exactly the printed stanza without what was blanked:
   *  valid, and in the same place. */
  lemma {:induction false} CleanedIsPrinted(
      before: string, after: string, from: nat, e: Node, to: nat, p: Packet, m: CleanUp)
    requires IsStanza(before, from, e) && from <= |before|
    requires to == from + |Print(e)| && Parse(before, from, to) == Some(p)
    requires IsCleaned(before, after, p, m)
    ensures ValidNode(Cleaned(p.name, e, m)) && At(after, from, Print(Cleaned(p.name, e, m)))
  {
    PacketIsKnown(before, from, e, to, p);
    CleanedIsValid(p.name, e, m);
    DescribedIsCleaned(before, after, from, e, p, m, AfterTag(from, e), Cleaned(p.name, e, m));
  }

  lemma {:induction false} InsideIsCleaned(
      before: string, after: string, from: nat, e: Node, p: Packet, m: CleanUp, at: nat, f: Forest, g: Forest, to: nat)
    requires IsStanza(before, from, e) && IsCleaned(before, after, p, m) && e.kids == Some(f)
    requires EndBefore(p.fields, at) && HasRoom(p.fields.from) && at == AfterTag(from, e)
    requires p.kids == KidSpans(p.name, from, e) && (p.name == Presence ==> OnePerKind(e))
    requires CleanedKids(p.name, e.kids) == Some(g) && to == at + |PrintForest(f)|
    ensures At(after, at, PrintForest(g)) && to == at + |PrintForest(g)|
    ensures At(after, to, "</" + e.name + ">")
  {
    BehindTag(before, from, e, at, to);
    KidsAreCleaned(before, after, from, e, p, m, at, f);
    ClosingIsKept(before, after, from, e, p, m, to, "</" + e.name + ">");
    CleanedLength(p.name, e);
  }

  lemma {:induction false} TagIsReady(
      before: string, after: string, from: nat, e: Node, p: Packet, m: CleanUp, c: Node, start: nat, at: nat)
    requires IsStanza(before, from, e) && AllAcceptable(p.name, e.attrs) && IsCleaned(before, after, p, m)
    requires Describes(p, HeadOf(p.name, e, from), KidsSpan(from, e), AfterTag(from, e)) && c == Cleaned(p.name, e, m)
    requires start == HeaderStart(from, e) && at == AfterTag(from, e)
    ensures At(after, start, Opening(c.attrs, TagEnd(c.pad, c.kids.None?)))
    ensures at == start + |Opening(c.attrs, TagEnd(c.pad, c.kids.None?))|
  {
    TagIsCleaned(before, after, from, e, p, m, c.attrs, Leftover(e.attrs, m, ""));
  }

  lemma {:induction false} DescribedIsCleaned(
      before: string, after: string, from: nat, e: Node, p: Packet, m: CleanUp, at: nat, c: Node)
    requires IsStanza(before, from, e) && IsCleaned(before, after, p, m) && c == Cleaned(p.name, e, m)
    requires Accepted(e) && StanzaOf(e.name) == Some(p.name) && at == AfterTag(from, e)
    requires Describes(p, HeadOf(p.name, e, from), KidsSpan(from, e), at) && p.kids == KidSpans(p.name, from, e)
    ensures At(after, from, Print(c))
  {
    var start, stop := HeaderStart(from, e), HeaderStop(from, e);
    FieldsAreWithin(p.name, e.attrs, start, p.fields, stop);
    assert stop <= at;
    NameIsKept(before, after, from, e, p, m);
    TagIsReady(before, after, from, e, p, m, c, start, at);
    if e.kids.Some? {
      InsideIsCleaned(before, after, from, e, p, m, at, e.kids.value, c.kids.value, at + |PrintForest(e.kids.value)|);
    }
    PutTogether(after, from, c, start, at);
  }

  // ----- The children that survive -----

  /** The children that are no extensions, in order and unchanged; what was blanked is space
   *  in front of the next. */
  function Surviving(p: seq<Piece>, gap: string): seq<Piece>
    requires ValidPieces(p)
  {
    if p == [] then []
    else if IsExtension(p[0].element) then Surviving(p[1..], gap + Blank(|p[0].lead + Print(p[0].element)|))
    else [Piece(gap + p[0].lead, p[0].element)] + Surviving(p[1..], "")
  }

  function LeadAfter(f: Forest, lead: string, gap: string): string {
    gap + if BeforeExtension(f) then Blank(|lead|) else lead
  }

  lemma {:induction false} BlanksJoin(gap: string, a: nat, b: nat)
    ensures gap + Blank(a) + Blank(b) == gap + Blank(a + b)
  {
  }

  lemma {:induction false} SurvivingFirst(lead: string, e: Node, tail: Forest, gap: string)
    requires e.Element? && ValidForest(Cons(e, tail))
    ensures Surviving(Pieces(lead, Cons(e, tail)), gap) ==
            if IsExtension(e) then Surviving(Pieces("", tail), gap + Blank(|lead + Print(e)|))
            else [Piece(gap + lead, e)] + Surviving(Pieces("", tail), "")
  {
    assert Pieces(lead, Cons(e, tail))[1..] == Pieces("", tail);
  }

  /** The pieces of the blanked children are the surviving pieces. */
  lemma {:induction false} BlankedPieces(f: Forest, lead: string, gap: string)
    requires ValidForest(f) && ValidForest(BlankedKids(f))
    ensures Pieces(LeadAfter(f, lead, gap), BlankedKids(f)) == Surviving(Pieces(lead, f), gap)
    decreases f
  {
    match f
    case Nil =>
    case Cons(Text(text), tail) =>
      BlankedPieces(tail, lead + text, gap);
      BlanksJoin(gap, |lead|, |text|);
      assert gap + lead + text == gap + (lead + text);
    case Cons(e, tail) =>
      SurvivingFirst(lead, e, tail, gap);
      if IsExtension(e) {
        var more := gap + Blank(|lead + Print(e)|);
        BlankedPieces(tail, "", more);
        BlanksJoin(gap, |lead|, |Print(e)|);
        assert LeadAfter(tail, "", more) == more;
      } else {
        BlankedPieces(tail, "", "");
        assert LeadAfter(tail, "", "") == "";
      }
  }

  /** What is left of the children, as pieces. */
  function PiecesAfter(s: Stanza, e: Node): seq<Piece>
    requires e.Element? && ValidNode(e)
  {
    if s == Presence then Surviving(KidsOf(e), "") else KidsOf(e)
  }

  lemma {:induction false} CleanedPieces(s: Stanza, e: Node, f: Forest, g: Forest)
    requires e.Element? && ValidNode(e) && e.kids == Some(f) && CleanedKids(s, e.kids) == Some(g)
    ensures ValidForest(g) && Pieces("", g) == PiecesAfter(s, e)
  {
    BlankedIsValid(f);
    if s == Presence {
      BlankedPieces(f, "", "");
      assert LeadAfter(f, "", "") == "";
    }
  }

  lemma {:induction false} KidsSurvive(
      before: string, after: string, from: nat, e: Node, p: Packet, m: CleanUp, inner: Span, s: seq<Sibling>)
    requires IsStanza(before, from, e) && IsCleaned(before, after, p, m) && e.kids.Some?
    requires EndBefore(p.fields, inner.data) && HasRoom(p.fields.from)
    requires p.kids == KidSpans(p.name, from, e) && (p.name == Presence ==> OnePerKind(e))
    requires inner == Span(AfterTag(from, e), AfterTag(from, e) + |PrintForest(e.kids.value)|)
    requires s == SiblingsIn(after, Some(inner))
    ensures ArePieces(after, s, PiecesAfter(p.name, e))
  {
    var f, g := e.kids.value, CleanedKids(p.name, e.kids).value;
    InsideIsCleaned(before, after, from, e, p, m, inner.data, f, g, inner.end);
    CleanedPieces(p.name, e, f, g);
    PrintedAreWalked(after, inner.data, inner.end, g, s);
  }

  lemma {:induction false} DescribedSurvive(
      before: string, after: string, from: nat, e: Node, p: Packet, m: CleanUp, inner: Option<Span>, s: seq<Sibling>)
    requires IsStanza(before, from, e) && IsCleaned(before, after, p, m)
    requires AllWithin(p.fields, HeaderStart(from, e), HeaderStop(from, e)) && HasRoom(p.fields.from)
    requires p.kids == KidSpans(p.name, from, e) && (p.name == Presence ==> OnePerKind(e))
    requires inner == KidsSpan(from, e) && s == SiblingsIn(after, inner)
    ensures ArePieces(after, s, PiecesAfter(p.name, e))
  {
    assert HeaderStop(from, e) <= AfterTag(from, e);
    if inner.Some? {
      KidsSurvive(before, after, from, e, p, m, inner.value, s);
    }
  }

  /** Walking the inner part after the clean-up finds exactly the children that are neither a
   *  muc nor a muc#user extension of a presence, in order and unchanged. */
  lemma {:induction false} ChildrenSurvive(
      before: string, after: string, from: nat, e: Node, to: nat, p: Packet, m: CleanUp, s: seq<Sibling>)
    requires IsStanza(before, from, e) && from <= |before|
    requires to == from + |Print(e)| && Parse(before, from, to) == Some(p)
    requires IsCleaned(before, after, p, m) && s == SiblingsIn(after, p.inner)
    ensures ArePieces(after, s, PiecesAfter(p.name, e))
  {
    PacketIsKnown(before, from, e, to, p);
    FieldsAreWithin(p.name, e.attrs, HeaderStart(from, e), p.fields, HeaderStop(from, e));
    DescribedSurvive(before, after, from, e, p, m, p.inner, s);
  }

  lemma {:induction false} PrintedAreWalked(mem: string, from: nat, to: nat, f: Forest, s: seq<Sibling>)
    requires ValidForest(f) && At(mem, from, PrintForest(f)) && to == from + |PrintForest(f)|
    requires s == SiblingsIn(mem, Some(Span(from, to)))
    ensures ArePieces(mem, s, Pieces("", f))
  {
    AtSlice(mem, from, PrintForest(f));
    assert "" + PrintForest(f) == PrintForest(f);
    ForestIsWalked(mem, from, to, s, "", f);
  }

  // ----- The program -----

  /** Where the clean-up writes is in the stanza, and what it may be asked for is there. */
  lemma {:induction false} PacketFits(mem: string, from: nat, e: Node, to: nat, p: Packet)
    requires IsStanza(mem, from, e) && from <= |mem|
    requires to == from + |Print(e)| && Parse(mem, from, to) == Some(p)
    ensures to <= |mem| && AllWithin(p.fields, from, to) && HasRoom(p.fields.from)
    ensures p.fields.from.Some? && p.fields.to.Some?
    ensures HasName(e.attrs, "id") ==> p.fields.id.Some?
    ensures p.kids.muc.Some? ==> p.kids.muc.value.data <= p.kids.muc.value.end <= to
    ensures p.kids.mucUser.Some? ==> p.kids.mucUser.value.data <= p.kids.mucUser.value.end <= to
  {
    PacketIsKnown(mem, from, e, to, p);
    KidsStand(mem, from, e);
    PrintedLength(from, e);
    var start := HeaderStart(from, e);
    FieldsAreWithin(p.name, e.attrs, start, p.fields, HeaderStop(from, e));
    FieldsAreThere(p.name, e.attrs, start, p.fields);
    if p.name == Presence && e.kids.Some? {
      SpansFollow(e.kids.value, AfterTag(from, e), AfterTag(from, e), MUC);
      SpansFollow(e.kids.value, AfterTag(from, e), AfterTag(from, e), MUC_USER);
    }
  }

  lemma {:induction false} PlaceIsThere(attrs: seq<Attr>, from: nat, name: string)
    ensures PlaceOf(attrs, from, name).Some? <==> HasName(attrs, name)
    decreases |attrs|
  {
    if attrs != [] {
      HasNameFirst(attrs, name);
      PlaceIsThere(attrs[1..], from + |PrintAttr(attrs[0])|, name);
    }
  }

  lemma {:induction false} FieldsAreThere(s: Stanza, attrs: seq<Attr>, from: nat, f: Fields)
    requires Distinct(attrs) && f == FieldsOf(NO_FIELDS, s, attrs, from) && AllAcceptable(s, attrs)
    requires RoutableStanza(s, attrs)
    ensures f.from.Some? && f.to.Some? && (HasName(attrs, "id") ==> f.id.Some?)
  {
    PlacesSay(NO_FIELDS, s, attrs, from, f);
    ValuesSay(NO_FIELDS, s, attrs, 0, FieldsOf(NO_FIELDS, s, attrs, 0));
    PlaceIsThere(attrs, from, "from");
    PlaceIsThere(attrs, from, "to");
    PlaceIsThere(attrs, from, "id");
    if !HasName(attrs, "from") {
      AbsentName(attrs, 0, "from");
    }
    if !HasName(attrs, "to") {
      AbsentName(attrs, 0, "to");
    }
  }

  /** What stands in memory after a stanza was parsed and cleaned. */
  ghost predicate IsReadAgain(mem: string, from: nat, e: Node, m: CleanUp, header: Span, inner: Option<Span>)
    requires e.Element? && ValidNode(e)
  {
    && StanzaOf(e.name).Some? && header.data <= |mem|
    && var s := StanzaOf(e.name).value;
       var w := WalkAttrs(mem, header.data);
       && ValidNode(Cleaned(s, e, m)) && At(mem, from, Print(Cleaned(s, e, m)))
       && CleanUpLaws.Shows(mem, w.attrs, Faithful(e.attrs, m)) && w.last == TagEndRead(AfterTag(from, e), e.kids.None?)
       && ArePieces(mem, SiblingsIn(mem, inner), PiecesAfter(s, e))
  }

  /** Parsing a printed stanza and cleaning it in place: accepted if and only if it should be,
   *  and then the memory holds the cleaned stanza, its header reads as it should, and so does
   *  its inner part. */
  method ParseAndClean(mem: array<char>, buffer: BufferPtr, m: CleanUp, ghost e: Node)
      returns (ok: bool, packet: IncomingPacket)
    requires buffer.data <= buffer.end <= mem.Length
    requires IsStanza(mem[..], buffer.data, e) && buffer.end == buffer.data + |Print(e)|
    requires m.id ==> HasName(e.attrs, "id")
    modifies mem, buffer`data
    ensures fresh(packet) && ok == Accepted(e)
    ensures !ok ==> mem[..] == old(mem[..])
    ensures ok ==> IsReadAgain(mem[..], old(buffer.data), e, m, packet.header, packet.inner)
  {
    ghost var before, from, to := mem[..], buffer.data, buffer.end;
    packet := new IncomingPacket();
    PrintedIsReadable(before, from, e);
    ok := packet.ParseFrom(mem[..], buffer);
    ghost var p := Parse(before, from, to);
    StanzaIsAccepted(before, from, e, to, p);
    if ok {
      PacketFits(before, from, e, to, p.value);
      packet.Cleanup(mem, m);
      ReadAgain(before, mem[..], from, e, to, p.value, m);
    }
  }

  lemma {:induction false} ReadAgain(before: string, after: string, from: nat, e: Node, to: nat, p: Packet, m: CleanUp)
    requires IsStanza(before, from, e) && from <= |before|
    requires to == from + |Print(e)| && Parse(before, from, to) == Some(p)
    requires IsCleaned(before, after, p, m)
    ensures IsReadAgain(after, from, e, m, p.header, p.inner)
  {
    PacketIsKnown(before, from, e, to, p);
    StanzaTag(before, from, e);
    CleanedIsPrinted(before, after, from, e, to, p, m);
    CleanUpIsFaithful(before, after, from, e, to, p, m, WalkAttrs(after, p.header.data));
    ChildrenSurvive(before, after, from, e, to, p, m, SiblingsIn(after, p.inner));
  }
}
