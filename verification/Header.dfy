/** What a clean-up does to the attributes of a stanza, as texts (src/packet.c). */
module Headers {
  import opened Common
  import opened XmlText
  import opened XmlWalk

  /** The four bits of a clean-up mode; `from` with `swap` is PACKET_CLEANUP_SWITCH_FROM_TO. */
  datatype CleanUp = CleanUp(from: bool, to: bool, swap: bool, id: bool)
  {
    predicate Switches() {
      from && swap
    }

    /** The attributes that are overwritten with spaces. */
    predicate Blanks(name: string) {
      match name
      case "type" => true
      case "id" => id
      case "to" => to
      case "from" => from && !swap
      case _ => false
    }

    predicate Renames(name: string) {
      name == "from" && Switches()
    }
  }

  predicate Distinct(attrs: seq<Attr>) {
    forall i, j :: 0 <= i < j < |attrs| ==> attrs[i].name != attrs[j].name
  }

  function Blank(n: nat): (s: string)
    ensures |s| == n && Spaces(s)
  {
    seq(n, _ => ' ')
  }

  /** An attribute without the space before it. */
  function Body(a: Attr): string {
    a.name + a.equals + [a.quote] + a.value + [a.quote]
  }

  /** A renamed attribute: `  to` stands where `from` was. */
  function Renamed(a: Attr): Attr {
    a.(space := a.space + "  ", name := "to")
  }

  /** The text of one attribute after the clean-up, as long as before. */
  function Rewritten(a: Attr, m: CleanUp): string {
    if m.Blanks(a.name) then a.space + Blank(|Body(a)|)
    else if m.Renames(a.name) then PrintAttr(Renamed(a))
    else PrintAttr(a)
  }

  function RewrittenAll(attrs: seq<Attr>, m: CleanUp): string {
    if attrs == [] then "" else Rewritten(attrs[0], m) + RewrittenAll(attrs[1..], m)
  }

  /** More space before an attribute. */
  function Indented(gap: string, a: Attr): Attr {
    a.(space := gap + a.space)
  }

  /** The attributes that the cleaned text shows: blanked ones are space before the next. */
  function Shown(attrs: seq<Attr>, m: CleanUp, gap: string): seq<Attr> {
    if attrs == [] then []
    else
      var a := attrs[0];
      if m.Blanks(a.name) then Shown(attrs[1..], m, gap + Rewritten(a, m))
      else [Indented(gap, if m.Renames(a.name) then Renamed(a) else a)] + Shown(attrs[1..], m, "")
  }

  /** The space behind the last of them. */
  function Leftover(attrs: seq<Attr>, m: CleanUp, gap: string): string {
    if attrs == [] then gap
    else if m.Blanks(attrs[0].name) then Leftover(attrs[1..], m, gap + Rewritten(attrs[0], m))
    else Leftover(attrs[1..], m, "")
  }

  /** What a reader should find: the attributes in order, minus the blanked ones, with
   *  `from` renamed when the mode says so, and all values kept. */
  function Faithful(attrs: seq<Attr>, m: CleanUp): seq<(string, string)> {
    if attrs == [] then []
    else
      var a := attrs[0];
      var rest := Faithful(attrs[1..], m);
      if m.Blanks(a.name) then rest
      else [(if m.Renames(a.name) then "to" else a.name, a.value)] + rest
  }

  function NamesAndValues(attrs: seq<Attr>): (p: seq<(string, string)>)
    ensures |p| == |attrs|
  {
    if attrs == [] then [] else [(attrs[0].name, attrs[0].value)] + NamesAndValues(attrs[1..])
  }

  lemma {:induction false} BodyOf(a: Attr)
    ensures PrintAttr(a) == a.space + Body(a)
  {
  }

  lemma {:induction false} IndentedPrint(gap: string, a: Attr)
    ensures gap + PrintAttr(a) == PrintAttr(Indented(gap, a))
  {
    assert gap + PrintAttr(a) == gap + a.space + a.name + a.equals + [a.quote] + a.value + [a.quote];
  }

  lemma {:induction false} SameLength(a: Attr, m: CleanUp)
    ensures |Rewritten(a, m)| == |PrintAttr(a)|
  {
    BodyOf(a);
  }

  lemma {:induction false} ShownAreValid(attrs: seq<Attr>, m: CleanUp, gap: string)
    requires ValidAttrs(attrs) && Spaces(gap)
    ensures ValidAttrs(Shown(attrs, m, gap)) && Spaces(Leftover(attrs, m, gap))
    ensures NamesAndValues(Shown(attrs, m, gap)) == Faithful(attrs, m)
    decreases |attrs|
  {
    if attrs != [] {
      var a := attrs[0];
      if m.Blanks(a.name) {
        ShownAreValid(attrs[1..], m, gap + Rewritten(a, m));
      } else {
        ShownAreValid(attrs[1..], m, "");
        var first := Indented(gap, if m.Renames(a.name) then Renamed(a) else a);
        assert ValidAttr(first);
        assert Shown(attrs, m, gap)[1..] == Shown(attrs[1..], m, "");
      }
    }
  }

  /** The cleaned text is again the printing of attributes. */
  lemma {:induction false} RewrittenIsPrinted(attrs: seq<Attr>, m: CleanUp, gap: string)
    ensures gap + RewrittenAll(attrs, m) == PrintAttrs(Shown(attrs, m, gap)) + Leftover(attrs, m, gap)
    decreases |attrs|
  {
    if attrs != [] {
      var a := attrs[0];
      var text := Rewritten(a, m);
      var rest := RewrittenAll(attrs[1..], m);
      assert gap + (text + rest) == gap + text + rest;
      if m.Blanks(a.name) {
        RewrittenIsPrinted(attrs[1..], m, gap + text);
      } else {
        RewrittenIsPrinted(attrs[1..], m, "");
        assert "" + rest == rest;
        var shown := if m.Renames(a.name) then Renamed(a) else a;
        IndentedPrint(gap, shown);
        ShownFirst(attrs, m, gap, shown);
      }
    }
  }

  lemma {:induction false} ShownFirst(attrs: seq<Attr>, m: CleanUp, gap: string, shown: Attr)
    requires attrs != [] && !m.Blanks(attrs[0].name)
    requires shown == if m.Renames(attrs[0].name) then Renamed(attrs[0]) else attrs[0]
    ensures PrintAttrs(Shown(attrs, m, gap)) ==
            PrintAttr(Indented(gap, shown)) + PrintAttrs(Shown(attrs[1..], m, ""))
  {
    var s := Shown(attrs, m, gap);
    assert s[0] == Indented(gap, shown) && s[1..] == Shown(attrs[1..], m, "");
  }

  // ----- What is left -----

  /** What a mode leaves of one attribute, bit by bit: types never stay, the identifier, the
   *  addressee and the sender as the mode says; a switch makes the sender the addressee. */
  lemma {:induction false} FaithfulOne(a: Attr, m: CleanUp)
    ensures a.name == "type" ==> Faithful([a], m) == []
    ensures a.name == "id" ==> Faithful([a], m) == if m.id then [] else [("id", a.value)]
    ensures a.name == "to" ==> Faithful([a], m) == if m.to then [] else [("to", a.value)]
    ensures a.name == "from" ==>
              Faithful([a], m) == if !m.from then [("from", a.value)] else if m.swap then [("to", a.value)] else []
    ensures a.name !in {"type", "id", "to", "from"} ==> Faithful([a], m) == [(a.name, a.value)]
  {
    assert [a][1..] == [];
  }

  /** What it leaves of a header is what it leaves of its parts, in order. */
  lemma {:induction false} FaithfulInParts(a: seq<Attr>, b: seq<Attr>, m: CleanUp)
    ensures Faithful(a + b, m) == Faithful(a, m) + Faithful(b, m)
    decreases |a|
  {
    if a == [] {
      assert a + b == b;
    } else {
      assert (a + b)[1..] == a[1..] + b;
      FaithfulInParts(a[1..], b, m);
    }
  }

  // ----- Names stay distinct -----

  predicate DistinctNames(p: seq<(string, string)>) {
    forall i, j :: 0 <= i < j < |p| ==> p[i].0 != p[j].0
  }

  predicate HasName(attrs: seq<Attr>, name: string) {
    exists i :: 0 <= i < |attrs| && attrs[i].name == name
  }

  predicate Shows(p: seq<(string, string)>, name: string) {
    exists i :: 0 <= i < |p| && p[i].0 == name
  }

  /** Which names a reader finds. */
  lemma {:induction false} FaithfulNames(attrs: seq<Attr>, m: CleanUp, name: string)
    ensures Shows(Faithful(attrs, m), name) <==>
            || (HasName(attrs, name) && !m.Blanks(name) && !m.Renames(name))
            || (name == "to" && m.Switches() && HasName(attrs, "from"))
    decreases |attrs|
  {
    if attrs != [] {
      FaithfulNames(attrs[1..], m, name);
      HasNameFirst(attrs, name);
      HasNameFirst(attrs, "from");
      var p := Faithful(attrs, m);
      var a := attrs[0];
      if !m.Blanks(a.name) {
        ShowsFirst(if m.Renames(a.name) then "to" else a.name, a.value, Faithful(attrs[1..], m), name);
      }
    }
  }

  lemma {:induction false} HasNameFirst(attrs: seq<Attr>, name: string)
    requires attrs != []
    ensures HasName(attrs, name) <==> attrs[0].name == name || HasName(attrs[1..], name)
  {
    if HasName(attrs[1..], name) {
      var i :| 0 <= i < |attrs| - 1 && attrs[1..][i].name == name;
      assert attrs[i + 1].name == name;
    }
    if HasName(attrs, name) && attrs[0].name != name {
      var i :| 0 <= i < |attrs| && attrs[i].name == name;
      assert attrs[1..][i - 1].name == name;
    }
  }

  lemma {:induction false} ShowsFirst(first: string, value: string, rest: seq<(string, string)>, name: string)
    ensures Shows([(first, value)] + rest, name) <==> first == name || Shows(rest, name)
  {
    var p := [(first, value)] + rest;
    assert p[0].0 == first;
    if Shows(rest, name) {
      var i :| 0 <= i < |rest| && rest[i].0 == name;
      assert p[i + 1].0 == name;
    }
    if Shows(p, name) && first != name {
      var i :| 0 <= i < |p| && p[i].0 == name;
      assert rest[i - 1].0 == name;
    }
  }

  lemma {:induction false} DistinctFirst(first: string, value: string, rest: seq<(string, string)>)
    ensures DistinctNames([(first, value)] + rest) <==> DistinctNames(rest) && !Shows(rest, first)
  {
    var p := [(first, value)] + rest;
    assert p[1..] == rest;
    if DistinctNames(p) {
      forall i, j | 0 <= i < j < |rest|
        ensures rest[i].0 != rest[j].0
      {
        assert p[i + 1].0 != p[j + 1].0;
      }
      forall i | 0 <= i < |rest|
        ensures rest[i].0 != first
      {
        assert p[0].0 != p[i + 1].0;
      }
    }
  }

  /** The names of a cleaned header are distinct if and only if the mode does not rename
   *  `from` next to a `to` that stays. */
  lemma {:induction false} NamesStayDistinct(attrs: seq<Attr>, m: CleanUp)
    requires Distinct(attrs)
    ensures DistinctNames(Faithful(attrs, m)) <==>
            !(m.Switches() && !m.to && HasName(attrs, "from") && HasName(attrs, "to"))
    decreases |attrs|
  {
    if attrs != [] {
      var a, rest := attrs[0], attrs[1..];
      assert Distinct(rest);
      assert !HasName(rest, a.name);
      NamesStayDistinct(rest, m);
      HasNameFirst(attrs, "from");
      HasNameFirst(attrs, "to");
      if !m.Blanks(a.name) {
        var name := if m.Renames(a.name) then "to" else a.name;
        DistinctFirst(name, a.value, Faithful(rest, m));
        FaithfulNames(rest, m, name);
      }
    }
  }
}
