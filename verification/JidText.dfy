/** The text of an address: taken apart by jid_struct, put together by jid_set (src/jid.c). */
module JidText {
  import opened Common
  import opened Jids

  const MAX_JID_PART_SIZE := 1023
  const MAX_JID_SIZE := 3 * MAX_JID_PART_SIZE + 2

  /** node@host/resource. */
  function Text(j: Jid): string {
    (if j.node.Some? then j.node.value + "@" else "") + j.host +
    (if j.resource.Some? then "/" + j.resource.value else "")
  }

  predicate Without(s: string, c: char) {
    forall i :: 0 <= i < |s| ==> s[i] != c
  }

  predicate Fits(part: Option<string>) {
    part.Some? ==> |part.value| <= MAX_JID_PART_SIZE
  }

  /** The addresses that a text can stand for. A host may hold an at sign behind a node. */
  predicate Expressible(j: Jid) {
    && j.host != "" && Fits(Some(j.host)) && Fits(j.node) && Fits(j.resource)
    && Without(j.host, '/')
    && (if j.node.Some? then Without(j.node.value, '@') && Without(j.node.value, '/')
        else Without(j.host, '@'))
  }

  /** The same in numbers: a host of 1 to 1023 bytes without a slash; a node and a resource of up
   *  to 1023 bytes each; no separator in the node, and no at sign in a host without a node. */
  lemma {:induction false} ExpressibleIff(j: Jid)
    ensures Expressible(j) <==>
            && 1 <= |j.host| <= 1023 && '/' !in j.host
            && (j.node.Some? ==> |j.node.value| <= 1023 && '@' !in j.node.value && '/' !in j.node.value)
            && (j.node.None? ==> '@' !in j.host)
            && (j.resource.Some? ==> |j.resource.value| <= 1023)
  {
  }

  /** The first position of a character, or the end. */
  function First(s: string, c: char): (k: nat)
    ensures k <= |s|
  {
    if s == "" || s[0] == c then 0 else 1 + First(s[1..], c)
  }

  /** No such character before, and one there, unless it is the end: that is the first. */
  lemma {:induction false} FirstIs(s: string, c: char, k: nat)
    requires k <= |s|
    ensures First(s, c) == k <==> Without(s[..k], c) && (k < |s| ==> s[k] == c)
    decreases |s|
  {
    if s != "" {
      if k > 0 {
        FirstIs(s[1..], c, k - 1);
        assert s[..k] == [s[0]] + s[1..][..k - 1];
      }
    }
  }

  /** The node ends at the first at sign before the first slash, the host at the first slash. */
  function Apart(s: string): Jid {
    var slash := First(s, '/');
    var at := First(s[..slash], '@');
    var resource := if slash < |s| then Some(s[slash + 1..]) else None;
    if at < slash then Jid(Some(s[..at]), s[at + 1..slash], resource)
    else Jid(None, s[..slash], resource)
  }

  /** jid_struct: the address of a text, if it has a host and its parts are not too long. */
  function Struct(s: string): Option<Jid> {
    var j := Apart(s);
    if j.host == "" || !Fits(Some(j.host)) || !Fits(j.node) || !Fits(j.resource) then None else Some(j)
  }

  /** The node and the host. */
  function Front(j: Jid): string {
    (if j.node.Some? then j.node.value + "@" else "") + j.host
  }

  lemma {:induction false} FrontEnds(j: Jid)
    requires Expressible(j)
    ensures First(Text(j), '/') == |Front(j)| && Text(j)[..|Front(j)|] == Front(j)
    ensures if j.resource.Some? then |Front(j)| < |Text(j)| && Text(j)[|Front(j)| + 1..] == j.resource.value
            else |Front(j)| == |Text(j)|
  {
    var s := Text(j);
    assert s[..|Front(j)|] == Front(j);
    FirstIs(s, '/', |Front(j)|);
    if j.resource.Some? {
      assert s == Front(j) + "/" + j.resource.value;
      assert s[|Front(j)| + 1..] == j.resource.value;
    }
  }

  lemma {:induction false} NodeEnds(j: Jid)
    requires Expressible(j)
    ensures if j.node.Some? then
              && First(Front(j), '@') == |j.node.value| < |Front(j)|
              && Front(j)[..|j.node.value|] == j.node.value
              && Front(j)[|j.node.value| + 1..] == j.host
            else First(Front(j), '@') == |Front(j)| && Front(j) == j.host
  {
    if j.node.Some? {
      assert Front(j)[..|j.node.value|] == j.node.value;
      FirstIs(Front(j), '@', |j.node.value|);
      assert Front(j)[|j.node.value| + 1..] == j.host;
    } else {
      assert Front(j) == j.host && Front(j)[..|Front(j)|] == Front(j);
      FirstIs(Front(j), '@', |Front(j)|);
    }
  }

  lemma {:induction false} ApartUndoesText(j: Jid)
    requires Expressible(j)
    ensures Apart(Text(j)) == j
  {
    FrontEnds(j);
    NodeEnds(j);
    if j.node.Some? {
      var s, at, slash := Text(j), |j.node.value|, |Front(j)|;
      assert s[..slash][..at] == s[..at] && s[..slash][at + 1..] == s[at + 1..slash];
    }
  }

  lemma {:induction false} TextUndoesApart(s: string)
    ensures Text(Apart(s)) == s
  {
    var slash := First(s, '/');
    var at := First(s[..slash], '@');
    FirstIs(s, '/', slash);
    FirstIs(s[..slash], '@', at);
    var j := Apart(s);
    assert Front(j) == s[..slash] by {
      if at < slash {
        assert s[..slash][at] == '@' && s[..slash][..at] == s[..at];
        assert s[..slash] == s[..at] + "@" + s[at + 1..slash];
      }
    }
    assert s == s[..slash] + s[slash..];
    if slash < |s| {
      assert s[slash..] == "/" + s[slash + 1..];
    }
  }

  lemma {:induction false} PartsAreClean(s: string)
    ensures var j := Apart(s);
            && Without(j.host, '/')
            && (if j.node.Some? then Without(j.node.value, '@') && Without(j.node.value, '/')
                else Without(j.host, '@'))
  {
    var slash := First(s, '/');
    var front := s[..slash];
    var at := First(front, '@');
    FirstIs(s, '/', slash);
    FirstIs(front, '@', at);
    if at < slash {
      assert front[..at] == s[..at] && front[at + 1..] == s[at + 1..slash];
    } else {
      assert front[..at] == front;
    }
  }

  /** jid_struct gives exactly the address that the text is the layout of. */
  lemma {:induction false} StructUndoesText(s: string, j: Jid)
    ensures Struct(s) == Some(j) <==> Text(j) == s && Expressible(j)
  {
    TextUndoesApart(s);
    PartsAreClean(s);
    if Expressible(j) {
      ApartUndoesText(j);
    }
  }

  /** The pass of jid_struct over the text, with a cursor. */
  method Split(s: string) returns (j: Jid)
    ensures j == Apart(s)
  {
    var node := None;
    var inNode, start, current := true, 0, 0;
    while current < |s| && s[current] != '/'
      invariant start <= current <= |s| && Without(s[..current], '/')
      invariant inNode ==> start == 0 && node == None && Without(s[..current], '@')
      invariant !inNode ==>
                  start > 0 && node == Some(s[..start - 1]) && s[start - 1] == '@' && Without(s[..start - 1], '@')
    {
      if inNode && s[current] == '@' {
        node := Some(s[..current]);
        inNode := false;
        start := current + 1;
      }
      current := current + 1;
    }
    FirstIs(s, '/', current);
    if inNode {
      assert s[..current][..current] == s[..current];
      FirstIs(s[..current], '@', current);
    } else {
      assert s[..current][..start - 1] == s[..start - 1];
      FirstIs(s[..current], '@', start - 1);
    }
    return Jid(node, s[start..current], if current < |s| then Some(s[current + 1..]) else None);
  }

  /** jid_struct as the program has it. */
  method JidStruct(s: string) returns (j: Option<Jid>)
    ensures j == Struct(s)
  {
    var parts := Split(s);
    if parts.host == "" || |parts.host| > MAX_JID_PART_SIZE ||
       (parts.node.Some? && |parts.node.value| > MAX_JID_PART_SIZE) ||
       (parts.resource.Some? && |parts.resource.value| > MAX_JID_PART_SIZE) {
      return None;
    }
    return Some(parts);
  }

  // ----- The layout that jid_set makes -----

  /** Null when data is null: positions of the parts in the memory of an address. */
  datatype Pointers = Pointers(node: Option<(nat, nat)>, host: (nat, nat), resource: Option<(nat, nat)>)
  {
    /** JID_STR and the end that JID_LEN counts to. */
    function Start(): nat {
      if node.Some? then node.value.0 else host.0
    }

    function End(): nat {
      if resource.None? || resource.value.0 == resource.value.1 then host.1 else resource.value.1
    }
  }

  /** A part is copied when it is asked for and not blank. */
  function Chosen(part: Option<string>, wanted: bool): Option<string> {
    if wanted && part.Some? && part.value != "" then part else None
  }

  function Selected(src: Jid, node: bool, resource: bool): (dst: Jid)
    ensures src.WellFormed() && node && resource ==> dst == src
    ensures src.WellFormed() && node && !resource ==> dst == WithoutResource(src)
  {
    Jid(Chosen(src.node, node), src.host, Chosen(src.resource, resource))
  }

  predicate PartAt(mem: string, at: Option<(nat, nat)>, part: Option<string>) {
    && (at.None? <==> part.None?)
    && (at.Some? ==> at.value.0 <= at.value.1 <= |mem| && mem[at.value.0..at.value.1] == part.value)
  }

  /** memcpy into memory that is filled up to `at`. */
  method Copy(mem: array<char>, at: nat, text: string) returns (next: nat)
    requires at + |text| <= mem.Length
    modifies mem
    ensures next == at + |text| && mem[..next] == old(mem[..at]) + text
  {
    next := at;
    while next < at + |text|
      invariant at <= next <= at + |text|
      invariant mem[..next] == old(mem[..at]) + text[..next - at]
    {
      mem[next] := text[next - at];
      next := next + 1;
    }
  }

  /** Where the parts of a laid out address are. */
  function Layout(j: Jid): Pointers {
    var host := if j.node.Some? then |j.node.value| + 1 else 0;
    var end := host + |j.host|;
    Pointers(if j.node.Some? then Some((0, |j.node.value|)) else None,
             (host, end),
             if j.resource.Some? then Some((end + 1, end + 1 + |j.resource.value|)) else None)
  }

  lemma {:induction false} LayoutHoldsParts(j: Jid)
    ensures PartAt(Text(j), Layout(j).node, j.node)
    ensures PartAt(Text(j), Some(Layout(j).host), Some(j.host))
    ensures PartAt(Text(j), Layout(j).resource, j.resource)
  {
    var l := Layout(j);
    var s := Text(j);
    if j.node.Some? {
      assert s[..|j.node.value|] == j.node.value;
    }
    assert s[l.host.0..l.host.1] == j.host;
    if j.resource.Some? {
      assert s[l.resource.value.0..] == j.resource.value;
    }
  }

  method LayOut(mem: array<char>, j: Jid) returns (dst: Pointers)
    requires mem.Length == |Text(j)|
    modifies mem
    ensures mem[..] == Text(j) && dst == Layout(j)
  {
    var at := 0;
    var node := None;
    if j.node.Some? {
      at := Copy(mem, at, j.node.value);
      node := Some((0, at));
      at := Copy(mem, at, "@");
    }
    ghost var before := mem[..at];
    assert before + j.host == Front(j);
    var host := at;
    at := Copy(mem, at, j.host);
    dst := Pointers(node, (host, at), None);
    if j.resource.Some? {
      at := Copy(mem, at, "/");
      dst := dst.(resource := Some((at, at + |j.resource.value|)));
      at := Copy(mem, at, j.resource.value);
    }
    assert mem[..] == mem[..at];
  }

  /** jid_set: one piece of memory that holds exactly the text of the copy. */
  method JidSet(src: Jid, node: bool, resource: bool) returns (mem: array<char>, dst: Pointers)
    ensures var copy := Selected(src, node, resource);
            && mem[..] == Text(copy)
            && PartAt(mem[..], dst.node, copy.node)
            && PartAt(mem[..], Some(dst.host), Some(copy.host))
            && PartAt(mem[..], dst.resource, copy.resource)
            && dst.Start() == 0 && dst.End() == mem.Length
  {
    var size := 0;
    var copy := Jid(None, src.host, None);
    if node && src.node.Some? && |src.node.value| != 0 {
      copy := copy.(node := src.node);
      size := size + |src.node.value| + 1;
    }
    size := size + |src.host|;
    if resource && src.resource.Some? && |src.resource.value| != 0 {
      copy := copy.(resource := src.resource);
      size := size + |src.resource.value| + 1;
    }
    mem := new char[size];
    dst := LayOut(mem, copy);
    LayoutHoldsParts(copy);
  }

  /** What jid_set laid out, jid_struct takes apart again. */
  lemma {:induction false} LayoutIsRead(src: Jid, node: bool, resource: bool)
    requires Expressible(Selected(src, node, resource))
    ensures Struct(Text(Selected(src, node, resource))) == Some(Selected(src, node, resource))
  {
    StructUndoesText(Text(Selected(src, node, resource)), Selected(src, node, resource));
  }
}
