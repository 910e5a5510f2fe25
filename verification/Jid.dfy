/** XMPP addresses and their comparison (src/jid.c).
 *
 *  Text is a `string`, whose characters stand for C chars. A part of an address
 *  is absent or non-empty; `WellFormed` states that assumption.
 */
module Jids {
  import opened Common

  datatype Jid = Jid(node: Option<string>, host: string, resource: Option<string>)
  {
    predicate WellFormed() {
      && host != ""
      && node != Some("")
      && resource != Some("")
    }
  }

  /** The comparison modes that the program uses. */
  datatype Mode = HostOnly | NodeAndHost | Full | FullWithWildcards

  /** ASCII case folding, as strncasecmp does it in the C locale. */
  function Lower(c: char): char {
    if 'A' <= c <= 'Z' then (c as int + 32) as char else c
  }

  function LowerText(s: string): (t: string)
    ensures |t| == |s|
  {
    seq(|s|, i requires 0 <= i < |s| => Lower(s[i]))
  }

  /** strncasecmp over `size` characters gives zero. */
  predicate SameTextIgnoringCase(a: string, b: string) {
    |a| == |b| && forall i :: 0 <= i < |a| ==> Lower(a[i]) == Lower(b[i])
  }

  predicate NodeDiffers(a: Jid, b: Jid) {
    || a.node.Some? != b.node.Some?
    || (a.node.Some? && !SameTextIgnoringCase(a.node.value, b.node.value))
  }

  predicate ResourceDiffers(a: Jid, b: Jid) {
    || a.resource.Some? != b.resource.Some?
    || (a.resource.Some? && a.resource.value != b.resource.value)
  }

  /** jid_cmp(a, b, mode) == 0. Under wildcards a null part of `a` matches anything. */
  predicate Matches(a: Jid, b: Jid, mode: Mode) {
    if mode != HostOnly && !(mode == FullWithWildcards && a.node.None?) && NodeDiffers(a, b) then
      false
    else if !SameTextIgnoringCase(a.host, b.host) then
      false
    else if mode == Full && ResourceDiffers(a, b) then
      false
    else if mode == FullWithWildcards && a.resource.Some? && ResourceDiffers(a, b) then
      false
    else
      true
  }

  /** The representative of all addresses equal to `j` under a full comparison. */
  function Canonical(j: Jid): Jid {
    Jid(if j.node.Some? then Some(LowerText(j.node.value)) else None, LowerText(j.host), j.resource)
  }

  /** The representative of all addresses equal to `j` on node and host. */
  function Bare(j: Jid): Jid {
    Canonical(j).(resource := None)
  }

  lemma {:induction false} LowerTextIsCaseFolding(a: string, b: string)
    ensures SameTextIgnoringCase(a, b) <==> LowerText(a) == LowerText(b)
  {
    if LowerText(a) == LowerText(b) {
      forall i | 0 <= i < |a|
        ensures Lower(a[i]) == Lower(b[i])
      {
        assert LowerText(a)[i] == LowerText(b)[i];
      }
    }
  }

  /** Each comparison mode is an equivalence: equality of a canonical form. */
  lemma {:induction false} MatchesIsCanonicalEquality(a: Jid, b: Jid)
    ensures Matches(a, b, Full) <==> Canonical(a) == Canonical(b)
    ensures Matches(a, b, NodeAndHost) <==> Bare(a) == Bare(b)
    ensures Matches(a, b, HostOnly) <==> LowerText(a.host) == LowerText(b.host)
  {
    LowerTextIsCaseFolding(a.host, b.host);
    if a.node.Some? && b.node.Some? {
      LowerTextIsCaseFolding(a.node.value, b.node.value);
    }
  }

  /** An address fits a pattern: a part that the pattern does not name may be anything; node
   *  and host are compared whatever their case, the resource exactly. */
  predicate Fits(pattern: Jid, jid: Jid) {
    && LowerText(pattern.host) == LowerText(jid.host)
    && (pattern.node.Some? ==> jid.node.Some? && LowerText(pattern.node.value) == LowerText(jid.node.value))
    && (pattern.resource.Some? ==> jid.resource == pattern.resource)
  }

  /** The mode with wildcards, which is no equivalence, takes the first address as a pattern. */
  lemma {:induction false} WildcardsFit(pattern: Jid, jid: Jid)
    ensures Matches(pattern, jid, FullWithWildcards) <==> Fits(pattern, jid)
  {
    LowerTextIsCaseFolding(pattern.host, jid.host);
    if pattern.node.Some? && jid.node.Some? {
      LowerTextIsCaseFolding(pattern.node.value, jid.node.value);
    }
  }

  /** The address that `jid_set` stores when it copies node and host only. */
  function WithoutResource(j: Jid): (b: Jid)
    ensures Bare(b) == Bare(j)
  {
    j.(resource := None)
  }
}
