/** The service access list (src/acl.c) and the five affiliation lists of a room
 *  (src/affiliation/affiliations.c).
 */
module Affiliations {
  import opened Common
  import opened Jids

  type Affiliation = a: int | 0 <= a <= 4
  const OUTCAST: Affiliation := 0
  const NONE: Affiliation := 1
  const MEMBER: Affiliation := 2
  const ADMIN: Affiliation := 3
  const OWNER: Affiliation := 4

  // Service-wide rights.
  const ACL_MUC_CREATE := 1
  const ACL_MUC_PERSIST := 2
  const ACL_MUC_ADMIN := 3

  datatype AclEntry = AclEntry(jid: Jid, role: int)
  datatype Acl = Acl(defaultRole: int, entries: seq<AclEntry>)

  /** The right of the first matching entry, else the default. */
  function AclRole(acl: Acl, jid: Jid): int
    decreases |acl.entries|
  {
    if acl.entries == [] then acl.defaultRole
    else if Matches(acl.entries[0].jid, jid, FullWithWildcards) then acl.entries[0].role
    else AclRole(acl.(entries := acl.entries[1..]), jid)
  }

  datatype Entry = Entry(jid: Jid, reason: Option<string>)

  /** The lists of a room, indexed by affiliation. */
  type Lists = s: seq<seq<Entry>> | |s| == 5 witness [[], [], [], [], []]

  const NO_ENTRIES: Lists := [[], [], [], [], []]
  const MAX_REASON_SIZE := 65000

  predicate Hit(list: seq<Entry>, i: int, jid: Jid, mode: Mode) {
    0 <= i < |list| && Matches(list[i].jid, jid, mode)
  }

  ghost predicate Listed(list: seq<Entry>, jid: Jid, mode: Mode) {
    exists i :: Hit(list, i, jid, mode)
  }

  /** The position of the first entry that matches, or |list|. */
  function Find(list: seq<Entry>, jid: Jid, mode: Mode): (r: nat)
    ensures r <= |list|
    ensures r < |list| ==> Hit(list, r, jid, mode)
    ensures forall i :: 0 <= i < r ==> !Hit(list, i, jid, mode)
  {
    if list == [] then 0
    else if Matches(list[0].jid, jid, mode) then 0
    else
      var r := 1 + Find(list[1..], jid, mode);
      assert forall i :: 0 < i < |list| ==> (Hit(list, i, jid, mode) <==> Hit(list[1..], i - 1, jid, mode));
      r
  }

  /** The lowest list from `first` on that has a matching entry, or 5. */
  function FindList(lists: Lists, jid: Jid, mode: Mode, first: nat): (r: nat)
    requires first <= 5
    ensures first <= r <= 5
    ensures r < 5 ==> Listed(lists[r], jid, mode)
    ensures forall k :: first <= k < r ==> !Listed(lists[k], jid, mode)
    decreases 5 - first
  {
    if first == 5 then 5
    else if Find(lists[first], jid, mode) < |lists[first]| then first
    else FindList(lists, jid, mode, first + 1)
  }

  /** The affiliation of an address: service administrators own every room; then
   *  the lowest list naming the bare address; then the lowest list with an entry of
   *  the same host, whatever its node; else none. */
  function GetByJid(lists: Lists, acl: Acl, jid: Jid): Affiliation {
    if AclRole(acl, jid) >= ACL_MUC_ADMIN then OWNER
    else
      var byAddress := FindList(lists, jid, NodeAndHost, 0);
      if byAddress < 5 then byAddress
      else
        var byHost := FindList(lists, jid, HostOnly, 0);
        if byHost < 5 then byHost else NONE
  }

  // ----- The scanning loops -----

  /** No entry before `i` fits the address. */
  ghost predicate NoneFitsBefore(acl: Acl, jid: Jid, i: nat) {
    i <= |acl.entries| && forall k :: 0 <= k < i ==> !Fits(acl.entries[k].jid, jid)
  }

  /** The right that the entry at `i` gives if it is the first that fits; the default if none does. */
  ghost predicate GivenBy(acl: Acl, jid: Jid, i: nat, role: int) {
    && NoneFitsBefore(acl, jid, i)
    && (if i == |acl.entries| then role == acl.defaultRole
        else Fits(acl.entries[i].jid, jid) && role == acl.entries[i].role)
  }

  /** The right is that of the first entry that fits. */
  lemma {:induction false} FirstFitDecides(acl: Acl, jid: Jid) returns (i: nat)
    ensures GivenBy(acl, jid, i, AclRole(acl, jid))
    decreases |acl.entries|
  {
    i := 0;
    if acl.entries != [] {
      WildcardsFit(acl.entries[0].jid, jid);
      if !Fits(acl.entries[0].jid, jid) {
        var rest := acl.(entries := acl.entries[1..]);
        i := FirstFitDecides(rest, jid);
        assert forall k :: 0 < k < |acl.entries| ==> acl.entries[k] == rest.entries[k - 1];
        i := i + 1;
      }
    }
  }

  method FindAclRole(acl: Acl, jid: Jid) returns (role: int)
    ensures role == AclRole(acl, jid)
    ensures exists i :: GivenBy(acl, jid, i, role)
  {
    ghost var first := FirstFitDecides(acl, jid);
    role := acl.defaultRole;
    var i := 0;
    while i < |acl.entries|
      invariant 0 <= i <= |acl.entries|
      invariant role == acl.defaultRole
      invariant AclRole(acl, jid) == AclRole(acl.(entries := acl.entries[i..]), jid)
    {
      if Matches(acl.entries[i].jid, jid, FullWithWildcards) {
        role := acl.entries[i].role;
        return;
      }
      assert acl.entries[i..][1..] == acl.entries[i + 1..];
      i := i + 1;
    }
  }

  /** affiliations_find_by_jid: the position of the first match, or |list|. */
  method FindEntry(list: seq<Entry>, jid: Jid, mode: Mode) returns (i: nat)
    ensures i == Find(list, jid, mode)
  {
    i := 0;
    while i < |list|
      invariant i <= |list|
      invariant forall k :: 0 <= k < i ==> !Hit(list, k, jid, mode)
    {
      if Matches(list[i].jid, jid, mode) {
        assert Hit(list, i, jid, mode);
        return;
      }
      i := i + 1;
    }
  }

  /** The first list with a matching entry, or 5, and the position of the entry. */
  method FindInLists(lists: Lists, jid: Jid, mode: Mode) returns (list: nat, i: nat)
    ensures list == FindList(lists, jid, mode, 0)
    ensures list < 5 ==> i == Find(lists[list], jid, mode)
  {
    list, i := 0, 0;
    while list < 5
      invariant list <= 5
      invariant FindList(lists, jid, mode, 0) == FindList(lists, jid, mode, list)
    {
      i := FindEntry(lists[list], jid, mode);
      if i < |lists[list]| {
        return;
      }
      list := list + 1;
    }
  }

  /** affiliationss_get_by_jid. */
  method LookUp(lists: Lists, acl: Acl, jid: Jid) returns (affiliation: Affiliation)
    ensures affiliation == GetByJid(lists, acl, jid)
  {
    var role := FindAclRole(acl, jid);
    if role >= ACL_MUC_ADMIN {
      return OWNER;
    }
    // An entry for the person comes before any for the host.
    var list, _ := FindInLists(lists, jid, NodeAndHost);
    if list < 5 {
      return list;
    }
    // Nobody listed the person: an entry of the same host will do.
    var byHost, _ := FindInLists(lists, jid, HostOnly);
    affiliation := if byHost < 5 then byHost else NONE;
  }

  /** Who asks for a change of affiliation, as far as the rules care. */
  datatype Requester = Requester(jid: Jid, affiliation: Affiliation)

  function Without<T>(s: seq<T>, i: nat): (r: seq<T>)
    requires i < |s|
    ensures |r| == |s| - 1
    ensures forall k :: 0 <= k < i ==> r[k] == s[k]
    ensures forall k :: i <= k < |r| ==> r[k] == s[k + 1]
  {
    s[..i] + s[i + 1..]
  }

  /** A new reason replaces the stored one unless it is too long. */
  function SetReason(stored: Option<string>, reason: Option<string>): Option<string> {
    if reason.Some? && |reason.value| > MAX_REASON_SIZE then stored else reason
  }

  /** Only owners may add to, or take from, the admin and owner lists, and the only
   *  listed owner may not drop itself. */
  predicate Refused(lists: Lists, sender: Option<Requester>, affiliation: Affiliation, jid: Jid) {
    sender.Some? &&
    var list := FindList(lists, jid, NodeAndHost, 0);
    var notOwner := sender.value.affiliation != OWNER;
    || (notOwner && affiliation >= ADMIN)
    || (list < 5 && notOwner && list >= ADMIN)
    || (list == OWNER
        && |lists[OWNER]| == 1
        && Matches(sender.value.jid, lists[OWNER][0].jid, NodeAndHost))
  }

  /** The lists after moving `jid` to the list of `affiliation`. */
  function Moved(lists: Lists, affiliation: Affiliation, jid: Jid, reason: Option<string>): Lists {
    var list := FindList(lists, jid, NodeAndHost, 0);
    if list < 5 then
      var i := Find(lists[list], jid, NodeAndHost);
      var removed := lists[list := Without(lists[list], i)];
      if affiliation == NONE then removed
      else
        removed[affiliation := removed[affiliation] +
                  [Entry(WithoutResource(jid), SetReason(lists[list][i].reason, reason))]]
    else if affiliation == NONE then lists
    else
      lists[affiliation := lists[affiliation] + [Entry(WithoutResource(jid), SetReason(None, reason))]]
  }

  /** Every bare address occurs at most once in the five lists together, and nobody
   *  is listed under "none". */
  ghost predicate PartialMap(lists: Lists) {
    && lists[NONE] == []
    && forall a, i, b, j :: InLists(lists, a, i) && InLists(lists, b, j) && (a != b || i != j)
         ==> Bare(lists[a][i].jid) != Bare(lists[b][j].jid)
  }

  predicate InLists(lists: Lists, a: int, i: int) {
    0 <= a < 5 && 0 <= i < |lists[a]|
  }
}
