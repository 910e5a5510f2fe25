/** Laws of the affiliation lists. */
module AffiliationLaws {
  import opened Common
  import opened Jids
  import opened Affiliations

  /** The list that names a bare address, or 5. */
  function ListOf(lists: Lists, jid: Jid): (r: nat)
    ensures r <= 5
  {
    FindList(lists, jid, NodeAndHost, 0)
  }

  lemma {:induction false} ListedMeansInLists(lists: Lists, jid: Jid, a: nat)
    requires a < 5
    ensures Listed(lists[a], jid, NodeAndHost) <==>
            exists i :: InLists(lists, a, i) && Bare(lists[a][i].jid) == Bare(jid)
  {
    forall i | 0 <= i < |lists[a]|
      ensures Hit(lists[a], i, jid, NodeAndHost) <==> Bare(lists[a][i].jid) == Bare(jid)
    {
      MatchesIsCanonicalEquality(lists[a][i].jid, jid);
    }
    if i :| Hit(lists[a], i, jid, NodeAndHost) {
      assert InLists(lists, a, i);
    }
    if i :| InLists(lists, a, i) && Bare(lists[a][i].jid) == Bare(jid) {
      assert Hit(lists[a], i, jid, NodeAndHost);
    }
  }

  /** In a partial map, the list found is the only place of the address. */
  lemma {:induction false} FoundIsOnly(lists: Lists, jid: Jid)
    requires PartialMap(lists)
    ensures forall a, i :: InLists(lists, a, i) && Bare(lists[a][i].jid) == Bare(jid) ==>
              ListOf(lists, jid) == a && Find(lists[a], jid, NodeAndHost) == i
  {
    forall a, i | InLists(lists, a, i) && Bare(lists[a][i].jid) == Bare(jid)
      ensures ListOf(lists, jid) == a && Find(lists[a], jid, NodeAndHost) == i
    {
      MatchesIsCanonicalEquality(lists[a][i].jid, jid);
      assert Hit(lists[a], i, jid, NodeAndHost);
      var f := Find(lists[a], jid, NodeAndHost);
      if f < |lists[a]| {
        MatchesIsCanonicalEquality(lists[a][f].jid, jid);
        assert InLists(lists, a, f);
      }
      var b := ListOf(lists, jid);
      ListedMeansInLists(lists, jid, b);
      var j :| InLists(lists, b, j) && Bare(lists[b][j].jid) == Bare(jid);
    }
  }

  // ----- Looking up -----

  ghost predicate HasAddress(lists: Lists, a: nat, jid: Jid) {
    a < 5 && exists i :: InLists(lists, a, i) && Bare(lists[a][i].jid) == Bare(jid)
  }

  ghost predicate HasHost(lists: Lists, a: nat, jid: Jid) {
    a < 5 && exists i :: InLists(lists, a, i) && LowerText(lists[a][i].jid.host) == LowerText(jid.host)
  }

  lemma {:induction false} ListedMeansHasHost(lists: Lists, jid: Jid, a: nat)
    requires a < 5
    ensures Listed(lists[a], jid, HostOnly) <==> HasHost(lists, a, jid)
  {
    forall i | 0 <= i < |lists[a]|
      ensures Hit(lists[a], i, jid, HostOnly) <==> LowerText(lists[a][i].jid.host) == LowerText(jid.host)
    {
      MatchesIsCanonicalEquality(lists[a][i].jid, jid);
    }
    if i :| Hit(lists[a], i, jid, HostOnly) {
      assert InLists(lists, a, i);
    }
    if i :| InLists(lists, a, i) && LowerText(lists[a][i].jid.host) == LowerText(jid.host) {
      assert Hit(lists[a], i, jid, HostOnly);
    }
  }

  /** The list that decides: the lowest one that has the address, whatever the hosts say; if
   *  none has, the lowest one that has the host; the list of nobody if there is none either. */
  ghost predicate Decides(lists: Lists, jid: Jid, a: Affiliation) {
    if exists b: nat :: HasAddress(lists, b, jid) then
      HasAddress(lists, a, jid) && forall b: nat :: b < a ==> !HasAddress(lists, b, jid)
    else if exists b: nat :: HasHost(lists, b, jid) then
      HasHost(lists, a, jid) && forall b: nat :: b < a ==> !HasHost(lists, b, jid)
    else a == NONE
  }

  /** Service administrators own every room; anybody else is what the deciding list says. */
  lemma {:induction false} LookUpIsDecided(lists: Lists, acl: Acl, jid: Jid, a: Affiliation)
    requires a == GetByJid(lists, acl, jid)
    ensures if AclRole(acl, jid) >= ACL_MUC_ADMIN then a == OWNER else Decides(lists, jid, a)
  {
    forall b: nat | b < 5
      ensures Listed(lists[b], jid, NodeAndHost) <==> HasAddress(lists, b, jid)
      ensures Listed(lists[b], jid, HostOnly) <==> HasHost(lists, b, jid)
    {
      ListedMeansInLists(lists, jid, b);
      ListedMeansHasHost(lists, jid, b);
    }
    if AclRole(acl, jid) < ACL_MUC_ADMIN && FindList(lists, jid, NodeAndHost, 0) < 5 {
      assert HasAddress(lists, a, jid);
    }
  }

  // ----- Changing the lists -----

  /** A change is refused if and only if it puts somebody on the admin or owner list, or takes
   *  somebody from one, for a sender who is no owner; or it moves the only listed owner, and
   *  the sender is that owner. */
  lemma {:induction false} RefusedIff(lists: Lists, sender: Requester, affiliation: Affiliation, jid: Jid)
    requires PartialMap(lists)
    ensures Refused(lists, Some(sender), affiliation, jid) <==>
            || (sender.affiliation < OWNER && (affiliation == ADMIN || affiliation == OWNER))
            || (sender.affiliation < OWNER && (HasAddress(lists, ADMIN, jid) || HasAddress(lists, OWNER, jid)))
            || (HasAddress(lists, OWNER, jid) && HasAddress(lists, OWNER, sender.jid) && |lists[OWNER]| == 1)
  {
    FoundIsOnly(lists, jid);
    ListedMeansInLists(lists, jid, ADMIN);
    ListedMeansInLists(lists, jid, OWNER);
    if |lists[OWNER]| == 1 {
      MatchesIsCanonicalEquality(sender.jid, lists[OWNER][0].jid);
      assert InLists(lists, OWNER, 0);
    }
  }

  /** The moved address is the last of its new list, without a resource. It gets the new reason,
   *  also if that is none; only a reason over 65000 bytes leaves it the one that it had. */
  lemma {:induction false} MovedEntryIsLast(lists: Lists, affiliation: Affiliation, jid: Jid, reason: Option<string>)
    requires PartialMap(lists) && affiliation != NONE
    ensures var list := Moved(lists, affiliation, jid, reason)[affiliation];
            && list != [] && list[|list| - 1].jid == Jid(jid.node, jid.host, None)
            && var now := list[|list| - 1].reason;
               if reason.None? || |reason.value| <= 65000 then now == reason
               else
                 && (Absent(lists, jid) ==> now == None)
                 && forall a, i :: InLists(lists, a, i) && Bare(lists[a][i].jid) == Bare(jid) ==>
                      now == lists[a][i].reason
  {
    FoundIsOnly(lists, jid);
    var from := ListOf(lists, jid);
    if from < 5 {
      ListedMeansInLists(lists, jid, from);
    }
  }

  lemma {:induction false} RemovalKeepsPartialMap(lists: Lists, jid: Jid)
    requires PartialMap(lists) && ListOf(lists, jid) < 5
    ensures var list := ListOf(lists, jid);
            var removed: Lists := lists[list := Without(lists[list], Find(lists[list], jid, NodeAndHost))];
            PartialMap(removed) && Absent(removed, jid)
  {
    FoundIsOnly(lists, jid);
    var list := ListOf(lists, jid);
    var i := Find(lists[list], jid, NodeAndHost);
    var removed: Lists := lists[list := Without(lists[list], i)];
    forall a, k | InLists(removed, a, k)
      ensures Bare(removed[a][k].jid) != Bare(jid)
    {
      assert InLists(lists, a, if a == list && k >= i then k + 1 else k);
    }
    forall a, k, b, l | InLists(removed, a, k) && InLists(removed, b, l) && (a != b || k != l)
      ensures Bare(removed[a][k].jid) != Bare(removed[b][l].jid)
    {
      assert InLists(lists, a, if a == list && k >= i then k + 1 else k);
      assert InLists(lists, b, if b == list && l >= i then l + 1 else l);
    }
  }

  ghost predicate Absent(lists: Lists, jid: Jid) {
    forall a, i :: InLists(lists, a, i) ==> Bare(lists[a][i].jid) != Bare(jid)
  }

  lemma {:induction false} AppendKeepsPartialMap(lists: Lists, affiliation: Affiliation, e: Entry)
    requires PartialMap(lists) && Absent(lists, e.jid) && affiliation != NONE
    ensures PartialMap(lists[affiliation := lists[affiliation] + [e]])
  {
    var appended: Lists := lists[affiliation := lists[affiliation] + [e]];
    forall a, k | InLists(appended, a, k)
      ensures (a == affiliation && k == |lists[a]| && appended[a][k] == e)
           || (InLists(lists, a, k) && appended[a][k] == lists[a][k])
    {
    }
  }

  lemma {:induction false} MovedKeepsPartialMap(
      lists: Lists, affiliation: Affiliation, jid: Jid, reason: Option<string>)
    requires PartialMap(lists)
    ensures PartialMap(Moved(lists, affiliation, jid, reason))
  {
    var list := ListOf(lists, jid);
    if list < 5 {
      RemovalKeepsPartialMap(lists, jid);
      var i := Find(lists[list], jid, NodeAndHost);
      if affiliation != NONE {
        AppendKeepsPartialMap(lists[list := Without(lists[list], i)], affiliation,
                              Entry(WithoutResource(jid), SetReason(lists[list][i].reason, reason)));
      }
    } else if affiliation != NONE {
      forall a, i | InLists(lists, a, i)
        ensures Bare(lists[a][i].jid) != Bare(jid)
      {
        ListedMeansInLists(lists, jid, a);
      }
      AppendKeepsPartialMap(lists, affiliation, Entry(WithoutResource(jid), SetReason(None, reason)));
    }
  }

  /** Adding is a map update: the named address moves, and no other address does. */
  lemma {:induction false} MovedIsUpdate(
      lists: Lists, affiliation: Affiliation, jid: Jid, reason: Option<string>, other: Jid)
    requires PartialMap(lists)
    ensures ListOf(Moved(lists, affiliation, jid, reason), other) ==
            if Bare(other) != Bare(jid) then ListOf(lists, other)
            else if affiliation == NONE then 5
            else affiliation
  {
    var moved := Moved(lists, affiliation, jid, reason);
    MovedKeepsPartialMap(lists, affiliation, jid, reason);
    FoundIsOnly(lists, jid);
    FoundIsOnly(lists, other);
    FoundIsOnly(moved, other);
    var from, to := ListOf(lists, other), ListOf(moved, other);
    if from < 5 {
      ListedMeansInLists(lists, other, from);
      if Bare(other) != Bare(jid) {
        var i :| InLists(lists, from, i) && Bare(lists[from][i].jid) == Bare(other);
        SurvivorIsListed(lists, affiliation, jid, reason, from, i);
      }
    }
    if to < 5 {
      ListedMeansInLists(moved, other, to);
      var i :| InLists(moved, to, i) && Bare(moved[to][i].jid) == Bare(other);
      MovedEntryOrigin(lists, affiliation, jid, reason, to, i);
    }
    if Bare(other) == Bare(jid) && affiliation != NONE {
      var last := |moved[affiliation]| - 1;
      assert InLists(moved, affiliation, last) && Bare(moved[affiliation][last].jid) == Bare(jid);
    }
  }

  lemma {:induction false} SurvivorIsListed(
      lists: Lists, affiliation: Affiliation, jid: Jid, reason: Option<string>, a: nat, i: nat)
    requires PartialMap(lists) && InLists(lists, a, i) && Bare(lists[a][i].jid) != Bare(jid)
    ensures exists j :: InLists(Moved(lists, affiliation, jid, reason), a, j)
                        && Moved(lists, affiliation, jid, reason)[a][j] == lists[a][i]
  {
    var moved := Moved(lists, affiliation, jid, reason);
    var list := ListOf(lists, jid);
    if list == a {
      var f := Find(lists[list], jid, NodeAndHost);
      MatchesIsCanonicalEquality(lists[list][f].jid, jid);
      var j := if i < f then i else i - 1;
      assert InLists(moved, a, j) && moved[a][j] == lists[a][i];
    } else {
      assert InLists(moved, a, i) && moved[a][i] == lists[a][i];
    }
  }

  /** An entry of the new lists is the added one or an old one of the same list. */
  lemma {:induction false} MovedEntryOrigin(
      lists: Lists, affiliation: Affiliation, jid: Jid, reason: Option<string>, a: nat, i: nat)
    requires PartialMap(lists) && InLists(Moved(lists, affiliation, jid, reason), a, i)
    ensures var e := Moved(lists, affiliation, jid, reason)[a][i];
            || (a == affiliation && affiliation != NONE && Bare(e.jid) == Bare(jid))
            || (Bare(e.jid) != Bare(jid) && exists j :: InLists(lists, a, j) && lists[a][j] == e)
  {
    FoundIsOnly(lists, jid);
    var moved := Moved(lists, affiliation, jid, reason);
    var list := ListOf(lists, jid);
    var added := a == affiliation && affiliation != NONE && i == |moved[a]| - 1;
    if !added {
      var j := if list == a && i >= Find(lists[list], jid, NodeAndHost) then i + 1 else i;
      assert InLists(lists, a, j) && lists[a][j] == moved[a][i];
    }
  }

  /** A listed owner who is not refused leaves the owner list non-empty. */
  lemma {:induction false} OwnersSurvive(
      lists: Lists, sender: Requester, affiliation: Affiliation, jid: Jid, reason: Option<string>)
    requires PartialMap(lists)
    requires Listed(lists[OWNER], sender.jid, NodeAndHost)
    requires !Refused(lists, Some(sender), affiliation, jid)
    ensures Moved(lists, affiliation, jid, reason)[OWNER] != []
  {
    ListedMeansInLists(lists, sender.jid, OWNER);
    var i :| InLists(lists, OWNER, i) && Bare(lists[OWNER][i].jid) == Bare(sender.jid);
    MatchesIsCanonicalEquality(sender.jid, lists[OWNER][0].jid);
  }

  /** Exactly when a change empties the owner list: an owner that is not itself the entry
   *  takes the only entry away. */
  lemma {:induction false} OwnersAreEmptiedIff(
      lists: Lists, sender: Requester, affiliation: Affiliation, jid: Jid, reason: Option<string>)
    requires PartialMap(lists) && lists[OWNER] != []
    ensures !Refused(lists, Some(sender), affiliation, jid) && Moved(lists, affiliation, jid, reason)[OWNER] == [] <==>
            && |lists[OWNER]| == 1 && Bare(lists[OWNER][0].jid) == Bare(jid)
            && affiliation != OWNER && sender.affiliation == OWNER && Bare(sender.jid) != Bare(jid)
  {
    var owner := lists[OWNER][0].jid;
    MatchesIsCanonicalEquality(sender.jid, owner);
    assert InLists(lists, OWNER, 0);
    if Bare(owner) == Bare(jid) {
      FoundIsOnly(lists, jid);
    } else {
      SurvivorIsListed(lists, affiliation, jid, reason, OWNER, 0);
    }
  }

  /** Somebody on no list, with the host of an owner and of nobody on a list before the
   *  owners', is looked up as owner by the host pass. If that owner is the only one, the
   *  somebody may remove it, and is then nothing itself. */
  lemma {:induction false} HostMateEmptiesOwners(
      lists: Lists, acl: Acl, sender: Jid, owner: Jid, reason: Option<string>)
    requires PartialMap(lists) && |lists[OWNER]| == 1 && lists[OWNER][0].jid == owner
    requires AclRole(acl, sender) < ACL_MUC_ADMIN
    requires FindList(lists, sender, NodeAndHost, 0) == 5 && FindList(lists, sender, HostOnly, 0) == OWNER
    ensures LowerText(owner.host) == LowerText(sender.host)
    ensures GetByJid(lists, acl, sender) == OWNER
    ensures !Refused(lists, Some(Requester(sender, OWNER)), NONE, owner)
    ensures var after := Moved(lists, NONE, owner, reason);
            after == lists[OWNER := []] && GetByJid(after, acl, sender) == NONE
  {
    MatchesIsCanonicalEquality(owner, sender);
    assert !Hit(lists[OWNER], 0, sender, NodeAndHost);
    OwnersAreEmptiedIff(lists, Requester(sender, OWNER), NONE, owner, reason);
    OnlyOwnerIsRemoved(lists, owner, reason);
    LookUpsWithoutOwners(lists, sender);
  }

  /** An owner who is neither the listed one nor a service administrator is such a host mate. */
  lemma {:induction false} OtherOwnerIsHostMate(lists: Lists, acl: Acl, jid: Jid)
    requires |lists[OWNER]| == 1 && Bare(lists[OWNER][0].jid) != Bare(jid)
    requires AclRole(acl, jid) < ACL_MUC_ADMIN && GetByJid(lists, acl, jid) == OWNER
    ensures FindList(lists, jid, NodeAndHost, 0) == 5 && FindList(lists, jid, HostOnly, 0) == OWNER
  {
    MatchesIsCanonicalEquality(lists[OWNER][0].jid, jid);
    assert !Listed(lists[OWNER], jid, NodeAndHost);
  }

  lemma {:induction false} OnlyOwnerIsRemoved(lists: Lists, owner: Jid, reason: Option<string>)
    requires PartialMap(lists) && |lists[OWNER]| == 1 && Bare(lists[OWNER][0].jid) == Bare(owner)
    ensures Moved(lists, NONE, owner, reason) == lists[OWNER := []]
  {
    assert InLists(lists, OWNER, 0);
    FoundIsOnly(lists, owner);
    assert Without(lists[OWNER], 0) == [];
  }

  /** Without the owner list, whoever was found on it or nowhere is found nowhere. */
  lemma {:induction false} LookUpsWithoutOwners(lists: Lists, jid: Jid)
    requires FindList(lists, jid, NodeAndHost, 0) == 5 && FindList(lists, jid, HostOnly, 0) >= OWNER
    ensures FindList(lists[OWNER := []], jid, NodeAndHost, 0) == 5
    ensures FindList(lists[OWNER := []], jid, HostOnly, 0) == 5
  {
    var after: Lists := lists[OWNER := []];
    forall k, mode | 0 <= k < 5 && (mode == NodeAndHost || mode == HostOnly)
      ensures !Listed(after[k], jid, mode)
    {
      if k < OWNER {
        assert after[k] == lists[k];
      }
    }
  }

  /** A requester below owner leaves the admin and owner lists alone. */
  lemma {:induction false} BelowOwnerCannotTouchTop(
      lists: Lists, sender: Requester, affiliation: Affiliation, jid: Jid, reason: Option<string>)
    requires sender.affiliation != OWNER && !Refused(lists, Some(sender), affiliation, jid)
    ensures Moved(lists, affiliation, jid, reason)[ADMIN] == lists[ADMIN]
    ensures Moved(lists, affiliation, jid, reason)[OWNER] == lists[OWNER]
  {
  }

  /** An admin stays below owner when only lists below admin change. */
  lemma {:induction false} AdminStaysBelowOwner(before: Lists, after: Lists, acl: Acl, jid: Jid)
    requires before[ADMIN] == after[ADMIN] && before[OWNER] == after[OWNER]
    requires GetByJid(before, acl, jid) == ADMIN
    ensures GetByJid(after, acl, jid) < OWNER
  {
    assert Listed(before[ADMIN], jid, NodeAndHost) || Listed(before[ADMIN], jid, HostOnly);
    if i :| Hit(before[ADMIN], i, jid, NodeAndHost) {
      assert Hit(after[ADMIN], i, jid, HostOnly);
    }
  }
}
