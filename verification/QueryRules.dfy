/** What one query does to a room, who gets which answer, and whom it tells. */
module QueryRules {
  import opened Common
  import opened Jids
  import opened Affiliations
  import opened AffiliationLaws
  import opened RoomModel
  import opened RoomInvariants
  import opened Roster
  import opened RosterLaws
  import opened RoomLaws
  import opened MixedSets

  // ----- Queries to an occupant -----

  /** A query to an occupant is passed on, in the name of its sender, if and only if both are in
   *  the room and the room passes on queries. A get for a vCard goes to the bare address. */
  lemma {:induction false} QueryIsPassedOnIff(
      s: RoomState, acl: Acl, st: Stanza, sender: nat, receiver: nat, after: Outcome)
    requires st.Iq? && st.nick.Some? && sender == FindByJid(s.occupants, st.from)
    requires receiver == FindByNick(s.occupants, st.nick.value) && after == Route(s, acl, st)
    ensures after.state == s && |after.sent| == 1
    ensures after.sent[0].ProxiedIq? <==>
            sender < |s.occupants| && receiver < |s.occupants| && IqProxy in s.flags
    ensures after.sent[0].ProxiedIq? ==>
              var to := s.occupants[receiver].jid;
              && after.sent[0].fromNick == s.occupants[sender].nick
              && after.sent[0].to == if st.kind == Get && st.vcard then Jid(to.node, to.host, None) else to
    ensures sender == |s.occupants| ==> after.sent[0] == Bounce(st.from, ExternalIq)
    ensures sender < |s.occupants| && IqProxy !in s.flags ==> after.sent[0] == Bounce(st.from, IqProhibited)
    ensures sender < |s.occupants| == receiver && IqProxy in s.flags ==>
              after.sent[0] == Bounce(st.from, RecipientNotInRoom)
  {
  }

  // ----- Asking the room -----

  /** The admin query that asks for the list of an affiliation. */
  predicate AsksFor(q: Query, a: Affiliation) {
    && q.Admin? && q.items.Some? && q.items.value != []
    && q.items.value[0].Item? && q.items.value[0].affiliation == Some(a)
  }

  /** Asking changes nothing and is answered by one packet. Anybody may see what the room is;
   *  who is in it, if the room says so; admins in the room see the lists, except that of nobody;
   *  owners in the room the configuration. */
  lemma {:induction false} AnswerIff(s: RoomState, acl: Acl, st: Stanza, sender: nat, after: Outcome)
    requires st.Iq? && st.nick.None? && st.kind == Get
    requires sender == FindByJid(s.occupants, st.from) && after == Route(s, acl, st)
    ensures after.state == s && |after.sent| == 1
    ensures after.sent[0] == IqResult(st.from, RoomInfo) <==> st.query == DiscoInfo
    ensures after.sent[0] == IqResult(st.from, RoomItems) <==> st.query == DiscoItems && PublicParticipants in s.flags
    ensures after.sent[0] == IqResult(st.from, RoomConfig) <==>
            st.query.Owner? && sender < |s.occupants| && s.occupants[sender].affiliation == OWNER
    ensures forall a: Affiliation, list :: after.sent[0] == IqResult(st.from, AffiliationItems(a, list)) <==>
              && AsksFor(st.query, a) && a != NONE && list == s.lists[a]
              && sender < |s.occupants| && (s.occupants[sender].affiliation in {ADMIN, OWNER})
    ensures after.sent[0].IqResult? || after.sent[0].Bounce?
  {
  }

  /** Why there is no answer. */
  lemma {:induction false} NoAnswerBecause(s: RoomState, acl: Acl, st: Stanza, sender: nat, after: Outcome)
    requires st.Iq? && st.nick.None? && st.kind == Get
    requires sender == FindByJid(s.occupants, st.from) && after == Route(s, acl, st) && after.sent[0].Bounce?
    ensures after.sent[0].to == st.from
    ensures var error := after.sent[0].error;
            && (error == NotImplemented <==> st.query == DiscoItems || st.query == OtherNamespace)
            && (error == ExternalIq <==> sender == |s.occupants| && (st.query.Owner? || st.query.Admin?)
                                         && st.query != Admin(None))
            && (error == PrivilegeLevel <==>
                sender < |s.occupants| && st.query != Admin(None) &&
                ((st.query.Owner? && s.occupants[sender].affiliation < OWNER) ||
                 (st.query.Admin? && s.occupants[sender].affiliation < ADMIN)))
            && error in {NotImplemented, ExternalIq, PrivilegeLevel, BadRequest}
  {
  }

  // ----- Sets that are refused at once -----

  /** Nothing happens. */
  predicate TurnedAway(s: RoomState, st: Stanza, after: Outcome, error: Error) {
    after == Outcome(s, [Bounce(st.from, error)])
  }

  /** A set needs a query with something in it, from an occupant: for the lists and the roles
   *  from a moderator, for the configuration and the end of the room from an owner. */
  lemma {:induction false} SetIsTurnedAway(s: RoomState, acl: Acl, st: Stanza, sender: nat, after: Outcome)
    requires st.Iq? && st.nick.None? && st.kind == Set
    requires sender == FindByJid(s.occupants, st.from) && after == Route(s, acl, st)
    ensures st.query == NoQuery ==> TurnedAway(s, st, after, BadRequest)
    ensures st.query.DiscoInfo? || st.query.DiscoItems? || st.query.OtherNamespace? ==>
              TurnedAway(s, st, after, NotImplemented)
    ensures st.query == Admin(None) || st.query == Owner(None) ==> TurnedAway(s, st, after, BadRequest)
    ensures (st.query.Admin? && st.query.items.Some?) || (st.query.Owner? && st.query.action.Some?) ==>
              if sender == |s.occupants| then TurnedAway(s, st, after, ExternalIq)
              else
                && (st.query.Admin? && s.occupants[sender].role != MODERATOR ==>
                      TurnedAway(s, st, after, PrivilegeLevel))
                && (st.query.Owner? && s.occupants[sender].affiliation != OWNER ==>
                      TurnedAway(s, st, after, PrivilegeLevel))
                && (st.query == Owner(Some(None)) && s.occupants[sender].affiliation == OWNER ==>
                      TurnedAway(s, st, after, NotImplemented))
  {
  }

  /** The room answers nothing but gets and sets. */
  lemma {:induction false} OnlyGetsAndSets(s: RoomState, acl: Acl, st: Stanza)
    requires st.Iq? && st.nick.None? && st.kind != Get && st.kind != Set
    ensures TurnedAway(s, st, Route(s, acl, st), if st.query == NoQuery then BadRequest else NotImplemented)
  {
  }

  // ----- Which items pass, and what the others are told -----

  /** The item gives a role to a nick, and nothing else. */
  predicate AsksForRole(item: Item) {
    item.Item? && item.role.Some? && item.affiliation == None && item.nick != None && item.nick != Some("")
  }

  /** The item gives an affiliation to an address, and nothing else. */
  predicate AsksForAffiliation(item: Item) {
    item.Item? && item.role == None && item.affiliation.Some? && item.jid != None
  }

  lemma {:induction false} WellFormedIff(item: Item)
    ensures WellFormedItem(item) <==> AsksForRole(item) || AsksForAffiliation(item)
  {
  }

  /** The sender may give this role: nobody's who is an admin or owner then, and for a sender who
   *  is neither, no moderator's and not that of a moderator. */
  predicate MayGive(s: RoomState, acl: Acl, sender: nat, items: seq<Item>, target: nat, role: Role)
    requires sender < |s.occupants| && target < |s.occupants|
  {
    && AffiliationAfter(s, acl, items, target) !in {ADMIN, OWNER}
    && (AffiliationAfter(s, acl, items, sender) in {ADMIN, OWNER}
        || (role != MODERATOR && RoleAfter(s, acl, items, target) != MODERATOR))
  }

  /** The sender may give this affiliation: an owner any, unless it is the only listed owner and
   *  means itself; an admin those below, to whoever is neither admin nor owner. */
  ghost predicate MayMove(s: RoomState, acl: Acl, sender: nat, items: seq<Item>, jid: Jid, affiliation: Affiliation)
    requires sender < |s.occupants|
  {
    var lists, mine := ListsAfter(s.lists, items), AffiliationAfter(s, acl, items, sender);
    && (mine == OWNER || (mine == ADMIN && affiliation !in {ADMIN, OWNER}
                          && !HasAddress(lists, ADMIN, jid) && !HasAddress(lists, OWNER, jid)))
    && !(HasAddress(lists, OWNER, jid) && HasAddress(lists, OWNER, s.occupants[sender].jid) && |lists[OWNER]| == 1)
  }

  lemma {:induction false} ListsStayPartial(lists: Lists, items: seq<Item>)
    requires PartialMap(lists)
    ensures PartialMap(ListsAfter(lists, items))
    decreases |items|
  {
    if items != [] {
      var before, item := items[..|items| - 1], items[|items| - 1];
      ListsStayPartial(lists, before);
      if MovesSomebody(item) {
        MovedKeepsPartialMap(ListsAfter(lists, before), item.affiliation.value, item.jid.value, item.reason);
      }
    }
  }

  lemma {:induction false} PassesIff(s: RoomState, acl: Acl, sender: nat, items: seq<Item>, item: Item)
    requires sender < |s.occupants| && PartialMap(s.lists)
    ensures AsksForRole(item) ==>
              var target := FindByNick(s.occupants, item.nick.value);
              Passes(s, acl, sender, items, item) <==>
              target < |s.occupants| && MayGive(s, acl, sender, items, target, item.role.value)
    ensures AsksForAffiliation(item) ==>
              (Passes(s, acl, sender, items, item) <==>
               MayMove(s, acl, sender, items, item.jid.value, item.affiliation.value))
    ensures Passes(s, acl, sender, items, item) ==> AsksForRole(item) || AsksForAffiliation(item)
  {
    if WellFormedItem(item) && item.affiliation.Some? {
      ListsStayPartial(s.lists, items);
      RefusedIff(ListsAfter(s.lists, items),
                 Requester(s.occupants[sender].jid, AffiliationAfter(s, acl, items, sender)),
                 item.affiliation.value, item.jid.value);
    }
  }

  /** What the sender of a refused item is told: that it says both or neither, or lacks the nick
   *  or the address; that nobody has the nick; or that it may not. */
  predicate Explains(s: RoomState, item: Item, error: Error) {
    if !AsksForRole(item) && !AsksForAffiliation(item) then error == BadRequest
    else if item.role.Some? && forall k :: 0 <= k < |s.occupants| ==> s.occupants[k].nick != item.nick.value then
      error == RecipientNotInRoom
    else error == PrivilegeLevel
  }

  lemma {:induction false} ItemIsExplained(
      s: RoomState, m: Marked, acl: Acl, sender: nat, items: seq<Item>, item: Item, r: AdminResult)
    requires m.Valid() && sender < |s.occupants| && Standing(s, acl, items, m.state)
    requires r == ApplyItem(m, acl, sender, item) && r.error.Some?
    ensures Explains(s, item, r.error.value)
  {
    if WellFormedItem(item) && item.role.Some? {
      SameNicksFound(s.occupants, m.state.occupants, item.nick.value);
    }
  }

  lemma {:induction false} ErrorIsExplained(
      s: RoomState, m: Marked, acl: Acl, sender: nat, items: seq<Item>, n: nat, r: AdminResult)
    requires DistinctNicks(s) && m.Valid() && sender < |s.occupants| && n <= |items|
    requires Standing(s, acl, items[..n], m.state) && r == ApplyItems(m, acl, sender, items[n..])
    ensures var stop := FirstRefused(s, acl, sender, items, n);
            stop < |items| ==> r.error.Some? && Explains(s, items[stop], r.error.value)
    decreases |items| - n
  {
    if n < |items| {
      var first := ApplyItem(m, acl, sender, items[n]);
      assert items[n..][0] == items[n] && items[n..][1..] == items[n + 1..];
      assert items[..n] + [items[n]] == items[..n + 1];
      ItemStands(s, m, acl, sender, items[..n], items[n], first);
      if first.error.None? {
        ErrorIsExplained(s, first.marked, acl, sender, items, n + 1, r);
      } else {
        ItemIsExplained(s, m, acl, sender, items[..n], items[n], first);
      }
    }
  }

  /** A set with a refused item is bounced with what the first such item deserves. */
  lemma {:induction false} BounceIsExplained(
      s: RoomState, acl: Acl, st: Stanza, sender: nat, items: seq<Item>, stop: nat, after: Outcome)
    requires Inv(s, acl) && Destroyed !in s.flags
    requires sender == FindByJid(s.occupants, st.from) < |s.occupants| && s.occupants[sender].role == MODERATOR
    requires st == Iq(st.from, None, Set, Admin(Some(items)), false) && after == Route(s, acl, st)
    requires stop == FirstRefused(s, acl, sender, items, 0) < |items|
    ensures |after.sent| == 1 && after.sent[0].Bounce? && after.sent[0].to == st.from
    ensures Explains(s, items[stop], after.sent[0].error)
  {
    var r := ApplyItems(Marked(s, []), acl, sender, items);
    assert items[..0] == [] && items[0..] == items;
    StandsAsItIs(s, acl);
    ErrorIsExplained(s, Marked(s, []), acl, sender, items, 0, r);
    RefusedSetIsSilent(s, acl, st, sender, items, r, after);
  }
}
