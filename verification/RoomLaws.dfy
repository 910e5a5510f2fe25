/** Laws of single stanzas: what an admin set can and cannot do, and how a room starts. */
module RoomLaws {
  import opened Common
  import opened Jids
  import opened Affiliations
  import opened AffiliationLaws
  import opened RoomModel
  import opened RoomInvariants
  import opened Roster
  import opened RosterLaws

  // ----- No self-promotion -----

  /** Recomputation touches affiliations by the lists only. */
  lemma {:induction false} RecomputeResult(m: Marked, acl: Acl, i: nat, reason: Option<string>)
    requires m.Valid() && i <= |m.state.occupants|
    ensures var r := Recompute(m, acl, i, reason);
            && r.state.lists == m.state.lists
            && forall k :: 0 <= k < |m.state.occupants| ==>
                 && r.state.occupants[k].jid == m.state.occupants[k].jid
                 && r.state.occupants[k].nick == m.state.occupants[k].nick
                 && r.state.occupants[k].affiliation ==
                    (if k < i then m.state.occupants[k].affiliation
                     else GetByJid(m.state.lists, acl, m.state.occupants[k].jid))
    decreases |m.state.occupants| - i
  {
    if i < |m.state.occupants| {
      RecomputeResult(RecomputeOne(m, acl, i, reason), acl, i + 1, reason);
    }
  }

  /** Through the whole item loop of a sender below owner, and so through each of its
   *  prefixes, the admin and owner lists stay and the sender stays below owner. */
  lemma {:induction false} NoSelfPromotion(m: Marked, acl: Acl, sender: nat, items: seq<Item>)
    requires m.Valid() && sender < |m.state.occupants| && Inv(m.state, acl) && Destroyed !in m.state.flags
    requires m.state.occupants[sender].affiliation < OWNER
    ensures var r := ApplyItems(m, acl, sender, items).marked.state;
            && r.lists[ADMIN] == m.state.lists[ADMIN]
            && r.lists[OWNER] == m.state.lists[OWNER]
            && r.occupants[sender].jid == m.state.occupants[sender].jid
            && r.occupants[sender].affiliation == GetByJid(r.lists, acl, r.occupants[sender].jid)
            && r.occupants[sender].affiliation < OWNER
    decreases |items|
  {
    if items != [] {
      var first := ApplyItem(m, acl, sender, items[0]);
      ApplyItemsKeeps(m, acl, sender, [items[0]]);
      assert ApplyItems(m, acl, sender, [items[0]]).marked == first.marked;
      ItemDoesNotPromote(m, acl, sender, items[0], first);
      NoSelfPromotion(first.marked, acl, sender, items[1..]);
    }
  }

  /** The top lists stay, and so does the sender, below owner. */
  ghost predicate NotPromoted(s: RoomState, r: RoomState, sender: nat) {
    && sender < |s.occupants| == |r.occupants|
    && r.flags == s.flags
    && r.lists[ADMIN] == s.lists[ADMIN]
    && r.lists[OWNER] == s.lists[OWNER]
    && r.occupants[sender].jid == s.occupants[sender].jid
    && r.occupants[sender].affiliation < OWNER
  }

  lemma {:induction false} ItemDoesNotPromote(m: Marked, acl: Acl, sender: nat, item: Item, r: AdminResult)
    requires m.Valid() && sender < |m.state.occupants| && Inv(m.state, acl) && Destroyed !in m.state.flags
    requires m.state.occupants[sender].affiliation < OWNER && r == ApplyItem(m, acl, sender, item)
    ensures NotPromoted(m.state, r.marked.state, sender)
  {
    if WellFormedItem(item) && item.affiliation.Some? {
      AffiliationItemDoesNotPromote(m, acl, sender, item.jid.value, item.affiliation.value, item.reason, r);
    }
  }

  lemma {:induction false} AffiliationItemDoesNotPromote(
      m: Marked, acl: Acl, sender: nat, jid: Jid, affiliation: Affiliation, reason: Option<string>, r: AdminResult)
    requires m.Valid() && sender < |m.state.occupants| && Inv(m.state, acl) && Destroyed !in m.state.flags
    requires m.state.occupants[sender].affiliation < OWNER
    requires r == AffiliationItem(m, acl, sender, jid, affiliation, reason)
    ensures NotPromoted(m.state, r.marked.state, sender)
  {
    var who := m.state.occupants[sender];
    if r.error.None? {
      BelowOwnerCannotTouchTop(m.state.lists, Requester(who.jid, who.affiliation), affiliation, jid, reason);
      var lists := Moved(m.state.lists, affiliation, jid, reason);
      RecomputeResult(m.(state := m.state.(lists := lists)), acl, 0, reason);
      RecomputeKeepsFlags(m.(state := m.state.(lists := lists)), acl, 0, reason);
      AdminStaysBelowOwner(m.state.lists, lists, acl, who.jid);
    }
  }

  // ----- Moderators who are not admins -----

  /** Nothing that matters to privileges has changed at position `k`. */
  predicate SamePrivileges(o: Occupant, p: Occupant) {
    && o.jid == p.jid && o.nick == p.nick && o.affiliation == p.affiliation
    && (o.role == MODERATOR <==> p.role == MODERATOR)
  }

  lemma {:induction false} ModeratorItems(m: Marked, acl: Acl, sender: nat, items: seq<Item>)
    requires m.Valid() && sender < |m.state.occupants|
    requires m.state.occupants[sender].affiliation < ADMIN
    ensures var r := ApplyItems(m, acl, sender, items).marked.state;
            && r.lists == m.state.lists && r.flags == m.state.flags
            && forall k :: 0 <= k < |r.occupants| ==> SamePrivileges(m.state.occupants[k], r.occupants[k])
    decreases |items|
  {
    if items != [] {
      ModeratorItems(ApplyItem(m, acl, sender, items[0]).marked, acl, sender, items[1..]);
    }
  }

  /** Everybody on the affected list is no moderator. */
  ghost predicate OnlyOthers(s: RoomState, affected: seq<nat>) {
    forall k :: 0 <= k < |affected| && affected[k] < |s.occupants| ==> s.occupants[affected[k]].role != MODERATOR
  }

  lemma {:induction false} ModeratorItemsAffectOthers(m: Marked, acl: Acl, sender: nat, items: seq<Item>)
    requires m.Valid() && sender < |m.state.occupants| && OnlyOthers(m.state, m.affected)
    requires m.state.occupants[sender].affiliation < ADMIN
    ensures OnlyOthers(ApplyItems(m, acl, sender, items).marked.state,
                       ApplyItems(m, acl, sender, items).marked.affected)
    decreases |items|
  {
    if items != [] {
      ModeratorItemsAffectOthers(ApplyItem(m, acl, sender, items[0]).marked, acl, sender, items[1..]);
    }
  }

  ghost function Moderators(s: RoomState): set<Jid> {
    set o | o in s.occupants && o.role == MODERATOR :: o.jid
  }

  ghost function Standings(s: RoomState): set<(Jid, string, Affiliation)> {
    set o | o in s.occupants :: (o.jid, o.nick, o.affiliation)
  }

  /** From `s` to `r` the lists stay, those who are left keep their stored affiliation,
   *  and no moderator is made or lost. */
  ghost predicate Spares(s: RoomState, r: RoomState) {
    && r.lists == s.lists
    && Standings(r) <= Standings(s)
    && Moderators(r) == Moderators(s)
  }

  lemma {:induction false} SparesPointwise(s: RoomState, r: RoomState)
    requires r.lists == s.lists && |r.occupants| == |s.occupants|
    requires forall k :: 0 <= k < |s.occupants| ==> SamePrivileges(s.occupants[k], r.occupants[k])
    ensures Spares(s, r)
  {
    forall o | o in r.occupants
      ensures exists p :: p in s.occupants && SamePrivileges(p, o)
    {
      var k :| 0 <= k < |r.occupants| && r.occupants[k] == o;
      assert s.occupants[k] in s.occupants && SamePrivileges(s.occupants[k], o);
    }
    forall p | p in s.occupants
      ensures exists o :: o in r.occupants && SamePrivileges(p, o)
    {
      var k :| 0 <= k < |s.occupants| && s.occupants[k] == p;
      assert r.occupants[k] in r.occupants && SamePrivileges(p, r.occupants[k]);
    }
  }

  lemma {:induction false} SparesLeaving(s: RoomState, i: nat)
    requires i < |s.occupants| && s.occupants[i].role != MODERATOR
    ensures Spares(s, Leave(s, i))
  {
    var r := Leave(s, i);
    forall o | o in r.occupants
      ensures o in s.occupants
    {
      var k :| 0 <= k < |r.occupants| && r.occupants[k] == o;
      assert o == s.occupants[if k >= i then k + 1 else k];
    }
    forall p | p in s.occupants && p.role == MODERATOR
      ensures p in r.occupants
    {
      var k :| 0 <= k < |s.occupants| && s.occupants[k] == p;
      assert p == r.occupants[if k > i then k - 1 else k];
    }
  }

  lemma {:induction false} SparesCompose(s: RoomState, t: RoomState, u: RoomState)
    requires Spares(s, t) && Spares(t, u)
    ensures Spares(s, u)
  {
  }

  /** The final loop removes only affected occupants and changes nobody's affiliation. */
  lemma {:induction false} FinishSparesModerators(s: RoomState, affected: seq<nat>)
    requires Positions(s, affected) && OnlyOthers(s, affected)
    ensures Spares(s, Finish(s, affected).state)
    decreases |affected|
  {
    if affected == [] {
      SparesPointwise(s, s);
    } else {
      var i := affected[0];
      var settled := WithOccupant(s, i, Settled(s.flags, s.occupants[i]));
      SparesPointwise(s, settled);
      if settled.occupants[i].role == ROLE_NONE {
        SparesLeaving(settled, i);
        SparesCompose(s, settled, Leave(settled, i));
        FinishSparesModerators(Leave(settled, i), Shifted(affected[1..], i));
        SparesCompose(s, Leave(settled, i), Finish(s, affected).state);
      } else {
        var cleared := WithOccupant(settled, i, settled.occupants[i].(reason := None));
        SparesPointwise(s, cleared);
        FinishSparesModerators(cleared, affected[1..]);
        SparesCompose(s, cleared, Finish(s, affected).state);
      }
    }
  }

  /** A whole admin set from a moderator below admin, bounced or not, leaves the lists,
   *  the stored affiliation of everybody who stays, and the set of moderators. */
  lemma {:induction false} ModeratorSetKeepsPrivileges(s: RoomState, acl: Acl, st: Stanza)
    requires st.Iq? && st.nick.None? && st.kind == Set && st.query.Admin?
    requires FindByJid(s.occupants, st.from) < |s.occupants|
    requires s.occupants[FindByJid(s.occupants, st.from)].affiliation < ADMIN
    ensures Spares(s, Route(s, acl, st).state)
  {
    var sender := FindByJid(s.occupants, st.from);
    SparesPointwise(s, s);
    if st.query.items.Some? && s.occupants[sender].role >= MODERATOR {
      var items := st.query.items.value;
      ModeratorItems(Marked(s, []), acl, sender, items);
      ModeratorItemsAffectOthers(Marked(s, []), acl, sender, items);
      var applied := ApplyItems(Marked(s, []), acl, sender, items);
      SparesPointwise(s, applied.marked.state);
      if applied.error.None? {
        FinishSparesModerators(applied.marked.state, applied.marked.affected);
        SparesCompose(s, applied.marked.state, Finish(applied.marked.state, applied.marked.affected).state);
      }
    }
  }

  // ----- The last owner -----

  function RemovalOf(jid: Jid): seq<Item> {
    [Item(None, Some(jid), None, Some(NONE), None)]
  }

  lemma {:induction false} FinishKeepsLists(s: RoomState, affected: seq<nat>)
    requires Positions(s, affected)
    ensures Finish(s, affected).state.lists == s.lists
    decreases |affected|
  {
    if affected != [] {
      var i := affected[0];
      var settled := WithOccupant(s, i, Settled(s.flags, s.occupants[i]));
      if settled.occupants[i].role == ROLE_NONE {
        FinishKeepsLists(Leave(settled, i), Shifted(affected[1..], i));
      } else {
        FinishKeepsLists(WithOccupant(settled, i, settled.occupants[i].(reason := None)), affected[1..]);
      }
    }
  }

  lemma {:induction false} RemovalIsApplied(s: RoomState, acl: Acl, sender: nat, jid: Jid, r: AdminResult)
    requires sender < |s.occupants| && s.occupants[sender].affiliation >= ADMIN
    requires !Refused(s.lists, Some(Requester(s.occupants[sender].jid, s.occupants[sender].affiliation)), NONE, jid)
    requires r == ApplyItems(Marked(s, []), acl, sender, RemovalOf(jid))
    ensures r.error.None? && r.marked.state.lists == Moved(s.lists, NONE, jid, None)
  {
    var items := RemovalOf(jid);
    assert items[1..] == [];
    assert r == AffiliationItem(Marked(s, []), acl, sender, jid, NONE, None);
    RecomputeResult(Marked(s.(lists := Moved(s.lists, NONE, jid, None)), []), acl, 0, None);
  }

  /** One accepted admin set with one item leaves the lists that the item makes. */
  lemma {:induction false} OneItemMovesTheLists(
      s: RoomState, acl: Acl, st: Stanza, sender: nat, jid: Jid, after: Outcome)
    requires sender == FindByJid(s.occupants, st.from) < |s.occupants|
    requires s.occupants[sender].role >= MODERATOR && s.occupants[sender].affiliation >= ADMIN
    requires st == Iq(st.from, None, Set, Admin(Some(RemovalOf(jid))), false) && after == Route(s, acl, st)
    requires !Refused(s.lists, Some(Requester(s.occupants[sender].jid, s.occupants[sender].affiliation)), NONE, jid)
    ensures after.state.lists == Moved(s.lists, NONE, jid, None)
    ensures after.sent != [] && after.sent[0].IqResult?
  {
    var r := ApplyItems(Marked(s, []), acl, sender, st.query.items.value);
    RemovalIsApplied(s, acl, sender, jid, r);
    SetIsAccepted(s, acl, st, sender, r, after);
    FinishKeepsLists(r.marked.state, r.marked.affected);
  }

  /** A set without a refused item is answered, and then the occupants that it affected are. */
  lemma {:induction false} SetIsAccepted(
      s: RoomState, acl: Acl, st: Stanza, sender: nat, r: AdminResult, after: Outcome)
    requires st.Iq? && st.nick.None? && st.kind == Set && st.query.Admin? && st.query.items.Some?
    requires sender == FindByJid(s.occupants, st.from) < |s.occupants| && s.occupants[sender].role >= MODERATOR
    requires r == ApplyItems(Marked(s, []), acl, sender, st.query.items.value) && r.error.None?
    requires after == Route(s, acl, st)
    ensures var f := Finish(r.marked.state, r.marked.affected);
            after == Outcome(f.state, [IqResult(st.from, AffiliationItems(OUTCAST, []))] + f.sent)
  {
    assert SetQuery(s, acl, sender, st) == Accept(r.marked, AffiliationItems(OUTCAST, []));
    assert after == RouteIqToRoom(s, acl, sender, st);
  }

  /** In every room with one listed owner, any other occupant who owns the room, by service
   *  policy or by the host pass, can leave it without owners in one accepted set. Then only
   *  service administrators own it, and a host mate has become nothing. */
  lemma {:induction false} OneSetEmptiesOwners(
      s: RoomState, acl: Acl, st: Stanza, sender: nat, owner: Jid, after: Outcome)
    requires Inv(s, acl) && Destroyed !in s.flags
    requires sender == FindByJid(s.occupants, st.from) < |s.occupants|
    requires GetByJid(s.lists, acl, s.occupants[sender].jid) == OWNER
    requires |s.lists[OWNER]| == 1 && s.lists[OWNER][0].jid == owner
    requires Bare(s.occupants[sender].jid) != Bare(owner)
    requires st == Iq(st.from, None, Set, Admin(Some(RemovalOf(owner))), false) && after == Route(s, acl, st)
    ensures after.sent != [] && after.sent[0].IqResult?
    ensures after.state.lists == s.lists[OWNER := []]
    ensures forall j :: GetByJid(after.state.lists, acl, j) == OWNER ==> AclRole(acl, j) >= ACL_MUC_ADMIN
    ensures AclRole(acl, s.occupants[sender].jid) < ACL_MUC_ADMIN ==>
              GetByJid(after.state.lists, acl, s.occupants[sender].jid) == NONE
  {
    var who := s.occupants[sender];
    OwnersAreEmptiedIff(s.lists, Requester(who.jid, OWNER), NONE, owner, None);
    OneItemMovesTheLists(s, acl, st, sender, owner, after);
    OnlyOwnerIsRemoved(s.lists, owner, None);
    if AclRole(acl, who.jid) < ACL_MUC_ADMIN {
      OtherOwnerIsHostMate(s.lists, acl, who.jid);
      HostMateEmptiesOwners(s.lists, acl, who.jid, owner, None);
    }
  }

  // ----- The first occupant -----

  /** A presence that enters a just-created room makes its sender the only occupant,
   *  the only listed owner, and a moderator. */
  lemma {:induction false} FirstOccupantOwnsTheRoom(s: RoomState, acl: Acl, st: Stanza)
    requires Inv(s, acl) && JustCreated in s.flags && Destroyed !in s.flags
    requires st.PresenceIn? && !st.gone && st.nick.Some?
    ensures var r := Route(s, acl, st).state;
            && JustCreated !in r.flags
            && |r.occupants| == 1
            && r.occupants[0].jid == st.from && r.occupants[0].nick == st.nick.value
            && r.occupants[0].affiliation == OWNER && r.occupants[0].role == MODERATOR
            && r.lists == [[], [], [], [], [Entry(WithoutResource(st.from), None)]]
  {
    FounderIsOwner(s, acl, st);
  }

  // ----- Bounced midway -----

  /** After an admin set bounced midway an occupant still agrees with the room exactly
   *  when the applied items gave nobody a new affiliation or role. */
  lemma {:induction false} MidwayBounceAgreesIffNothingChanged(s: RoomState, acl: Acl, st: Stanza, who: Jid, r: Known)
    requires Inv(s, acl) && AtRest(s) && Destroyed !in s.flags && BouncedMidway(s, acl, st)
    requires Here(s, who) && Synced(s, who, r)
    ensures var after := Route(s, acl, st);
            && |after.state.occupants| == |s.occupants|
            && (Synced(after.state, who, ReceiveAll(r, s.node, who, after.sent)) <==>
                forall k :: 0 <= k < |s.occupants| ==>
                  && after.state.occupants[k].affiliation == s.occupants[k].affiliation
                  && after.state.occupants[k].role == s.occupants[k].role)
  {
    MidwayOutcome(s, acl, st);
    var after := Route(s, acl, st);
    UnrelatedPackets(r, s.node, who, after.sent);
    AgreementAfterSilentChange(s, after.state, who, r);
  }

  /** So no occupant agrees any more after an admin gave somebody another role in a set
   *  whose next item is malformed. */
  lemma {:induction false} BouncedRoleChangeIsSilent(
      s: RoomState, acl: Acl, st: Stanza, sender: nat, target: nat, role: Role, who: Jid, r: Known)
    requires Inv(s, acl) && AtRest(s) && Destroyed !in s.flags
    requires Here(s, who) && Synced(s, who, r)
    requires sender == FindByJid(s.occupants, st.from) < |s.occupants| && s.occupants[sender].affiliation >= ADMIN
    requires target < |s.occupants| && s.occupants[target].nick != ""
    requires s.occupants[target].affiliation < ADMIN && s.occupants[target].role != role
    requires st == Iq(st.from, None, Set, Admin(Some(RoleThenNonsense(s.occupants[target].nick, role))), false)
    ensures var after := Route(s, acl, st);
            !Synced(after.state, who, ReceiveAll(r, s.node, who, after.sent))
  {
    var result := ApplyItems(Marked(s, []), acl, sender, st.query.items.value);
    RoleIsChanged(s, acl, sender, target, role, result);
    assert BouncedMidway(s, acl, st);
    MidwayOutcome(s, acl, st);
    MidwayBounceAgreesIffNothingChanged(s, acl, st, who, r);
    assert Route(s, acl, st).state.occupants[target].role != s.occupants[target].role;
  }

  function RoleThenNonsense(nick: string, role: Role): seq<Item> {
    [Item(Some(nick), None, Some(role), None, None), Malformed]
  }

  lemma {:induction false} RoleIsChanged(
      s: RoomState, acl: Acl, sender: nat, target: nat, role: Role, result: AdminResult)
    requires Keyed(s) && Quiet(s) && sender < |s.occupants| && s.occupants[sender].affiliation >= ADMIN
    requires target < |s.occupants| && s.occupants[target].nick != "" && s.occupants[target].affiliation < ADMIN
    requires result == ApplyItems(Marked(s, []), acl, sender, RoleThenNonsense(s.occupants[target].nick, role))
    ensures result.error == Some(BadRequest) && result.marked.affected == [target]
    ensures |result.marked.state.occupants| == |s.occupants|
    ensures result.marked.state.occupants[target].role == role
  {
    var items := RoleThenNonsense(s.occupants[target].nick, role);
    assert FindByNick(s.occupants, s.occupants[target].nick) == target;
    var first := ApplyItem(Marked(s, []), acl, sender, items[0]);
    assert first.error.None?;
    assert items[1..] == [Malformed];
    assert ApplyItem(first.marked, acl, sender, Malformed) == AdminResult(first.marked, Some(BadRequest));
  }

  // ----- Sets of roles -----

  /** The set asks for no affiliation. */
  predicate OnlyRoles(items: seq<Item>) {
    forall i :: 0 <= i < |items| && WellFormedItem(items[i]) ==> items[i].role.Some?
  }

  /** The sender may give the role that the item asks for, judged by the room as it is. */
  predicate Gives(s: RoomState, sender: nat, item: Item)
    requires sender < |s.occupants|
  {
    && WellFormedItem(item) && item.role.Some?
    && var target := FindByNick(s.occupants, item.nick.value);
       && target < |s.occupants| && s.occupants[target].affiliation < ADMIN
       && (s.occupants[sender].affiliation >= ADMIN ||
           (s.occupants[target].role < MODERATOR && item.role.value < MODERATOR))
  }

  /** How many items come before the first that is refused. */
  function Given(s: RoomState, sender: nat, items: seq<Item>): (n: nat)
    requires sender < |s.occupants|
    ensures n <= |items|
  {
    if items == [] || !Gives(s, sender, items[0]) then 0 else 1 + Given(s, sender, items[1..])
  }

  /** The role that the items ask last for a nick, or the one held already. */
  function Asked(items: seq<Item>, nick: string, held: Role): Role {
    if items == [] then held
    else
      var item := items[0];
      Asked(items[1..], nick,
            if item.Item? && item.nick == Some(nick) && item.role.Some? then item.role.value else held)
  }

  /** As far as the rules about roles look, the room is as it was. */
  ghost predicate SameRanks(s: RoomState, t: RoomState, sender: nat) {
    && sender < |s.occupants| == |t.occupants|
    && forall k :: 0 <= k < |s.occupants| ==>
         && t.occupants[k].nick == s.occupants[k].nick && t.occupants[k].affiliation == s.occupants[k].affiliation
         && (s.occupants[sender].affiliation < ADMIN ==>
               (t.occupants[k].role < MODERATOR <==> s.occupants[k].role < MODERATOR))
  }

  lemma {:induction false} SameNicksFound(a: seq<Occupant>, b: seq<Occupant>, nick: string)
    requires |a| == |b| && forall k :: 0 <= k < |a| ==> a[k].nick == b[k].nick
    ensures FindByNick(a, nick) == FindByNick(b, nick)
    decreases |a|
  {
    if a != [] {
      SameNicksFound(a[1..], b[1..], nick);
    }
  }

  ghost predicate DistinctNicks(s: RoomState) {
    forall i, j :: 0 <= i < j < |s.occupants| ==> s.occupants[i].nick != s.occupants[j].nick
  }

  /** One item of a set of roles does what the room before the set allows. */
  lemma {:induction false} RoleIsGiven(s: RoomState, m: Marked, acl: Acl, sender: nat, item: Item, r: AdminResult)
    requires m.Valid() && SameRanks(s, m.state, sender) && OnlyRoles([item])
    requires r == ApplyItem(m, acl, sender, item)
    ensures r.error.None? <==> Gives(s, sender, item)
    ensures r.error.Some? ==> r.marked == m
    ensures r.error.None? ==>
              var t := FindByNick(s.occupants, item.nick.value);
              && item.role.Some? && t < |s.occupants|
              && r.marked.state.occupants[t].nick == m.state.occupants[t].nick
              && r.marked.state.occupants[t].affiliation == m.state.occupants[t].affiliation
              && r.marked.state.occupants[t].role == item.role.value
              && forall k :: 0 <= k < |s.occupants| && k != t ==> r.marked.state.occupants[k] == m.state.occupants[k]
  {
    assert [item][0] == item;
    if WellFormedItem(item) {
      SameNicksFound(s.occupants, m.state.occupants, item.nick.value);
    }
  }

  lemma {:induction false} GivenRole(s: RoomState, m: Marked, t: nat, role: Role, r: Marked, sender: nat, item: Item)
    requires DistinctNicks(s) && SameRanks(s, m.state, sender) && Gives(s, sender, item) && item.role.value == role
    requires t == FindByNick(s.occupants, item.nick.value) && |r.state.occupants| == |s.occupants|
    requires r.state.occupants[t].nick == m.state.occupants[t].nick
    requires r.state.occupants[t].affiliation == m.state.occupants[t].affiliation && r.state.occupants[t].role == role
    requires forall k :: 0 <= k < |s.occupants| && k != t ==> r.state.occupants[k] == m.state.occupants[k]
    ensures SameRanks(s, r.state, sender)
    ensures forall k :: 0 <= k < |s.occupants| ==>
              r.state.occupants[k].role ==
              if item.nick == Some(s.occupants[k].nick) then role else m.state.occupants[k].role
  {
  }

  lemma {:induction false} AskedInTurn(items: seq<Item>, n: nat, nick: string, held: Role)
    requires 0 < n <= |items| && items[0].Item? && items[0].role.Some?
    ensures Asked(items[..n], nick, held) ==
            Asked(items[1..][..n - 1], nick, if items[0].nick == Some(nick) then items[0].role.value else held)
  {
    assert items[..n][0] == items[0] && items[..n][1..] == items[1..][..n - 1];
  }

  /** One turn of the item loop. */
  lemma {:induction false} OneRole(
      s: RoomState, m: Marked, acl: Acl, sender: nat, items: seq<Item>, r: AdminResult, n: nat, next: Marked)
    requires DistinctNicks(s) && m.Valid() && SameRanks(s, m.state, sender) && OnlyRoles(items) && items != []
    requires r == ApplyItems(m, acl, sender, items) && n == Given(s, sender, items)
    requires next == ApplyItem(m, acl, sender, items[0]).marked
    ensures n == 0 ==> r.error.Some? && r.marked == m
    ensures n > 0 ==>
              && items[0].Item? && items[0].role.Some? && SameRanks(s, next.state, sender) && OnlyRoles(items[1..])
              && r == ApplyItems(next, acl, sender, items[1..]) && n - 1 == Given(s, sender, items[1..])
              && forall k :: 0 <= k < |s.occupants| ==>
                   next.state.occupants[k].role ==
                   if items[0].nick == Some(s.occupants[k].nick) then items[0].role.value else m.state.occupants[k].role
  {
    var first := ApplyItem(m, acl, sender, items[0]);
    RoleIsGiven(s, m, acl, sender, items[0], first);
    if n > 0 {
      var t := FindByNick(s.occupants, items[0].nick.value);
      GivenRole(s, m, t, items[0].role.value, first.marked, sender, items[0]);
    }
  }

  /** The roles of `t` are those of `s` as changed by the items. */
  ghost predicate RolesAsAsked(s: RoomState, t: RoomState, items: seq<Item>) {
    && |t.occupants| == |s.occupants|
    && forall k :: 0 <= k < |s.occupants| ==>
         t.occupants[k].role == Asked(items, s.occupants[k].nick, s.occupants[k].role)
  }

  lemma {:induction false} AskedOneMore(s: RoomState, next: RoomState, t: RoomState, items: seq<Item>, n: nat)
    requires 0 < n <= |items| && items[0].Item? && items[0].role.Some? && |next.occupants| == |s.occupants|
    requires forall k :: 0 <= k < |s.occupants| ==>
               && next.occupants[k].nick == s.occupants[k].nick
               && next.occupants[k].role ==
                  if items[0].nick == Some(s.occupants[k].nick) then items[0].role.value else s.occupants[k].role
    requires RolesAsAsked(next, t, items[1..][..n - 1])
    ensures RolesAsAsked(s, t, items[..n])
  {
    forall k | 0 <= k < |s.occupants|
      ensures t.occupants[k].role == Asked(items[..n], s.occupants[k].nick, s.occupants[k].role)
    {
      AskedInTurn(items, n, s.occupants[k].nick, s.occupants[k].role);
    }
  }

  /** A set of roles gives everybody the role asked last before the first refused item. */
  lemma {:induction false} RolesAreGiven(
      s: RoomState, m: Marked, acl: Acl, sender: nat, items: seq<Item>, r: AdminResult, n: nat)
    requires DistinctNicks(s) && m.Valid() && SameRanks(s, m.state, sender) && OnlyRoles(items)
    requires r == ApplyItems(m, acl, sender, items) && n == Given(s, sender, items)
    ensures r.error.None? <==> n == |items|
    ensures SameRanks(s, r.marked.state, sender) && RolesAsAsked(m.state, r.marked.state, items[..n])
    decreases |items|
  {
    if items != [] {
      var next := ApplyItem(m, acl, sender, items[0]).marked;
      OneRole(s, m, acl, sender, items, r, n, next);
      if n > 0 {
        RolesAreGiven(s, next, acl, sender, items[1..], r, n - 1);
        AskedOneMore(m.state, next.state, r.marked.state, items, n);
      }
    }
  }

  /** In a quiet room the first item that is not refused marks somebody, and marks stay. */
  lemma {:induction false} MarksStay(m: Marked, acl: Acl, sender: nat, items: seq<Item>, r: AdminResult)
    requires m.Valid() && sender < |m.state.occupants| && OnlyRoles(items) && m.affected != []
    requires r == ApplyItems(m, acl, sender, items)
    ensures r.marked.affected != []
    decreases |items|
  {
    if items != [] {
      var first := ApplyItem(m, acl, sender, items[0]);
      if first.error.None? {
        MarksStay(first.marked, acl, sender, items[1..], r);
      }
    }
  }

  lemma {:induction false} FirstIsMarked(s: RoomState, acl: Acl, sender: nat, items: seq<Item>, r: AdminResult)
    requires Quiet(s) && sender < |s.occupants| && OnlyRoles(items)
    requires r == ApplyItems(Marked(s, []), acl, sender, items)
    ensures r.marked.affected != [] <==> Given(s, sender, items) > 0
  {
    if items != [] {
      var m := Marked(s, []);
      var first := ApplyItem(m, acl, sender, items[0]);
      assert OnlyRoles([items[0]]);
      RoleIsGiven(s, m, acl, sender, items[0], first);
      if first.error.None? {
        assert first.marked.affected != [];
        MarksStay(first.marked, acl, sender, items[1..], r);
      }
    }
  }

  /** A set of roles is bounced midway if and only if a moderator sent it, and some but not all
   *  of its items come before the first refused one. */
  lemma {:induction false} RolesBounceMidwayIff(s: RoomState, acl: Acl, st: Stanza, sender: nat, items: seq<Item>)
    requires DistinctNicks(s) && Quiet(s) && OnlyRoles(items)
    requires sender == FindByJid(s.occupants, st.from) < |s.occupants|
    requires st == Iq(st.from, None, Set, Admin(Some(items)), false)
    ensures BouncedMidway(s, acl, st) <==>
            s.occupants[sender].role >= MODERATOR && 0 < Given(s, sender, items) < |items|
  {
    var r := ApplyItems(Marked(s, []), acl, sender, items);
    RolesAreGiven(s, Marked(s, []), acl, sender, items, r, Given(s, sender, items));
    FirstIsMarked(s, acl, sender, items, r);
  }

  /** Then the condition is one on the room and the set before it is handled: of the items
   *  before the first refused one, the last that asks for a nick asks for the role it holds. */
  lemma {:induction false} MidwayRolesAgreeIff(
      s: RoomState, acl: Acl, st: Stanza, sender: nat, items: seq<Item>, who: Jid, r: Known)
    requires Inv(s, acl) && AtRest(s) && Destroyed !in s.flags && OnlyRoles(items)
    requires Here(s, who) && Synced(s, who, r)
    requires sender == FindByJid(s.occupants, st.from) < |s.occupants| && s.occupants[sender].role >= MODERATOR
    requires st == Iq(st.from, None, Set, Admin(Some(items)), false) && 0 < Given(s, sender, items) < |items|
    ensures var after := Route(s, acl, st);
            Synced(after.state, who, ReceiveAll(r, s.node, who, after.sent)) <==>
            forall k :: 0 <= k < |s.occupants| ==>
              Asked(items[..Given(s, sender, items)], s.occupants[k].nick, s.occupants[k].role) == s.occupants[k].role
  {
    var n := Given(s, sender, items);
    RolesBounceMidwayIff(s, acl, st, sender, items);
    RolesAreGiven(s, Marked(s, []), acl, sender, items, ApplyItems(Marked(s, []), acl, sender, items), n);
    MidwayOutcome(s, acl, st);
    MidwayBounceAgreesIffNothingChanged(s, acl, st, who, r);
  }

  lemma {:induction false} MidwayOutcome(s: RoomState, acl: Acl, st: Stanza)
    requires BouncedMidway(s, acl, st)
    ensures var result := ApplyItems(Marked(s, []), acl, FindByJid(s.occupants, st.from), st.query.items.value);
            Route(s, acl, st) == Bounced(result.marked.state, st.from, result.error.value)
    ensures AtRest(s) ==> SameKeys(s, Route(s, acl, st).state)
  {
    if AtRest(s) {
      ApplyItemsTracks(s, Marked(s, []), acl, FindByJid(s.occupants, st.from), st.query.items.value);
    }
  }

  lemma {:induction false} AgreementAfterSilentChange(s: RoomState, t: RoomState, who: Jid, r: Known)
    requires SameKeys(s, t) && Here(s, who) && Synced(s, who, r)
    ensures Synced(t, who, r) <==>
            forall k :: 0 <= k < |s.occupants| ==>
              && t.occupants[k].affiliation == s.occupants[k].affiliation
              && t.occupants[k].role == s.occupants[k].role
  {
    SamePlace(s, t, who);
    SameNicks(s, t);
    forall k | 0 <= k < |s.occupants|
      ensures KnownAs(r, s.occupants[k])
      ensures KnownAs(r, t.occupants[k]) <==>
              && t.occupants[k].affiliation == s.occupants[k].affiliation
              && t.occupants[k].role == s.occupants[k].role
    {
    }
  }
}
