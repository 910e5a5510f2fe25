/** Who learns real addresses, and how rooms come about, over single stanzas and whole runs. */
module RunRules {
  import opened Common
  import opened Jids
  import opened Affiliations
  import opened AffiliationLaws
  import opened RoomModel
  import opened RoomInvariants
  import opened Roster
  import opened RosterLaws
  import opened RoomLaws
  import opened RoomsModel
  import opened RoomsLaws
  import opened MixedSets
  import opened RoomRules
  import opened QueryRules
  import opened SetRules

  // ----- The table of rooms -----

  /** A stanza to a room that is there is handled by it; the room goes if it is marked then. */
  lemma {:induction false} RoomHandles(
      table: seq<RoomState>, acl: Acl, e: Event, i: nat, after: TableOutcome, r: Outcome)
    requires i == FindRoom(table, e.node) < |table| && after == Process(table, acl, e)
    requires r == Route(table[i], acl, e.stanza)
    ensures after.sent == r.sent
    ensures after.table == if Destroyed in r.state.flags then table[..i] + table[i + 1..] else table[i := r.state]
  {
  }

  /** The room as it is made for a node. */
  function Blank(node: string): RoomState {
    RoomState(
      node,
      {JustCreated, SemiAnonymous, ModeratedRoom, PublicRoom, PublicParticipants, AllowPm, ChangeSubject, IqProxy,
       Invites},
      PARTICIPANT, 100, None, None, [], [[], [], [], [], []])
  }

  /** Only a presence that is no farewell makes a room, and only for those with the right. */
  lemma {:induction false} RoomIsMadeIff(table: seq<RoomState>, acl: Acl, e: Event, after: TableOutcome)
    requires FindRoom(table, e.node) == |table| && after == Process(table, acl, e)
    ensures var st := e.stanza;
            if st.PresenceIn? && !st.gone && AclRole(acl, st.from) >= ACL_MUC_CREATE then
              var r := Route(Blank(e.node), acl, st);
              after == TableOutcome(if Destroyed in r.state.flags then table else table + [r.state], r.sent)
            else after.table == table
  {
    assert RoomInit(e.node) == Blank(e.node);
    if Creates(acl, e.stanza) {
      OnlyLastRoom(table, Blank(e.node), acl, e.stanza, Route(Blank(e.node), acl, e.stanza));
    }
  }

  lemma {:induction false} OnlyLastRoom(table: seq<RoomState>, s: RoomState, acl: Acl, st: Stanza, r: Outcome)
    requires r == Route(s, acl, st)
    ensures RouteAt(table + [s], |table|, acl, st) ==
            TableOutcome(if Destroyed in r.state.flags then table else table + [r.state], r.sent)
  {
    assert Without(table + [s], |table|) == table;
    assert (table + [s])[|table| := r.state] == table + [r.state];
  }

  /** Other stanzas to no room are bounced, errors excepted. */
  lemma {:induction false} NoRoomAnswers(table: seq<RoomState>, acl: Acl, e: Event, after: TableOutcome)
    requires FindRoom(table, e.node) == |table| && after == Process(table, acl, e)
    ensures e.stanza.ErrorStanza? ==> after.sent == []
    ensures e.stanza.Iq? ==>
              after.sent == if e.stanza.kind == ErrorReply then [] else [Bounce(e.stanza.from, RoomNotFound)]
    ensures e.stanza.PresenceIn? && e.stanza.gone ==> after.sent == [Bounce(e.stanza.from, RoomNotFound)]
    ensures e.stanza.PresenceIn? && !e.stanza.gone && AclRole(acl, e.stanza.from) < ACL_MUC_CREATE ==>
              after.sent == [Bounce(e.stanza.from, CreationDenied)]
  {
  }

  /** Whoever makes a room is in it, its only listed owner and a moderator, and the only one told. */
  lemma {:induction false} MakerOwnsTheRoom(
      table: seq<RoomState>, acl: Acl, e: Event, after: TableOutcome, t: RoomState)
    requires FindRoom(table, e.node) == |table| && after == Process(table, acl, e)
    requires var st := e.stanza;
             && st.PresenceIn? && !st.gone && st.nick.Some? && AclRole(acl, st.from) >= ACL_MUC_CREATE
             && t == Blank(e.node).(
                  occupants := [Occupant(st.from, st.nick.value, OWNER, MODERATOR, st.inner, false, None)],
                  lists := [[], [], [], [], [Entry(Jid(st.from.node, st.from.host, None), None)]])
    ensures after.table == table + [Keeping(t, 0)] && EntryIsShown(after.sent, t, e.stanza.from)
  {
    RoomIsMadeIff(table, acl, e, after);
    NewRoomInv(e.node, acl);
    assert RoomInit(e.node) == Blank(e.node);
    FounderEnters(Blank(e.node), acl, e.stanza, Route(Blank(e.node), acl, e.stanza), t);
  }

  // ----- Real addresses in one step -----

  /** This address belongs to a moderator. */
  predicate IsModerator(s: RoomState, jid: Jid) {
    exists k :: 0 <= k < |s.occupants| && s.occupants[k].jid == jid && s.occupants[k].role == MODERATOR
  }

  /** Real addresses go to moderators of `t` only, unless the room shows them to all. */
  ghost predicate Discreet(sent: seq<Packet>, t: RoomState) {
    forall p :: p in sent && p.Presence? && p.realJid.Some? ==> SemiAnonymous !in t.flags || IsModerator(t, p.to)
  }

  /** Whoever is a moderator of `t` is one of `s`, and both rooms show addresses alike. */
  predicate NoMoreModerators(t: RoomState, s: RoomState) {
    && (SemiAnonymous in t.flags <==> SemiAnonymous in s.flags)
    && forall k :: 0 <= k < |t.occupants| && t.occupants[k].role == MODERATOR ==> IsModerator(s, t.occupants[k].jid)
  }

  lemma {:induction false} DiscreetAlike(sent: seq<Packet>, t: RoomState, s: RoomState)
    requires Discreet(sent, t) && NoMoreModerators(t, s)
    ensures Discreet(sent, s)
  {
  }

  lemma {:induction false} DiscreetTogether(a: seq<Packet>, b: seq<Packet>, s: RoomState)
    requires Discreet(a, s) && Discreet(b, s)
    ensures Discreet(a + b, s)
  {
  }

  lemma {:induction false} ShownIsDiscreet(
      sent: seq<Packet>, s: RoomState, i: nat, gone: bool, newNick: Option<string>, codes: set<Status>)
    requires i < |s.occupants| && AllAreShown(sent, s, i, gone, newNick, codes)
    ensures Discreet(sent, s)
  {
    forall p | p in sent && p.Presence? && p.realJid.Some? && SemiAnonymous in s.flags
      ensures IsModerator(s, p.to)
    {
      var k :| 0 <= k < |sent| && sent[k] == p;
      assert Shows(p, s, s.occupants[i], s.occupants[k]);
    }
  }

  lemma {:induction false} OthersAreDiscreet(sent: seq<Packet>, s: RoomState, receiver: nat, n: nat)
    requires receiver < |s.occupants| && n <= |s.occupants| && OthersAreShown(sent, s, receiver, n)
    ensures Discreet(sent, s)
  {
    forall p | p in sent && p.Presence? && p.realJid.Some? && SemiAnonymous in s.flags
      ensures IsModerator(s, p.to)
    {
      var k :| 0 <= k < |sent| && sent[k] == p;
      assert s.occupants[receiver].role == MODERATOR && s.occupants[receiver].jid == p.to;
    }
  }

  lemma {:induction false} AnnouncementIsDiscreet(sent: seq<Packet>, s: RoomState, i: nat)
    requires i < |s.occupants| && AreAnnounced(sent, s, i)
    ensures Discreet(sent, s)
  {
    forall p | p in sent && p.Presence? && p.realJid.Some? && SemiAnonymous in s.flags
      ensures IsModerator(s, p.to)
    {
      var k :| 0 <= k < |sent| && sent[k] == p;
      assert Reaches(p, s, i, k);
    }
  }

  /** After a turn of the final loop there are no more moderators than before. */
  lemma {:induction false} TurnIsDiscreet(s: RoomState, affected: seq<nat>)
      returns (announced: seq<Packet>, next: RoomState, left: seq<nat>)
    requires Positions(s, affected) && affected != []
    ensures Discreet(announced, s) && NoMoreModerators(next, s) && Positions(next, left) && |left| < |affected|
    ensures Finish(s, affected) == Outcome(Finish(next, left).state, announced + Finish(next, left).sent)
  {
    var i := affected[0];
    var o, codes := Settled(s.flags, s.occupants[i]), Verdict(s.flags, s.occupants[i]).1;
    var settled := WithOccupant(s, i, o);
    announced := Broadcast(settled, i, None, codes);
    VerdictIsAnnounced(s, i, o, codes, announced);
    AnnouncementIsDiscreet(announced, s, i);
    if o.role == ROLE_NONE {
      next, left := Leave(settled, i), Shifted(affected[1..], i);
      PositionsAfterLeave(settled, affected, affected[1..], left);
      LeavingMakesNoModerator(s, settled, i, next);
    } else {
      next, left := WithOccupant(settled, i, settled.occupants[i].(reason := None)), affected[1..];
      assert forall k :: 0 <= k < |next.occupants| ==>
               next.occupants[k].jid == s.occupants[k].jid && next.occupants[k].role == s.occupants[k].role;
    }
  }

  lemma {:induction false} LeavingMakesNoModerator(s: RoomState, t: RoomState, i: nat, next: RoomState)
    requires i < |s.occupants| == |t.occupants| && t.flags == s.flags && next == Leave(t, i)
    requires forall k :: 0 <= k < |s.occupants| && k != i ==> t.occupants[k] == s.occupants[k]
    ensures NoMoreModerators(next, s)
  {
    forall k | 0 <= k < |next.occupants|
      ensures next.occupants[k] == s.occupants[if k < i then k else k + 1]
    {
    }
  }

  lemma {:induction false} FinishIsDiscreet(s: RoomState, affected: seq<nat>)
    requires Positions(s, affected)
    ensures Discreet(Finish(s, affected).sent, s)
    decreases |affected|
  {
    if affected != [] {
      var announced, next, left := TurnIsDiscreet(s, affected);
      FinishIsDiscreet(next, left);
      DiscreetAlike(Finish(next, left).sent, next, s);
      DiscreetTogether(announced, Finish(next, left).sent, s);
    }
  }

  // ----- Every step -----

  lemma {:induction false} RemovalIsDiscreet(s: RoomState, i: nat, o: Occupant)
    requires i < |s.occupants| && o.jid == s.occupants[i].jid && o.role == ROLE_NONE
    ensures Discreet(Broadcast(WithOccupant(s, i, o), i, None, {}), s)
  {
    var t := WithOccupant(s, i, o);
    BroadcastShows(t, i, None, {});
    ShownIsDiscreet(Broadcast(t, i, None, {}), t, i, true, None, {});
    DiscreetAlike(Broadcast(t, i, None, {}), t, s);
  }

  /** Somebody shows a presence, and nobody's role changes. */
  lemma {:induction false} AnnounceIsDiscreet(
      s: RoomState, i: nat, o: Occupant, inner: Option<string>, justJoined: bool, r: RoomState)
    requires i < |s.occupants| && o.jid == s.occupants[i].jid && o.role == s.occupants[i].role
    requires NoMoreModerators(s, r)
    ensures Discreet(Announce(WithOccupant(s, i, o), i, inner, justJoined).sent, r)
  {
    var t := ShowPresence(WithOccupant(s, i, o), i, inner);
    BroadcastShows(t, i, None, {});
    ShownIsDiscreet(Broadcast(t, i, None, {}), t, i, t.occupants[i].role == ROLE_NONE, None, {});
    assert NoMoreModerators(t, r);
    DiscreetAlike(Broadcast(t, i, None, {}), t, r);
    DiscreetTogether(Broadcast(t, i, None, {}), if justJoined then SubjectFor(t, i) else [], r);
  }

  lemma {:induction false} InsideIsDiscreet(s: RoomState, i: nat, st: Stanza)
    requires st.PresenceIn? && i < |s.occupants|
    ensures Discreet(RoutePresenceInside(s, i, st).sent, s)
  {
    if st.gone {
      var shown := ShowPresence(s, i, st.inner);
      var o := shown.occupants[i].(role := ROLE_NONE);
      RemovalIsDiscreet(s, i, o);
      assert WithOccupant(s, i, o) == WithOccupant(shown, i, o);
    } else if st.nick.None? || FindByNick(s.occupants, st.nick.value) == i {
      AnnounceIsDiscreet(s, i, s.occupants[i], st.inner, false, s);
      assert WithOccupant(s, i, s.occupants[i]) == s;
    } else if FindByNick(s.occupants, st.nick.value) == |s.occupants| {
      BroadcastShows(s, i, st.nick, {NicknameChanged});
      ShownIsDiscreet(Broadcast(s, i, st.nick, {NicknameChanged}), s, i, true, st.nick, {NicknameChanged});
      AnnounceIsDiscreet(s, i, s.occupants[i].(nick := st.nick.value), st.inner, false, s);
    }
  }

  lemma {:induction false} EntryIsDiscreet(joined: RoomState, inner: Option<string>, r: RoomState)
    requires joined.occupants != [] && NoMoreModerators(joined, r)
    ensures Discreet(Introductions(joined, 0, |joined.occupants|) + Announce(joined, 0, inner, true).sent, r)
  {
    IntroductionsShow(joined, 0, |joined.occupants|);
    OthersAreDiscreet(Introductions(joined, 0, |joined.occupants|), joined, 0, |joined.occupants|);
    DiscreetAlike(Introductions(joined, 0, |joined.occupants|), joined, r);
    AnnounceIsDiscreet(joined, 0, joined.occupants[0], inner, true, r);
    assert WithOccupant(joined, 0, joined.occupants[0]) == joined;
    DiscreetTogether(Introductions(joined, 0, |joined.occupants|), Announce(joined, 0, inner, true).sent, r);
  }

  /** Entering shows addresses to those who are moderators in the end. */
  lemma {:induction false} OutsideIsDiscreet(s: RoomState, acl: Acl, st: Stanza, after: Outcome)
    requires st.PresenceIn? && after == RoutePresenceOutside(s, acl, st)
    ensures Discreet(after.sent, after.state)
  {
    var founded := Founded(s, st.from);
    if !st.gone && st.nick.Some? && FindByNick(s.occupants, st.nick.value) == |s.occupants|
       && EntryError(founded, acl, st).None? {
      var joined := Join(founded, st.from, st.nick.value, GetByJid(founded.lists, acl, st.from));
      EntryOutcome(s, acl, st, founded);
      AnnouncementKeepsRoles(joined, st.inner);
      EntryIsDiscreet(joined, st.inner, after.state);
    }
  }

  lemma {:induction false} AnnouncementKeepsRoles(joined: RoomState, inner: Option<string>)
    requires joined.occupants != []
    ensures NoMoreModerators(joined, Announce(joined, 0, inner, true).state)
  {
    var after := Announce(joined, 0, inner, true).state;
    forall k | 0 <= k < |joined.occupants|
      ensures after.occupants[k].jid == joined.occupants[k].jid && after.occupants[k].role == joined.occupants[k].role
    {
    }
  }

  /** An admin set to the room. */
  predicate IsAdminSet(st: Stanza) {
    st.Iq? && st.nick == None && st.kind == Set && st.query.Admin? && st.query.items.Some?
  }

  /** An admin set that is accepted makes a moderator of this address. */
  predicate MadeModerator(s: RoomState, acl: Acl, st: Stanza, jid: Jid) {
    IsAdminSet(st) &&
    var sender, items := FindByJid(s.occupants, st.from), st.query.items.value;
    && sender < |s.occupants| && FirstRefused(s, acl, sender, items, 0) == |items|
    && exists k :: 0 <= k < |s.occupants| && s.occupants[k].jid == jid && RoleAfter(s, acl, items, k) == MODERATOR
  }

  /** The address belongs to a moderator of the room before the stanza, after it, or in between. */
  predicate Moderates(s: RoomState, acl: Acl, st: Stanza, jid: Jid) {
    IsModerator(s, jid) || IsModerator(Route(s, acl, st).state, jid) || MadeModerator(s, acl, st, jid)
  }

  /** Real addresses go to moderators only, if the room is semi-anonymous before and after. */
  ghost predicate StepIsDiscreet(s: RoomState, acl: Acl, st: Stanza, after: Outcome) {
    forall p :: p in after.sent && p.Presence? && p.realJid.Some? ==>
      SemiAnonymous !in s.flags || SemiAnonymous !in after.state.flags || Moderates(s, acl, st, p.to)
  }

  lemma {:induction false} AdminSetIsDiscreet(s: RoomState, acl: Acl, st: Stanza, after: Outcome)
    requires Inv(s, acl) && Destroyed !in s.flags && IsAdminSet(st) && after == Route(s, acl, st)
    requires FindByJid(s.occupants, st.from) < |s.occupants|
    requires s.occupants[FindByJid(s.occupants, st.from)].role >= MODERATOR
    ensures StepIsDiscreet(s, acl, st, after)
  {
    var sender, items := FindByJid(s.occupants, st.from), st.query.items.value;
    var r := ApplyItems(Marked(s, []), acl, sender, items);
    WholeSetStands(s, acl, sender, items, FirstRefused(s, acl, sender, items, 0), r);
    if r.error.None? {
      AllItemsChange(s, acl, sender, items, r);
      SetIsAccepted(s, acl, st, sender, r, after);
      FinishIsDiscreet(r.marked.state, r.marked.affected);
      StandingModerators(s, acl, st, r.marked.state);
    }
  }

  lemma {:induction false} StandingModerators(s: RoomState, acl: Acl, st: Stanza, t: RoomState)
    requires IsAdminSet(st) && Standing(s, acl, st.query.items.value, t)
    requires var sender, items := FindByJid(s.occupants, st.from), st.query.items.value;
             sender < |s.occupants| && FirstRefused(s, acl, sender, items, 0) == |items|
    ensures forall jid :: IsModerator(t, jid) ==> MadeModerator(s, acl, st, jid)
  {
    forall jid | IsModerator(t, jid)
      ensures MadeModerator(s, acl, st, jid)
    {
      var k :| 0 <= k < |t.occupants| && t.occupants[k].jid == jid && t.occupants[k].role == MODERATOR;
      assert s.occupants[k].jid == jid;
    }
  }

  /** Neither the end of a room nor a purge makes moderators. */
  lemma {:induction false} OwnerMakesNoModerator(s: RoomState, aclRole: int, action: OwnerAction, m: Marked)
    requires m == OwnerSet(s, aclRole, action) && s.defaultRole != ROLE_NONE && s.maxSize > 0
    ensures forall jid :: IsModerator(m.state, jid) ==> IsModerator(s, jid)
  {
    match action
    case Destroy => AllAreDismissed(Marked(s.(flags := s.flags + {Destroyed}), []), 0, m);
    case Configure(options) =>
      SetOptionsKeeps(s, aclRole, options);
      var c := SetOptions(s, aclRole, options);
      if MembersOnly in c.flags {
        PurgeResult(Marked(c, []), 0, m);
      }
  }

  lemma {:induction false} OwnerSetIsDiscreet(
      s: RoomState, acl: Acl, st: Stanza, sender: nat, action: OwnerAction, after: Outcome)
    requires Inv(s, acl) && FromOwner(s, st, sender, action) && after == Route(s, acl, st)
    ensures StepIsDiscreet(s, acl, st, after)
  {
    var m := OwnerSet(s, AclRole(acl, s.occupants[sender].jid), action);
    OwnerIsAnswered(s, acl, st, sender, action, m, after);
    OwnerMakesNoModerator(s, AclRole(acl, s.occupants[sender].jid), action, m);
    FinishIsDiscreet(m.state, m.affected);
    FinishKeepsFlags(m.state, m.affected);
  }

  lemma {:induction false} SilentIsDiscreet(s: RoomState, acl: Acl, st: Stanza, after: Outcome)
    requires after == Route(s, acl, st) && Silent(s, after)
    ensures StepIsDiscreet(s, acl, st, after)
  {
  }

  lemma {:induction false} IqIsDiscreet(s: RoomState, acl: Acl, st: Stanza, after: Outcome)
    requires Inv(s, acl) && Destroyed !in s.flags && st.Iq? && after == Route(s, acl, st)
    ensures StepIsDiscreet(s, acl, st, after)
  {
    var sender := FindByJid(s.occupants, st.from);
    QuietIq(s, acl, sender, st);
    if st.nick.Some? || st.kind != Set || st.query.NoQuery? {
      SilentIsDiscreet(s, acl, st, after);
    } else if IsAdminSet(st) && sender < |s.occupants| && s.occupants[sender].role >= MODERATOR {
      AdminSetIsDiscreet(s, acl, st, after);
    } else if st.query.Owner? && st.query.action.Some? && st.query.action.value.Some?
           && sender < |s.occupants| && s.occupants[sender].affiliation == OWNER {
      OwnerSetIsDiscreet(s, acl, st, sender, st.query.action.value.value, after);
    } else {
      TurnedAwayIsSilent(s, acl, st, sender, after);
      SilentIsDiscreet(s, acl, st, after);
    }
  }

  lemma {:induction false} TurnedAwayIsSilent(s: RoomState, acl: Acl, st: Stanza, sender: nat, after: Outcome)
    requires st.Iq? && st.nick.None? && st.kind == Set && !st.query.NoQuery?
    requires sender == FindByJid(s.occupants, st.from) && after == Route(s, acl, st)
    requires IsAdminSet(st) ==> sender == |s.occupants| || s.occupants[sender].role < MODERATOR
    requires st.query.Owner? && st.query.action.Some? && st.query.action.value.Some? ==>
               sender == |s.occupants| || s.occupants[sender].affiliation < OWNER
    ensures Silent(s, after)
  {
    SetIsTurnedAway(s, acl, st, sender, after);
  }

  /** In every step a real address goes only to a moderator of the room, before the step, after
   *  it or in between, as long as the room is semi-anonymous. */
  lemma {:induction false} EveryStepIsDiscreet(s: RoomState, acl: Acl, st: Stanza, after: Outcome)
    requires Inv(s, acl) && Destroyed !in s.flags && after == Route(s, acl, st)
    ensures StepIsDiscreet(s, acl, st, after)
  {
    match st
    case ErrorStanza(from) =>
      var i := FindByJid(s.occupants, from);
      if i < |s.occupants| {
        RemovalIsDiscreet(s, i, s.occupants[i].(presence := Some(ERROR_NOTICE), role := ROLE_NONE));
      }
    case PresenceIn(_, _, _, _, _) =>
      var i := FindByJid(s.occupants, st.from);
      if i < |s.occupants| {
        InsideIsDiscreet(s, i, st);
      } else {
        OutsideIsDiscreet(s, acl, st, after);
      }
    case Iq(_, _, _, _, _) => IqIsDiscreet(s, acl, st, after);
  }

  // ----- Real addresses over runs -----

  /** For this client the room is discreet while it handles the stanza: it stays semi-anonymous,
   *  and the client is no moderator of it. */
  ghost predicate HidesFrom(s: RoomState, acl: Acl, st: Stanza, who: Jid) {
    && SemiAnonymous in s.flags && SemiAnonymous in Route(s, acl, st).state.flags
    && forall jid :: Canonical(jid) == who ==> !Moderates(s, acl, st, jid)
  }

  /** So it is whenever the room with this node handles a stanza of the run. */
  ghost predicate AlwaysHides(acl: Acl, events: seq<Event>, node: string, who: Jid) {
    events == []
    || var before, e := events[..|events| - 1], events[|events| - 1];
       var table := Run(acl, before).table;
       var i := FindRoom(table, node);
       && AlwaysHides(acl, before, node, who)
       && (e.node == node && i < |table| ==> HidesFrom(table[i], acl, e.stanza, who))
       && (e.node == node && i == |table| && Creates(acl, e.stanza) ==> HidesFrom(Blank(node), acl, e.stanza, who))
  }

  /** No packet from the room shows the client a real address. */
  ghost predicate ShowsNoAddress(sent: seq<Packet>, node: string, who: Jid) {
    forall p :: p in sent && p.Presence? && p.fromNode == node && Canonical(p.to) == who ==> p.realJid == None
  }

  lemma {:induction false} StepShowsNoAddress(s: RoomState, acl: Acl, st: Stanza, node: string, who: Jid)
    requires Inv(s, acl) && Destroyed !in s.flags && (s.node == node ==> HidesFrom(s, acl, st, who))
    ensures ShowsNoAddress(Route(s, acl, st).sent, node, who)
  {
    var after := Route(s, acl, st);
    RouteSpeaks(s, acl, st);
    EveryStepIsDiscreet(s, acl, st, after);
    forall p | p in after.sent && p.Presence? && p.fromNode == node && Canonical(p.to) == who
      ensures p.realJid == None
    {
      var i :| 0 <= i < |after.sent| && after.sent[i] == p;
    }
  }

  lemma {:induction false} EventShowsNoAddress(table: seq<RoomState>, acl: Acl, e: Event, node: string, who: Jid)
    requires TableInv(table, acl)
    requires var i := FindRoom(table, node);
             && (e.node == node && i < |table| ==> HidesFrom(table[i], acl, e.stanza, who))
             && (e.node == node && i == |table| && Creates(acl, e.stanza) ==>
                   HidesFrom(Blank(node), acl, e.stanza, who))
    ensures ShowsNoAddress(Process(table, acl, e).sent, node, who)
  {
    var i := FindRoom(table, e.node);
    if i < |table| {
      StepShowsNoAddress(table[i], acl, e.stanza, node, who);
    } else if Creates(acl, e.stanza) {
      NewRoomInv(e.node, acl);
      assert RoomInit(e.node) == Blank(e.node);
      StepShowsNoAddress(Blank(e.node), acl, e.stanza, node, who);
    }
  }

  /** In every run: a client that is never a moderator of a room, while that room is
   *  semi-anonymous all the time, gets nobody's real address from it. */
  lemma {:induction false} RealAddressesStayHidden(acl: Acl, events: seq<Event>, node: string, who: Jid)
    requires AlwaysHides(acl, events, node, who)
    ensures ShowsNoAddress(Run(acl, events).sent, node, who)
    decreases |events|
  {
    if events != [] {
      var before, e := events[..|events| - 1], events[|events| - 1];
      RealAddressesStayHidden(acl, before, node, who);
      EveryRunKeeps(acl, before);
      EventShowsNoAddress(Run(acl, before).table, acl, e, node, who);
    }
  }

  // ----- A moderator in between -----

  /** The affected list only grows at its end. */
  lemma {:induction false} RecomputeAppends(m: Marked, acl: Acl, i: nat, reason: Option<string>)
    requires m.Valid() && i <= |m.state.occupants|
    ensures m.affected <= Recompute(m, acl, i, reason).affected
    decreases |m.state.occupants| - i
  {
    if i < |m.state.occupants| {
      RecomputeAppends(RecomputeOne(m, acl, i, reason), acl, i + 1, reason);
    }
  }

  lemma {:induction false} ItemsAppend(m: Marked, acl: Acl, sender: nat, items: seq<Item>)
    requires m.Valid() && sender < |m.state.occupants|
    ensures m.affected <= ApplyItems(m, acl, sender, items).marked.affected
    decreases |items|
  {
    if items != [] {
      var item := items[0];
      if WellFormedItem(item) && item.affiliation.Some? {
        var moved := m.state.(lists := Moved(m.state.lists, item.affiliation.value, item.jid.value, item.reason));
        RecomputeAppends(m.(state := moved), acl, 0, item.reason);
      }
      ItemsAppend(ApplyItem(m, acl, sender, item).marked, acl, sender, items[1..]);
    }
  }

  /** One item makes somebody else a visitor, the next bans a person, the last makes that person
   *  a moderator. */
  function BanAndPromote(other: string, jid: Jid, nick: string): seq<Item> {
    [Item(Some(other), None, Some(VISITOR), None, None), Item(None, Some(jid), None, Some(OUTCAST), None),
     Item(Some(nick), None, Some(MODERATOR), None, None)]
  }

  /** An owner on the list sends such a set: neither of the two others is admin or owner. */
  ghost predicate BansAndPromotes(s: RoomState, acl: Acl, st: Stanza, sender: nat, a: nat, b: nat) {
    && Inv(s, acl) && Quiet(s) && Destroyed !in s.flags && sender == FindByJid(s.occupants, st.from)
    && sender < |s.occupants| && a < |s.occupants| && b < |s.occupants| && a != b
    && HasAddress(s.lists, OWNER, s.occupants[sender].jid) && s.occupants[sender].affiliation == OWNER
    && s.occupants[a].affiliation < ADMIN && s.occupants[a].nick != ""
    && s.occupants[b].affiliation < ADMIN && s.occupants[b].nick != ""
    && AclRole(acl, s.occupants[b].jid) < ACL_MUC_ADMIN && !HasAddress(s.lists, OWNER, s.occupants[b].jid)
    && st == Iq(st.from, None, Set,
                Admin(Some(BanAndPromote(s.occupants[a].nick, s.occupants[b].jid, s.occupants[b].nick))), false)
  }

  lemma {:induction false} BannedIsListed(lists: Lists, acl: Acl, jid: Jid, moved: Lists, owner: Jid)
    requires PartialMap(lists) && AclRole(acl, jid) < ACL_MUC_ADMIN && moved == Moved(lists, OUTCAST, jid, None)
    requires HasAddress(lists, OWNER, owner) && !HasAddress(lists, OWNER, jid)
    ensures GetByJid(moved, acl, jid) == OUTCAST && GetByJid(moved, acl, owner) == OWNER
  {
    MovedIsUpdate(lists, OUTCAST, jid, None, jid);
    FoundIsOnly(lists, owner);
    assert Bare(owner) != Bare(jid);
    MovedIsUpdate(lists, OUTCAST, jid, None, owner);
  }

  lemma {:induction false} ListsAfterBan(lists: Lists, other: string, jid: Jid, nick: string, items: seq<Item>)
    requires items == BanAndPromote(other, jid, nick)
    ensures ListsAfter(lists, items[..0]) == ListsAfter(lists, items[..1]) == lists
    ensures ListsAfter(lists, items[..2]) == ListsAfter(lists, items) == Moved(lists, OUTCAST, jid, None)
  {
    OneMoreItem(lists, items[..0], items[0]);
    OneMoreItem(lists, items[..1], items[1]);
    OneMoreItem(lists, items[..2], items[2]);
    assert items[..0] + [items[0]] == items[..1] && items[..1] + [items[1]] == items[..2];
    assert items[..2] + [items[2]] == items;
  }

  /** What the items make of the three, one after the other. */
  lemma {:induction false} StandAfterBan(
      s: RoomState, acl: Acl, sender: nat, b: nat, items: seq<Item>, moved: Lists)
    requires Inv(s, acl) && Destroyed !in s.flags && sender < |s.occupants| && b < |s.occupants| && |items| == 3
    requires ListsAfter(s.lists, items[..0]) == ListsAfter(s.lists, items[..1]) == s.lists
    requires ListsAfter(s.lists, items[..2]) == ListsAfter(s.lists, items) == moved
    requires GetByJid(moved, acl, s.occupants[b].jid) == OUTCAST
    requires GetByJid(moved, acl, s.occupants[sender].jid) == OWNER
    ensures forall n, k :: 0 <= n <= 1 && 0 <= k < |s.occupants| ==>
              AffiliationAfter(s, acl, items[..n], k) == s.occupants[k].affiliation
    ensures AffiliationAfter(s, acl, items[..2], sender) == OWNER
    ensures AffiliationAfter(s, acl, items[..2], b) == AffiliationAfter(s, acl, items, b) == OUTCAST
  {
  }

  /** No item is refused, and the banned person is a moderator in the end. */
  lemma {:induction false} BanAndPromotePasses(
      s: RoomState, acl: Acl, st: Stanza, sender: nat, a: nat, b: nat, items: seq<Item>)
    requires BansAndPromotes(s, acl, st, sender, a, b)
    requires items == BanAndPromote(s.occupants[a].nick, s.occupants[b].jid, s.occupants[b].nick)
    ensures FirstRefused(s, acl, sender, items, 0) == 3
    ensures AffiliationAfter(s, acl, items, b) == OUTCAST && RoleAfter(s, acl, items, b) == MODERATOR
  {
    var moved := Moved(s.lists, OUTCAST, s.occupants[b].jid, None);
    ListsAfterBan(s.lists, s.occupants[a].nick, s.occupants[b].jid, s.occupants[b].nick, items);
    BannedIsListed(s.lists, acl, s.occupants[b].jid, moved, s.occupants[sender].jid);
    StandAfterBan(s, acl, sender, b, items, moved);
    AllThreePass(s, acl, sender, a, b, items);
    LastRoleIsGiven(s, acl, b, items);
  }

  lemma {:induction false} LastRoleIsGiven(s: RoomState, acl: Acl, b: nat, items: seq<Item>)
    requires b < |s.occupants| && |items| == 3
    requires items[2] == Item(Some(s.occupants[b].nick), None, Some(MODERATOR), None, None)
    ensures RoleAfter(s, acl, items, b) == MODERATOR
  {
    assert items[..2] + [items[2]] == items;
    OneMoreRole(s, acl, items[..2], items[2], b);
  }

  lemma {:induction false} AllThreePass(s: RoomState, acl: Acl, sender: nat, a: nat, b: nat, items: seq<Item>)
    requires Keyed(s) && PartialMap(s.lists) && sender < |s.occupants| && a < |s.occupants| && b < |s.occupants|
    requires items == BanAndPromote(s.occupants[a].nick, s.occupants[b].jid, s.occupants[b].nick)
    requires s.occupants[a].nick != "" && s.occupants[b].nick != "" && !HasAddress(s.lists, OWNER, s.occupants[b].jid)
    requires ListsAfter(s.lists, items[..1]) == s.lists
    requires AffiliationAfter(s, acl, items[..0], a) < ADMIN && AffiliationAfter(s, acl, items[..0], sender) == OWNER
    requires AffiliationAfter(s, acl, items[..1], sender) == OWNER
    requires AffiliationAfter(s, acl, items[..2], sender) == OWNER && AffiliationAfter(s, acl, items[..2], b) == OUTCAST
    ensures FirstRefused(s, acl, sender, items, 0) == 3
  {
    assert FindByNick(s.occupants, s.occupants[a].nick) == a && FindByNick(s.occupants, s.occupants[b].nick) == b;
    PassesIff(s, acl, sender, items[..0], items[0]);
    PassesIff(s, acl, sender, items[..1], items[1]);
    PassesIff(s, acl, sender, items[..2], items[2]);
    ThreeTurns(s, acl, sender, items);
  }

  lemma {:induction false} ThreeTurns(s: RoomState, acl: Acl, sender: nat, items: seq<Item>)
    requires sender < |s.occupants| && |items| == 3
    requires Passes(s, acl, sender, items[..0], items[0]) && Passes(s, acl, sender, items[..1], items[1])
    requires Passes(s, acl, sender, items[..2], items[2])
    ensures FirstRefused(s, acl, sender, items, 0) == 3
  {
    assert FirstRefused(s, acl, sender, items, 2) == FirstRefused(s, acl, sender, items, 3) == 3;
    assert FirstRefused(s, acl, sender, items, 1) == 3;
  }

  /** The other one comes first on the affected list. */
  lemma {:induction false} OtherComesFirst(
      s: RoomState, acl: Acl, sender: nat, a: nat, items: seq<Item>, r: AdminResult)
    requires Keyed(s) && Quiet(s) && sender < |s.occupants| && a < |s.occupants|
    requires items != [] && items[0] == Item(Some(s.occupants[a].nick), None, Some(VISITOR), None, None)
    requires r == ApplyItems(Marked(s, []), acl, sender, items) && r.error.None?
    ensures r.marked.affected != [] && r.marked.affected[0] == a
  {
    var first := ApplyItem(Marked(s, []), acl, sender, items[0]);
    assert FindByNick(s.occupants, s.occupants[a].nick) == a;
    assert first.marked.affected == [a];
    ItemsAppend(first.marked, acl, sender, items[1..]);
  }

  /** Nobody who is banned is left after an accepted set. */
  lemma {:induction false} BannedAreGone(
      s: RoomState, acl: Acl, st: Stanza, sender: nat, r: AdminResult, after: Outcome, jid: Jid)
    requires Inv(s, acl) && AtRest(s) && Destroyed !in s.flags && IsAdminSet(st) && after == Route(s, acl, st)
    requires sender == FindByJid(s.occupants, st.from) < |s.occupants| && s.occupants[sender].role == MODERATOR
    requires r == ApplyItems(Marked(s, []), acl, sender, st.query.items.value) && r.error.None?
    requires GetByJid(r.marked.state.lists, acl, jid) == OUTCAST
    ensures forall o :: o in after.state.occupants ==> o.jid != jid
  {
    SetIsAccepted(s, acl, st, sender, r, after);
    FinishKeepsLists(r.marked.state, r.marked.affected);
    RouteIqKeeps(s, acl, st);
    RouteRests(s, acl, st);
  }

  /** So a moderator in between is shown an address, although it is no moderator before and not
   *  in the room after. */
  lemma {:induction false} BannedModeratorIsShown(
      s: RoomState, acl: Acl, st: Stanza, sender: nat, a: nat, b: nat, after: Outcome)
    requires BansAndPromotes(s, acl, st, sender, a, b) && SemiAnonymous in s.flags && after == Route(s, acl, st)
    ensures exists p :: p in after.sent && p.Presence? && p.to == s.occupants[b].jid
                        && p.fromNick == s.occupants[a].nick && p.realJid == Some(s.occupants[a].jid)
    ensures forall o :: o in after.state.occupants ==> o.jid != s.occupants[b].jid
  {
    var items := st.query.items.value;
    var r := ApplyItems(Marked(s, []), acl, sender, items);
    BanAndPromotePasses(s, acl, st, sender, a, b, items);
    AllItemsChange(s, acl, sender, items, r);
    SetIsAccepted(s, acl, st, sender, r, after);
    OtherComesFirst(s, acl, sender, a, items, r);
    FinishAnnounces(r.marked.state, r.marked.affected, 0, b);
    BannedAreGone(s, acl, st, sender, r, after, s.occupants[b].jid);
  }
}
