/** Short runs from the empty table that reach the situations of RoomLaws. */
module ShortRuns {
  import opened Common
  import opened Jids
  import opened Affiliations
  import opened AffiliationLaws
  import opened RoomModel
  import opened RoomInvariants
  import opened RoomsModel
  import opened Roster
  import opened RosterLaws
  import opened RoomLaws
  import opened RoomsLaws

  function Entering(from: Jid, nick: string): Stanza {
    PresenceIn(from, Some(nick), false, None, None)
  }

  /** Somebody who may create rooms enters a new one, and then a second one, who is neither an
   *  administrator of the service, enters too. */
  predicate Pair(acl: Acl, first: Jid, second: Jid, nick: string, other: string) {
    && ACL_MUC_CREATE <= AclRole(acl, first) < ACL_MUC_ADMIN && AclRole(acl, second) < ACL_MUC_ADMIN
    && first.resource.Some? && second.resource.Some?
    && Bare(first) != Bare(second) && nick != other && nick != "" && other != ""
  }

  function Both(node: string, first: Jid, second: Jid, nick: string, other: string): seq<Event> {
    [Event(node, Entering(first, nick)), Event(node, Entering(second, other))]
  }

  /** The room that they share. */
  predicate Shared(s: RoomState, node: string, first: Jid, second: Jid, nick: string, other: string) {
    && s.node == node && s.flags == DEFAULT_FLAGS - {JustCreated}
    && s.lists == [[], [], [], [], [Entry(WithoutResource(first), None)]]
    && |s.occupants| == 2
    && s.occupants[0].jid == second && s.occupants[0].nick == other
    && s.occupants[1].jid == first && s.occupants[1].nick == nick
    && s.occupants[1].affiliation == OWNER && s.occupants[1].role == MODERATOR
    && s.occupants[0].affiliation == (if LowerText(first.host) == LowerText(second.host) then OWNER else NONE)
    && s.occupants[0].role == (if LowerText(first.host) == LowerText(second.host) then MODERATOR else PARTICIPANT)
  }

  /** Entering a room keeps what is there. */
  lemma {:induction false} Enters(s: RoomState, acl: Acl, from: Jid, nick: string, t: RoomState)
    requires FindByJid(s.occupants, from) == |s.occupants| && FindByNick(s.occupants, nick) == |s.occupants|
    requires EntryError(Founded(s, from), acl, Entering(from, nick)).None?
    requires t == Route(s, acl, Entering(from, nick)).state
    ensures t.flags == s.flags - {JustCreated} && t.node == s.node
    ensures t.lists == Founded(s, from).lists && t.maxSize == s.maxSize && t.defaultRole == s.defaultRole
    ensures |t.occupants| == |s.occupants| + 1 && t.occupants[1..] == s.occupants
    ensures var o := t.occupants[0];
            && o.jid == from && o.nick == nick
            && o.affiliation == GetByJid(Founded(s, from).lists, acl, from)
            && o.role == RoleForAffiliation(s, o.affiliation)
  {
  }

  /** The affiliation of the second one. */
  lemma {:induction false} SecondIsLookedUp(lists: Lists, acl: Acl, first: Jid, second: Jid)
    requires lists == [[], [], [], [], [Entry(WithoutResource(first), None)]]
    requires AclRole(acl, second) < ACL_MUC_ADMIN && Bare(first) != Bare(second)
    ensures GetByJid(lists, acl, second) == if LowerText(first.host) == LowerText(second.host) then OWNER else NONE
  {
    MatchesIsCanonicalEquality(WithoutResource(first), second);
    assert Listed(lists[OWNER], second, HostOnly) <==> Hit(lists[OWNER], 0, second, HostOnly);
    assert Listed(lists[OWNER], second, NodeAndHost) <==> Hit(lists[OWNER], 0, second, NodeAndHost);
  }

  lemma {:induction false} RoomIsOpened(acl: Acl, node: string, st: Stanza, t: RoomState)
    requires Creates(acl, st) && t == Route(RoomInit(node), acl, st).state && Destroyed !in t.flags
    ensures Process([], acl, Event(node, st)).table == [t]
  {
    assert [] + [RoomInit(node)] == [RoomInit(node)];
    assert [RoomInit(node)][0 := t] == [t];
  }

  lemma {:induction false} OnlyRoomIsRouted(acl: Acl, s: RoomState, st: Stanza, t: RoomState)
    requires t == Route(s, acl, st).state && Destroyed !in t.flags
    ensures Process([s], acl, Event(s.node, st)) == TableOutcome([t], Route(s, acl, st).sent)
  {
    assert [s][0 := t] == [t];
  }

  /** The first step of the run. */
  lemma {:induction false} FirstEnters(acl: Acl, node: string, first: Jid, nick: string, t: RoomState)
    requires ACL_MUC_CREATE <= AclRole(acl, first) < ACL_MUC_ADMIN
    requires t == Route(RoomInit(node), acl, Entering(first, nick)).state
    ensures Process([], acl, Event(node, Entering(first, nick))).table == [t]
    ensures t.node == node && t.flags == DEFAULT_FLAGS - {JustCreated}
    ensures t.maxSize == DEFAULT_MAX_SIZE && t.defaultRole == PARTICIPANT
    ensures t.lists == [[], [], [], [], [Entry(WithoutResource(first), None)]]
    ensures |t.occupants| == 1 && t.occupants[0].jid == first && t.occupants[0].nick == nick
    ensures t.occupants[0].affiliation == OWNER && t.occupants[0].role == MODERATOR
  {
    var s, st := RoomInit(node), Entering(first, nick);
    NewRoomInv(node, acl);
    FounderIsOwner(s, acl, st);
    Enters(s, acl, first, nick, t);
    FirstOccupantOwnsTheRoom(s, acl, st);
    RoomIsOpened(acl, node, st, t);
  }

  /** Nothing keeps the second one out. */
  lemma {:induction false} SecondMayEnter(
      acl: Acl, s: RoomState, first: Jid, second: Jid, nick: string, other: string)
    requires Pair(acl, first, second, nick, other) && s.flags == DEFAULT_FLAGS - {JustCreated}
    requires s.maxSize == DEFAULT_MAX_SIZE && s.lists == [[], [], [], [], [Entry(WithoutResource(first), None)]]
    requires |s.occupants| == 1 && s.occupants[0].jid == first && s.occupants[0].nick == nick
    ensures FindByJid(s.occupants, second) == 1 && FindByNick(s.occupants, other) == 1
    ensures Founded(s, second) == s && EntryError(s, acl, Entering(second, other)).None?
  {
    MatchesIsCanonicalEquality(first, second);
    SecondIsLookedUp(s.lists, acl, first, second);
    assert s.occupants[1..] == [];
  }

  lemma {:induction false} SecondEnters(
      acl: Acl, node: string, s: RoomState, first: Jid, second: Jid, nick: string, other: string, t: RoomState)
    requires Pair(acl, first, second, nick, other)
    requires s.node == node && s.flags == DEFAULT_FLAGS - {JustCreated}
    requires s.maxSize == DEFAULT_MAX_SIZE && s.defaultRole == PARTICIPANT
    requires s.lists == [[], [], [], [], [Entry(WithoutResource(first), None)]]
    requires |s.occupants| == 1 && s.occupants[0].jid == first && s.occupants[0].nick == nick
    requires s.occupants[0].affiliation == OWNER && s.occupants[0].role == MODERATOR
    requires t == Route(s, acl, Entering(second, other)).state
    ensures Shared(t, node, first, second, nick, other)
  {
    SecondMayEnter(acl, s, first, second, nick, other);
    SecondIsLookedUp(s.lists, acl, first, second);
    Enters(s, acl, second, other, t);
    assert t.occupants[1] == t.occupants[1..][0];
  }

  lemma {:induction false} BothEnter(acl: Acl, node: string, first: Jid, second: Jid, nick: string, other: string)
    returns (s: RoomState)
    requires Pair(acl, first, second, nick, other)
    ensures Run(acl, Both(node, first, second, nick, other)).table == [s]
    ensures Shared(s, node, first, second, nick, other)
  {
    var events := Both(node, first, second, nick, other);
    var alone := Route(RoomInit(node), acl, Entering(first, nick)).state;
    FirstEnters(acl, node, first, nick, alone);
    s := Route(alone, acl, Entering(second, other)).state;
    SecondEnters(acl, node, alone, first, second, nick, other, s);
    OnlyRoomIsRouted(acl, alone, Entering(second, other), s);
    assert events[..1] == [events[0]] && [events[0]][..0] == [];
    assert Run(acl, []).table == [];
    assert Run(acl, [events[0]]).table == [alone];
  }

  lemma {:induction false} TheTwoAreFound(
      s: RoomState, node: string, first: Jid, second: Jid, nick: string, other: string)
    requires Shared(s, node, first, second, nick, other)
    requires first.resource.Some? && second.resource.Some? && Bare(first) != Bare(second)
    ensures FindByJid(s.occupants, second) == 0 && FindByJid(s.occupants, first) == 1
  {
    MatchesIsCanonicalEquality(second, second);
    MatchesIsCanonicalEquality(first, first);
    MatchesIsCanonicalEquality(second, first);
    assert s.occupants[1..][0] == s.occupants[1];
  }

  /** After two people of one host entered, the second can take the room from the first in one
   *  set, and then nobody owns it who is not a service administrator. */
  lemma {:induction false} HostMateTakesTheRoom(
      acl: Acl, node: string, first: Jid, second: Jid, nick: string, other: string) returns (s: RoomState)
    requires Pair(acl, first, second, nick, other) && LowerText(first.host) == LowerText(second.host)
    ensures Run(acl, Both(node, first, second, nick, other)).table == [s]
    ensures var query := Iq(second, None, Set, Admin(Some(RemovalOf(WithoutResource(first)))), false);
            var after := Route(s, acl, query);
            && after.sent != [] && after.sent[0].IqResult? && after.state.lists == NO_ENTRIES
            && GetByJid(s.lists, acl, second) == OWNER && GetByJid(after.state.lists, acl, second) == NONE
            && forall j :: GetByJid(after.state.lists, acl, j) == OWNER ==> AclRole(acl, j) >= ACL_MUC_ADMIN
  {
    var events := Both(node, first, second, nick, other);
    s := BothEnter(acl, node, first, second, nick, other);
    EveryRunKeeps(acl, events);
    assert Run(acl, events).table[0] == s;
    TheTwoAreFound(s, node, first, second, nick, other);
    var query := Iq(second, None, Set, Admin(Some(RemovalOf(WithoutResource(first)))), false);
    OneSetEmptiesOwners(s, acl, query, 0, WithoutResource(first), Route(s, acl, query));
    assert s.lists[OWNER := []] == NO_ENTRIES;
  }

  lemma {:induction false} PresencesAreSmooth(
      acl: Acl, node: string, first: Jid, second: Jid, nick: string, other: string)
    ensures Smooth(acl, Both(node, first, second, nick, other))
  {
    var events := Both(node, first, second, nick, other);
    assert events[..1] == [events[0]] && [events[0]][..0] == [];
    assert Smooth(acl, [events[0]]);
  }

  lemma {:induction false} OneMoreEvent(acl: Acl, events: seq<Event>, e: Event, node: string, who: Jid)
    ensures var before, after := Run(acl, events), Run(acl, events + [e]);
            var step := Process(before.table, acl, e);
            && after.table == step.table
            && ReceiveAll(map[], node, who, after.sent) ==
               ReceiveAll(ReceiveAll(map[], node, who, before.sent), node, who, step.sent)
  {
    assert (events + [e])[..|events|] == events;
    ReceiveInParts(map[], node, who, Run(acl, events).sent, Process(Run(acl, events).table, acl, e).sent);
  }

  /** One more stanza to the only room, which outlives it. */
  lemma {:induction false} OneMoreStep(acl: Acl, events: seq<Event>, s: RoomState, st: Stanza, who: Jid)
    requires Run(acl, events).table == [s] && Destroyed !in Route(s, acl, st).state.flags
    ensures var before, after := Run(acl, events), Run(acl, events + [Event(s.node, st)]);
            && after.table == [Route(s, acl, st).state]
            && ReceiveAll(map[], s.node, who, after.sent) ==
               ReceiveAll(ReceiveAll(map[], s.node, who, before.sent), s.node, who, Route(s, acl, st).sent)
  {
    OnlyRoomIsRouted(acl, s, st, Route(s, acl, st).state);
    OneMoreEvent(acl, events, Event(s.node, st), s.node, who);
  }

  /** The two in their room, and the client `who` that knows it. */
  ghost predicate Announced(
      acl: Acl, s: RoomState, node: string, first: Jid, second: Jid, nick: string, other: string, who: Jid, r: Known)
  {
    && Shared(s, node, first, second, nick, other) && Synced(s, who, r)
    && Inv(s, acl) && AtRest(s) && Destroyed !in s.flags
    && FindByJid(s.occupants, second) == 0 && FindByJid(s.occupants, first) == 1
  }

  lemma {:induction false} BothAreAnnounced(
      acl: Acl, node: string, first: Jid, second: Jid, nick: string, other: string, who: Jid) returns (s: RoomState)
    requires Pair(acl, first, second, nick, other)
    ensures var run := Run(acl, Both(node, first, second, nick, other));
            && run.table == [s]
            && Announced(acl, s, node, first, second, nick, other, who, ReceiveAll(map[], node, who, run.sent))
  {
    var events := Both(node, first, second, nick, other);
    s := BothEnter(acl, node, first, second, nick, other);
    EveryRunKeeps(acl, events);
    PresencesAreSmooth(acl, node, first, second, nick, other);
    EveryClientAgrees(acl, events, node, who);
    assert Run(acl, events).table[0] == s && FindRoom(Run(acl, events).table, node) == 0;
    TheTwoAreFound(s, node, first, second, nick, other);
  }

  /** The first one gives the second another role in a set whose next item is malformed. */
  function Aborted(first: Jid, other: string): Stanza {
    Iq(first, None, Set, Admin(Some(RoleThenNonsense(other, VISITOR))), false)
  }

  lemma {:induction false} TheSetIsSilent(
      acl: Acl, s: RoomState, node: string, first: Jid, second: Jid, nick: string, other: string, who: Jid, r: Known)
    requires Pair(acl, first, second, nick, other) && LowerText(first.host) != LowerText(second.host)
    requires Announced(acl, s, node, first, second, nick, other, who, r)
    requires who == Canonical(first) || who == Canonical(second)
    ensures var after := Route(s, acl, Aborted(first, other));
            && Destroyed !in after.state.flags && after.state.node == node
            && !Synced(after.state, who, ReceiveAll(r, node, who, after.sent))
  {
    assert Here(s, who);
    BouncedRoleChangeIsSilent(s, acl, Aborted(first, other), 1, 0, VISITOR, who, r);
    SilentStep(acl, s, Aborted(first, other), 1, 0, VISITOR);
  }

  /** After two people of different hosts entered, a set of the first that is bounced midway
   *  leaves both clients with a role that the second no longer has. */
  lemma {:induction false} SetLeavesClientsBehind(
      acl: Acl, node: string, first: Jid, second: Jid, nick: string, other: string, who: Jid)
    requires Pair(acl, first, second, nick, other) && LowerText(first.host) != LowerText(second.host)
    requires who == Canonical(first) || who == Canonical(second)
    ensures var run := Run(acl, Both(node, first, second, nick, other) + [Event(node, Aborted(first, other))]);
            !ClientAgrees(run.table, node, who, ReceiveAll(map[], node, who, run.sent))
  {
    var events := Both(node, first, second, nick, other);
    var s := BothAreAnnounced(acl, node, first, second, nick, other, who);
    TheSetIsSilent(acl, s, node, first, second, nick, other, who, ReceiveAll(map[], node, who, Run(acl, events).sent));
    OneMoreStep(acl, events, s, Aborted(first, other), who);
    OnlyRoomDisagrees(Route(s, acl, Aborted(first, other)).state, node, who,
                      ReceiveAll(map[], node, who, Run(acl, events + [Event(node, Aborted(first, other))]).sent));
  }

  lemma {:induction false} OnlyRoomDisagrees(s: RoomState, node: string, who: Jid, r: Known)
    requires s.node == node && !Synced(s, who, r)
    ensures !ClientAgrees([s], node, who, r)
  {
    assert FindRoom([s], node) == 0;
  }

  lemma {:induction false} TheSetMarks(s: RoomState, acl: Acl, st: Stanza)
    requires Inv(s, acl) && AtRest(s) && Destroyed !in s.flags && |s.occupants| == 2
    requires FindByJid(s.occupants, st.from) == 1 && s.occupants[1].affiliation == OWNER
    requires s.occupants[0].nick != "" && s.occupants[0].affiliation < ADMIN
    requires st == Iq(st.from, None, Set, Admin(Some(RoleThenNonsense(s.occupants[0].nick, VISITOR))), false)
    ensures var after := Route(s, acl, st);
            && SameKeys(s, after.state) && after.state.occupants[0].included
            && after.state.occupants[1].affiliation == OWNER
            && |after.sent| == 1 && after.sent[0].Bounce?
  {
    var result := ApplyItems(Marked(s, []), acl, 1, st.query.items.value);
    RoleIsChanged(s, acl, 1, 0, VISITOR, result);
    ApplyItemsTracks(s, Marked(s, []), acl, 1, st.query.items.value);
    MidwayOutcome(s, acl, st);
    assert 0 in result.marked.affected && 1 !in result.marked.affected;
  }

  /** The second one is left with a mark, and its client has heard nothing. */
  lemma {:induction false} TheSetKeepsTheNick(
      acl: Acl, s: RoomState, node: string, first: Jid, second: Jid, nick: string, other: string, r: Known)
    requires Pair(acl, first, second, nick, other) && LowerText(first.host) != LowerText(second.host)
    requires Announced(acl, s, node, first, second, nick, other, Canonical(second), r)
    ensures var after := Route(s, acl, Aborted(first, other));
            && Destroyed !in after.state.flags && MarkedPair(after.state, node, first, second, other)
            && other in ReceiveAll(r, node, Canonical(second), after.sent)
  {
    assert Here(s, Canonical(second)) && KnownAs(r, s.occupants[0]);
    var after := Route(s, acl, Aborted(first, other));
    SilentStep(acl, s, Aborted(first, other), 1, 0, VISITOR);
    TheSetMarks(s, acl, Aborted(first, other));
    UnrelatedPackets(r, node, Canonical(second), after.sent);
  }

  predicate MarkedPair(s: RoomState, node: string, first: Jid, second: Jid, other: string) {
    && s.node == node && |s.occupants| == 2
    && s.occupants[0].included && s.occupants[0].nick == other && s.occupants[0].jid == second
    && s.occupants[1].affiliation == OWNER && s.occupants[1].jid == first
  }

  /** If the first one then destroys the room, the second is not told: its client still
   *  knows a room that is no longer there. */
  lemma {:induction false} DestructionLeavesClientBehind(
      acl: Acl, node: string, first: Jid, second: Jid, nick: string, other: string)
    requires Pair(acl, first, second, nick, other) && LowerText(first.host) != LowerText(second.host)
    ensures var destruction := Iq(first, None, Set, Owner(Some(Some(Destroy))), false);
            var events := Both(node, first, second, nick, other) + [Event(node, Aborted(first, other))];
            var run := Run(acl, events + [Event(node, destruction)]);
            run.table == [] && other in ReceiveAll(map[], node, Canonical(second), run.sent)
  {
    var who, both := Canonical(second), Both(node, first, second, nick, other);
    var s := BothAreAnnounced(acl, node, first, second, nick, other, who);
    TheSetKeepsTheNick(acl, s, node, first, second, nick, other, ReceiveAll(map[], node, who, Run(acl, both).sent));
    OneMoreStep(acl, both, s, Aborted(first, other), who);
    OwnerDestroys(acl, both + [Event(node, Aborted(first, other))], node, Route(s, acl, Aborted(first, other)).state,
                  first, second, other);
  }

  lemma {:induction false} OwnerDestroys(
      acl: Acl, events: seq<Event>, node: string, s: RoomState, first: Jid, second: Jid, other: string)
    requires Run(acl, events).table == [s] && MarkedPair(s, node, first, second, other)
    requires first.resource.Some? && Bare(first) != Bare(second)
    requires other in ReceiveAll(map[], node, Canonical(second), Run(acl, events).sent)
    ensures var destruction := Iq(first, None, Set, Owner(Some(Some(Destroy))), false);
            var run := Run(acl, events + [Event(node, destruction)]);
            run.table == [] && other in ReceiveAll(map[], node, Canonical(second), run.sent)
  {
    var destruction := Iq(first, None, Set, Owner(Some(Some(Destroy))), false);
    EveryRunKeeps(acl, events);
    assert Run(acl, events).table[0] == s;
    OwnerIsFound(s.occupants, first, second);
    MarksOutlastTheRoom(s, acl, destruction, 0, ReceiveAll(map[], node, Canonical(second), Run(acl, events).sent),
                        Route(s, acl, destruction));
    OnlyRoomGoes(acl, s, destruction);
    OneMoreEvent(acl, events, Event(node, destruction), node, Canonical(second));
  }

  lemma {:induction false} OwnerIsFound(occupants: seq<Occupant>, first: Jid, second: Jid)
    requires |occupants| == 2 && occupants[0].jid == second && occupants[1].jid == first
    requires first.resource.Some? && Bare(first) != Bare(second)
    ensures FindByJid(occupants, first) == 1
  {
    MatchesIsCanonicalEquality(first, first);
    MatchesIsCanonicalEquality(second, first);
    assert occupants[1..][0] == occupants[1];
  }

  lemma {:induction false} OnlyRoomGoes(acl: Acl, s: RoomState, st: Stanza)
    requires Destroyed in Route(s, acl, st).state.flags
    ensures Process([s], acl, Event(s.node, st)) == TableOutcome([], Route(s, acl, st).sent)
  {
    assert Without([s], 0) == [];
  }

  lemma {:induction false} SilentStep(acl: Acl, s: RoomState, st: Stanza, sender: nat, target: nat, role: Role)
    requires Inv(s, acl) && AtRest(s) && Destroyed !in s.flags
    requires sender == FindByJid(s.occupants, st.from) < |s.occupants| && s.occupants[sender].affiliation >= ADMIN
    requires target < |s.occupants| && s.occupants[target].nick != "" && s.occupants[target].affiliation < ADMIN
    requires st == Iq(st.from, None, Set, Admin(Some(RoleThenNonsense(s.occupants[target].nick, role))), false)
    ensures Route(s, acl, st).state.flags == s.flags && Route(s, acl, st).state.node == s.node
  {
    var result := ApplyItems(Marked(s, []), acl, sender, st.query.items.value);
    RoleIsChanged(s, acl, sender, target, role, result);
    ApplyItemsKeepFlags(Marked(s, []), acl, sender, st.query.items.value);
    ApplyItemsKeepNode(Marked(s, []), acl, sender, st.query.items.value);
    MidwayOutcome(s, acl, st);
  }
}
