/** What one stanza does to a room and whom it tells, said in terms of the room before and of
 *  the packets. Nothing here mentions how a step is put together.
 */
module RoomRules {
  import opened Common
  import opened Jids
  import opened Affiliations
  import opened AffiliationLaws
  import opened RoomModel
  import opened RoomInvariants
  import opened RosterLaws

  // ----- Presences -----

  /** The presence of one occupant as another one gets it. The real address is for moderators,
   *  and for everybody in a room that is not semi-anonymous. */
  predicate Shows(p: Packet, s: RoomState, o: Occupant, receiver: Occupant) {
    && p.Presence? && p.to == receiver.jid && p.fromNode == s.node && p.fromNick == o.nick
    && p.affiliation == o.affiliation && p.role == o.role && p.content == o.presence
    && p.realJid == if SemiAnonymous in s.flags && receiver.role < MODERATOR then None else Some(o.jid)
  }

  /** Its status codes are these, and in the presence that comes back to its sender those of
   *  the room besides. */
  ghost predicate CodesAre(p: Packet, flags: set<Flag>, own: bool, codes: set<Status>)
    requires p.Presence?
  {
    forall c :: c in p.codes <==>
      || c in codes
      || (own && c == SelfPresence)
      || (own && c == NonAnonymous && SemiAnonymous !in flags)
      || (own && c == LoggingEnabled && EnableLogging in flags)
      || (own && c == RoomCreated && JustCreated in flags)
  }

  /** Every occupant in turn gets the presence of the one at `i`. */
  ghost predicate AllAreShown(
      sent: seq<Packet>, s: RoomState, i: nat, gone: bool, newNick: Option<string>, codes: set<Status>)
    requires i < |s.occupants|
  {
    && |sent| == |s.occupants|
    && forall k :: 0 <= k < |sent| ==>
         && Shows(sent[k], s, s.occupants[i], s.occupants[k]) && CodesAre(sent[k], s.flags, k == i, codes)
         && sent[k].unavailable == gone && sent[k].newNick == newNick && sent[k].reason == s.occupants[i].reason
  }

  lemma {:induction false} BroadcastShows(s: RoomState, i: nat, newNick: Option<string>, codes: set<Status>)
    requires i < |s.occupants|
    ensures AllAreShown(Broadcast(s, i, newNick, codes), s, i,
                        s.occupants[i].role == ROLE_NONE || NicknameChanged in codes, newNick, codes)
  {
  }

  /** The occupant at `receiver` gets the presences of the others in turn. */
  ghost predicate OthersAreShown(sent: seq<Packet>, s: RoomState, receiver: nat, n: nat)
    requires receiver < |s.occupants| && n <= |s.occupants|
  {
    && |sent| == (if receiver < n then n - 1 else n)
    && forall k :: 0 <= k < |sent| ==>
         && Shows(sent[k], s, s.occupants[if k < receiver then k else k + 1], s.occupants[receiver])
         && !sent[k].unavailable && sent[k].newNick == None && sent[k].codes == {} && sent[k].reason == None
  }

  lemma {:induction false} IntroductionsShow(s: RoomState, receiver: nat, n: nat)
    requires receiver < |s.occupants| && n <= |s.occupants|
    ensures OthersAreShown(Introductions(s, receiver, n), s, receiver, n)
    decreases n
  {
    if n > 0 {
      IntroductionsShow(s, receiver, n - 1);
    }
  }

  // ----- Who is meant -----

  /** A full address means the first occupant with it, a bare one the first occupant with any
   *  resource of it. */
  lemma {:induction false} FoundByAddress(occupants: seq<Occupant>, jid: Jid, i: nat)
    requires i == FindByJid(occupants, jid)
    ensures i < |occupants| ==>
              if jid.resource == None then Bare(occupants[i].jid) == Bare(jid)
              else Canonical(occupants[i].jid) == Canonical(jid)
    ensures forall k :: 0 <= k < i ==>
              if jid.resource == None then Bare(occupants[k].jid) != Bare(jid)
              else Canonical(occupants[k].jid) != Canonical(jid)
  {
    forall k | 0 <= k < |occupants|
      ensures Matches(occupants[k].jid, jid, Full) <==> Canonical(occupants[k].jid) == Canonical(jid)
      ensures Matches(occupants[k].jid, jid, NodeAndHost) <==> Bare(occupants[k].jid) == Bare(jid)
    {
      MatchesIsCanonicalEquality(occupants[k].jid, jid);
    }
  }

  // ----- Entering -----

  /** A presence from somebody who is not in the room, with a nick that nobody has. */
  predicate Newcomer(s: RoomState, st: Stanza) {
    && st.PresenceIn? && !st.gone && st.nick.Some?
    && FindByJid(s.occupants, st.from) == FindByNick(s.occupants, st.nick.value) == |s.occupants|
  }

  /** The room asks this person for its password. */
  predicate AsksPassword(s: RoomState, affiliation: Affiliation) {
    PasswordProtected in s.flags && s.password.Some? && affiliation != OWNER
  }

  /** Service administrators may enter in any case; all others if there is room, they are not
   *  banned, they know the password if they are asked, and they are members if they must be. */
  predicate Welcome(s: RoomState, acl: Acl, st: Stanza)
    requires st.PresenceIn?
  {
    var affiliation := GetByJid(s.lists, acl, st.from);
    || AclRole(acl, st.from) >= ACL_MUC_ADMIN
    || (&& |s.occupants| < s.maxSize
        && affiliation != OUTCAST
        && (AsksPassword(s, affiliation) ==> st.password == s.password)
        && (MembersOnly in s.flags ==> affiliation >= MEMBER))
  }

  lemma {:induction false} EntersIff(s: RoomState, acl: Acl, st: Stanza, after: Outcome)
    requires Newcomer(s, st) && JustCreated !in s.flags && after == Route(s, acl, st)
    ensures Welcome(s, acl, st) <==>
            |after.state.occupants| == |s.occupants| + 1 && after.state.occupants[0].jid == st.from
  {
  }

  /** Whoever may not enter is told the first reason, and the room stays as it is. */
  lemma {:induction false} EntryIsRefused(s: RoomState, acl: Acl, st: Stanza, after: Outcome, affiliation: Affiliation)
    requires Newcomer(s, st) && JustCreated !in s.flags && after == Route(s, acl, st)
    requires AclRole(acl, st.from) < ACL_MUC_ADMIN && affiliation == GetByJid(s.lists, acl, st.from)
    ensures |s.occupants| >= s.maxSize ==> after == Outcome(s, [Bounce(st.from, OccupantsLimit)])
    ensures |s.occupants| < s.maxSize && affiliation == OUTCAST ==>
              after == Outcome(s, [Bounce(st.from, BannedFromRoom)])
    ensures |s.occupants| < s.maxSize && affiliation != OUTCAST
            && AsksPassword(s, affiliation) && st.password != s.password ==>
              after == Outcome(s, [Bounce(st.from, WrongPassword)])
    ensures |s.occupants| < s.maxSize && affiliation == NONE && MembersOnly in s.flags
            && (AsksPassword(s, affiliation) ==> st.password == s.password) ==>
              after == Outcome(s, [Bounce(st.from, MembersRequired)])
  {
  }

  /** Others who are not in the room: a farewell is ignored, a nick is needed, and a nick that
   *  somebody has is refused. */
  lemma {:induction false} OutsidersAreTurnedAway(s: RoomState, acl: Acl, st: Stanza, after: Outcome)
    requires st.PresenceIn? && FindByJid(s.occupants, st.from) == |s.occupants| && after == Route(s, acl, st)
    ensures st.gone ==> after == Outcome(s, [])
    ensures !st.gone && st.nick == None ==> after == Outcome(s, [Bounce(st.from, JidMalformed)])
    ensures !st.gone && st.nick.Some? &&
            (exists k :: 0 <= k < |s.occupants| && s.occupants[k].nick == st.nick.value) ==>
              after == Outcome(s, [Bounce(st.from, OccupantConflict)])
  {
  }

  /** Visitors are heard only where the room lets them. */
  predicate Heard(s: RoomState, role: Role) {
    role == PARTICIPANT || role == MODERATOR || VisitorPresence in s.flags
  }

  /** What is kept of a presence for those who come later: up to 2^20 bytes of it, if any. */
  function Kept(presence: Option<string>): Option<string> {
    if presence.Some? && 1 <= |presence.value| <= 1048576 then presence else None
  }

  /** The role in which somebody enters: admins and owners as moderators, members as
   *  participants, all others as the room has it. */
  function EntryRole(s: RoomState, affiliation: Affiliation): Role {
    if affiliation == ADMIN || affiliation == OWNER then MODERATOR
    else if affiliation == MEMBER then PARTICIPANT
    else s.defaultRole
  }

  /** `t` is the room `s` in which the occupant at `i` has shown this presence, if it is heard. */
  predicate HasShown(s: RoomState, i: nat, inner: Option<string>, t: RoomState)
    requires i < |s.occupants|
  {
    var o := s.occupants[i];
    t == s.(occupants := s.occupants[i := if Heard(s, o.role) then o.(presence := inner) else o])
  }

  /** The occupant at `i` is as it was, but for how much of its presence is kept. */
  function Keeping(s: RoomState, i: nat): RoomState
    requires i < |s.occupants|
  {
    s.(occupants := s.occupants[i := s.occupants[i].(presence := Kept(s.occupants[i].presence))],
       flags := s.flags - {JustCreated})
  }

  /** Everybody is told of the presence, and a newcomer of the subject. */
  lemma {:induction false} PresenceIsAnnounced(
      s: RoomState, i: nat, inner: Option<string>, justJoined: bool, t: RoomState, after: Outcome)
    requires i < |s.occupants| && HasShown(s, i, inner, t) && after == Announce(s, i, inner, justJoined)
    ensures after.state == Keeping(t, i)
    ensures var n := |s.occupants|;
            && |after.sent| >= n && AllAreShown(after.sent[..n], t, i, t.occupants[i].role == ROLE_NONE, None, {})
            && after.sent[n..] == if justJoined && s.subject.Some?
                                  then [Subject(s.occupants[i].jid, s.node, s.subject.value)] else []
  {
    BroadcastShows(t, i, None, {});
    var sent := Broadcast(t, i, None, {});
    assert after.sent == sent + if justJoined then SubjectFor(t, i) else [];
    assert after.sent[..|s.occupants|] == sent;
  }

  /** The newcomer `o` is put in front of the others with the affiliation that it is looked up
   *  with. It is told of all of them, then everybody of it, and it gets the subject, if any. */
  lemma {:induction false} NewcomerEnters(
      s: RoomState, acl: Acl, st: Stanza, after: Outcome, affiliation: Affiliation, role: Role, t: RoomState)
    requires Newcomer(s, st) && JustCreated !in s.flags && Welcome(s, acl, st) && after == Route(s, acl, st)
    requires affiliation == GetByJid(s.lists, acl, st.from) && role == EntryRole(s, affiliation)
    requires var presence := if Heard(s, role) then st.inner else None;
             t == s.(occupants := [Occupant(st.from, st.nick.value, affiliation, role, presence, false, None)] +
                                  s.occupants)
    ensures after.state == Keeping(t, 0)
    ensures var n := |s.occupants|;
            && |after.sent| >= n && OthersAreShown(after.sent[..n], t, 0, n + 1)
            && EntryIsShown(after.sent[n..], t, st.from)
  {
    var joined := Join(s, st.from, st.nick.value, affiliation);
    var announced := Announce(joined, 0, st.inner, true);
    var introduced := Introductions(joined, 0, |joined.occupants|);
    IsLetIn(s, acl, st, after, introduced, announced);
    IntroductionsShow(joined, 0, |joined.occupants|);
    PresenceIsAnnounced(joined, 0, st.inner, true, t, announced);
  }

  /** Everybody is told of the first occupant, and then it gets the subject. */
  ghost predicate EntryIsShown(sent: seq<Packet>, t: RoomState, to: Jid)
    requires t.occupants != []
  {
    var n := |t.occupants|;
    && |sent| >= n && AllAreShown(sent[..n], t, 0, t.occupants[0].role == ROLE_NONE, None, {})
    && sent[n..] == if t.subject.Some? then [Subject(to, t.node, t.subject.value)] else []
  }

  lemma {:induction false} IsLetIn(
      s: RoomState, acl: Acl, st: Stanza, after: Outcome, introduced: seq<Packet>, announced: Outcome)
    requires Newcomer(s, st) && JustCreated !in s.flags && Welcome(s, acl, st) && after == Route(s, acl, st)
    requires var joined := Join(s, st.from, st.nick.value, GetByJid(s.lists, acl, st.from));
             && introduced == Introductions(joined, 0, |joined.occupants|)
             && announced == Announce(joined, 0, st.inner, true)
    ensures after.state == announced.state
    ensures |introduced| == |s.occupants| ==>
              && |after.sent| >= |s.occupants|
              && after.sent[..|s.occupants|] == introduced && after.sent[|s.occupants|..] == announced.sent
  {
    EntryOutcome(s, acl, st, s);
  }

  /** The founder of a room is the only one told of, also that the room is new. */
  lemma {:induction false} FounderEnters(s: RoomState, acl: Acl, st: Stanza, after: Outcome, t: RoomState)
    requires Inv(s, acl) && JustCreated in s.flags && Newcomer(s, st) && after == Route(s, acl, st)
    requires t == s.(occupants := [Occupant(st.from, st.nick.value, OWNER, MODERATOR, st.inner, false, None)],
                     lists := [[], [], [], [], [Entry(Jid(st.from.node, st.from.host, None), None)]])
    ensures after.state == Keeping(t, 0) && EntryIsShown(after.sent, t, st.from)
  {
    var joined := t.(occupants := [t.occupants[0].(presence := None)]);
    var announced := Announce(joined, 0, st.inner, true);
    FounderIsLetIn(s, acl, st, after, joined, announced);
    PresenceIsAnnounced(joined, 0, st.inner, true, t, announced);
  }

  lemma {:induction false} FounderIsLetIn(
      s: RoomState, acl: Acl, st: Stanza, after: Outcome, joined: RoomState, announced: Outcome)
    requires Inv(s, acl) && JustCreated in s.flags && Newcomer(s, st) && after == Route(s, acl, st)
    requires joined == s.(occupants := [Occupant(st.from, st.nick.value, OWNER, MODERATOR, None, false, None)],
                          lists := [[], [], [], [], [Entry(Jid(st.from.node, st.from.host, None), None)]])
    requires announced == Announce(joined, 0, st.inner, true)
    ensures after == announced
  {
    var founded := Founded(s, st.from);
    FounderJoins(s, acl, st, founded, joined);
    EntryOutcome(s, acl, st, founded);
    NobodyIsIntroduced(joined);
  }

  lemma {:induction false} FounderJoins(s: RoomState, acl: Acl, st: Stanza, founded: RoomState, joined: RoomState)
    requires Inv(s, acl) && JustCreated in s.flags && Newcomer(s, st) && founded == Founded(s, st.from)
    requires joined == s.(occupants := [Occupant(st.from, st.nick.value, OWNER, MODERATOR, None, false, None)],
                          lists := [[], [], [], [], [Entry(Jid(st.from.node, st.from.host, None), None)]])
    ensures EntryError(founded, acl, st).None?
    ensures joined == Join(founded, st.from, st.nick.value, GetByJid(founded.lists, acl, st.from))
  {
    FounderIsOwner(s, acl, st);
  }

  lemma {:induction false} NobodyIsIntroduced(s: RoomState)
    requires |s.occupants| == 1
    ensures Introductions(s, 0, 1) == []
  {
  }

  // ----- Occupants -----

  /** The room without the occupant at `i`. It ends with the last one, unless it is persistent. */
  predicate IsLeft(s: RoomState, i: nat, t: RoomState)
    requires i < |s.occupants|
  {
    && t == s.(occupants := s.occupants[..i] + s.occupants[i + 1..], flags := t.flags)
    && forall f :: f in t.flags <==>
         f in s.flags || (f == Destroyed && |s.occupants| == 1 && Persistent !in s.flags)
  }

  /** Whoever says farewell is announced as gone, with its last words if it is heard. */
  lemma {:induction false} OccupantLeaves(s: RoomState, acl: Acl, st: Stanza, i: nat, t: RoomState, after: Outcome)
    requires st.PresenceIn? && st.gone && i == FindByJid(s.occupants, st.from) < |s.occupants|
    requires JustCreated !in s.flags && after == Route(s, acl, st)
    requires var o := s.occupants[i];
             var presence := if Heard(s, o.role) then st.inner else o.presence;
             t == s.(occupants := s.occupants[i := o.(role := ROLE_NONE, presence := presence)])
    ensures IsLeft(s, i, after.state) && AllAreShown(after.sent, t, i, true, None, {})
  {
    FarewellIsSaid(s, acl, st, i, t, after, Leave(t, i), Broadcast(t, i, None, {}));
    BroadcastShows(t, i, None, {});
    LeavingLeaves(t, i);
  }

  lemma {:induction false} FarewellIsSaid(
      s: RoomState, acl: Acl, st: Stanza, i: nat, t: RoomState, after: Outcome, left: RoomState, sent: seq<Packet>)
    requires st.PresenceIn? && st.gone && i == FindByJid(s.occupants, st.from) < |s.occupants|
    requires after == Route(s, acl, st)
    requires var o := s.occupants[i];
             var presence := if Heard(s, o.role) then st.inner else o.presence;
             t == s.(occupants := s.occupants[i := o.(role := ROLE_NONE, presence := presence)])
    requires left == Leave(t, i) && sent == Broadcast(t, i, None, {})
    ensures after == Outcome(ClearJustCreated(left), sent)
  {
    assert after == Depart(s, i, st.inner);
  }

  lemma {:induction false} LeavingLeaves(s: RoomState, i: nat)
    requires i < |s.occupants|
    ensures IsLeft(s, i, Leave(s, i))
    ensures JustCreated !in s.flags ==> ClearJustCreated(Leave(s, i)) == Leave(s, i)
  {
  }

  /** Whoever sends an error is removed without a word of its own. */
  lemma {:induction false} SenderOfErrorLeaves(s: RoomState, acl: Acl, from: Jid, i: nat, t: RoomState, after: Outcome)
    requires i == FindByJid(s.occupants, from) && after == Route(s, acl, ErrorStanza(from))
    requires var notice := "<status>This occupant is kicked from the room because he sent an error stanza</status>";
             i < |s.occupants| ==>
               t == s.(occupants := s.occupants[i := s.occupants[i].(role := ROLE_NONE, presence := Some(notice))])
    ensures i == |s.occupants| ==> after == Outcome(s, [])
    ensures i < |s.occupants| ==> IsLeft(s, i, after.state) && AllAreShown(after.sent, t, i, true, None, {})
  {
    if i < |s.occupants| {
      BroadcastShows(t, i, None, {});
      LeavingLeaves(t, i);
    }
  }

  /** An occupant who keeps its nick shows its presence. */
  lemma {:induction false} OccupantUpdates(s: RoomState, acl: Acl, st: Stanza, i: nat, t: RoomState, after: Outcome)
    requires st.PresenceIn? && !st.gone && i == FindByJid(s.occupants, st.from) < |s.occupants|
    requires st.nick.Some? ==> FindByNick(s.occupants, st.nick.value) == i
    requires after == Route(s, acl, st) && HasShown(s, i, st.inner, t)
    ensures after.state == Keeping(t, i) && AllAreShown(after.sent, t, i, t.occupants[i].role == ROLE_NONE, None, {})
  {
    PresenceIsAnnounced(s, i, st.inner, false, t, Announce(s, i, st.inner, false));
    assert after == Announce(s, i, st.inner, false);
    assert after.sent[..|s.occupants|] == after.sent;
  }

  /** A nick that somebody else has is refused; visitors who are not heard keep theirs. */
  lemma {:induction false} NickIsKept(s: RoomState, acl: Acl, st: Stanza, i: nat, holder: nat, after: Outcome)
    requires st.PresenceIn? && !st.gone && i == FindByJid(s.occupants, st.from) < |s.occupants|
    requires st.nick.Some? && holder == FindByNick(s.occupants, st.nick.value) && after == Route(s, acl, st)
    ensures holder < |s.occupants| && holder != i ==> after == Outcome(s, [Bounce(st.from, OccupantConflict)])
    ensures holder == |s.occupants| && !Heard(s, s.occupants[i].role) ==> after == Outcome(s, [])
  {
  }

  /** All others go by their old nick and come back with the new one, and what they say with it. */
  lemma {:induction false} NickIsChanged(
      s: RoomState, acl: Acl, st: Stanza, i: nat, t: RoomState, after: Outcome)
    requires st.PresenceIn? && !st.gone && i == FindByJid(s.occupants, st.from) < |s.occupants|
    requires st.nick.Some? && FindByNick(s.occupants, st.nick.value) == |s.occupants| && Heard(s, s.occupants[i].role)
    requires after == Route(s, acl, st)
    requires t == s.(occupants := s.occupants[i := s.occupants[i].(nick := st.nick.value, presence := st.inner)])
    ensures after.state == Keeping(t, i)
    ensures var n := |s.occupants|;
            && |after.sent| == n + n
            && AllAreShown(after.sent[..n], s, i, true, st.nick, {NicknameChanged})
            && AllAreShown(after.sent[n..], t, i, t.occupants[i].role == ROLE_NONE, None, {})
  {
    var renamed := WithOccupant(s, i, s.occupants[i].(nick := st.nick.value));
    var farewell, announced := Broadcast(s, i, st.nick, {NicknameChanged}), Announce(renamed, i, st.inner, false);
    IsRenamed(s, acl, st, i, after, farewell, announced);
    BroadcastShows(s, i, st.nick, {NicknameChanged});
    PresenceIsAnnounced(renamed, i, st.inner, false, t, announced);
    var n := |s.occupants|;
    assert after.sent[..n] == farewell && after.sent[n..] == announced.sent && announced.sent[..n] == announced.sent;
  }

  lemma {:induction false} IsRenamed(
      s: RoomState, acl: Acl, st: Stanza, i: nat, after: Outcome, farewell: seq<Packet>, announced: Outcome)
    requires st.PresenceIn? && !st.gone && i == FindByJid(s.occupants, st.from) < |s.occupants|
    requires st.nick.Some? && FindByNick(s.occupants, st.nick.value) == |s.occupants| && Heard(s, s.occupants[i].role)
    requires after == Route(s, acl, st) && farewell == Broadcast(s, i, st.nick, {NicknameChanged})
    requires announced == Announce(WithOccupant(s, i, s.occupants[i].(nick := st.nick.value)), i, st.inner, false)
    ensures after == Outcome(announced.state, farewell + announced.sent)
  {
  }
}
