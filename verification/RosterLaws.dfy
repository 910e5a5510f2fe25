/** Every step of a room keeps its members informed. After a step that aborts an admin set
 *  the occupants whom it left with a mark are the only ones that others may have wrong.
 */
module RosterLaws {
  import opened Common
  import opened Jids
  import opened Affiliations
  import opened RoomModel
  import opened RoomInvariants
  import opened Roster

  /** The stanza is an admin set that is bounced after marking some occupants. */
  predicate BouncedMidway(s: RoomState, acl: Acl, st: Stanza) {
    && st.Iq? && st.nick.None? && st.kind == Set && st.query.Admin? && st.query.items.Some?
    && var sender := FindByJid(s.occupants, st.from);
       && sender < |s.occupants|
       && s.occupants[sender].role >= MODERATOR
       && var r := ApplyItems(Marked(s, []), acl, sender, st.query.items.value);
          r.error.Some? && r.marked.affected != []
  }

  // ----- The affected list covers every change -----

  /** `m` has come from the room `s`: the affected list holds those who got a mark, and
   *  whoever has no mark has not changed. */
  ghost predicate Tracks(s: RoomState, m: Marked) {
    && SameKeys(s, m.state) && m.Valid()
    && forall k :: 0 <= k < |s.occupants| ==>
         && (k in m.affected <==> m.state.occupants[k].included && !s.occupants[k].included)
         && (s.occupants[k].included ==> m.state.occupants[k].included)
         && (!m.state.occupants[k].included ==>
               && m.state.occupants[k].affiliation == s.occupants[k].affiliation
               && m.state.occupants[k].role == s.occupants[k].role)
  }

  /** Changing an occupant and marking it keeps the account. */
  lemma {:induction false} ChangeAndMarkTracks(s: RoomState, m: Marked, i: nat, o: Occupant, reason: Option<string>)
    requires Tracks(s, m) && i < |s.occupants|
    requires o.nick == m.state.occupants[i].nick && o.jid == m.state.occupants[i].jid
    requires o.included == m.state.occupants[i].included
    ensures Tracks(s, Mark(m.(state := WithOccupant(m.state, i, o)), i, reason))
  {
    var r := Mark(m.(state := WithOccupant(m.state, i, o)), i, reason);
    if !o.included {
      assert r.affected == m.affected + [i] && i in r.affected;
      assert forall k :: k in m.affected ==> k in r.affected;
    }
  }

  lemma {:induction false} RecomputeTracks(s: RoomState, m: Marked, acl: Acl, i: nat, reason: Option<string>)
    requires Tracks(s, m) && i <= |s.occupants|
    ensures Tracks(s, Recompute(m, acl, i, reason))
    decreases |s.occupants| - i
  {
    if i < |s.occupants| {
      var o := m.state.occupants[i];
      var affiliation := GetByJid(m.state.lists, acl, o.jid);
      ChangeAndMarkTracks(s, m, i, o.(role := RoleAfterChange(affiliation), affiliation := affiliation), reason);
      RecomputeTracks(s, RecomputeOne(m, acl, i, reason), acl, i + 1, reason);
    }
  }

  lemma {:induction false} ApplyItemTracks(s: RoomState, m: Marked, acl: Acl, sender: nat, item: Item)
    requires Tracks(s, m) && sender < |s.occupants|
    ensures Tracks(s, ApplyItem(m, acl, sender, item).marked)
  {
    if WellFormedItem(item) {
      if item.role.Some? {
        var target := FindByNick(m.state.occupants, item.nick.value);
        if target < |s.occupants| {
          ChangeAndMarkTracks(s, m, target, m.state.occupants[target].(role := item.role.value), item.reason);
        }
      } else {
        var moved := m.state.(lists := Moved(m.state.lists, item.affiliation.value, item.jid.value, item.reason));
        RecomputeTracks(s, m.(state := moved), acl, 0, item.reason);
      }
    }
  }

  lemma {:induction false} ApplyItemsTracks(s: RoomState, m: Marked, acl: Acl, sender: nat, items: seq<Item>)
    requires Tracks(s, m) && sender < |s.occupants|
    ensures Tracks(s, ApplyItems(m, acl, sender, items).marked)
    decreases |items|
  {
    if items != [] {
      ApplyItemTracks(s, m, acl, sender, items[0]);
      ApplyItemsTracks(s, ApplyItem(m, acl, sender, items[0]).marked, acl, sender, items[1..]);
    }
  }

  lemma {:induction false} PurgeTracks(s: RoomState, m: Marked, i: nat)
    requires Tracks(s, m) && i <= |s.occupants|
    ensures Tracks(s, PurgeNonMembers(m, i))
    decreases |s.occupants| - i
  {
    if i < |s.occupants| {
      var o := m.state.occupants[i].(role := ROLE_NONE);
      if o.affiliation < MEMBER {
        ChangeAndMarkTracks(s, m, i, o, Some(MEMBERS_ONLY_REASON));
        PurgeTracks(s, Mark(m.(state := WithOccupant(m.state, i, o)), i, Some(MEMBERS_ONLY_REASON)), i + 1);
      } else {
        PurgeTracks(s, m, i + 1);
      }
    }
  }

  /** Destroying a room marks everybody. */
  lemma {:induction false} DismissTracks(s: RoomState, m: Marked, i: nat)
    requires Tracks(s, m) && i <= |s.occupants|
    requires forall k :: 0 <= k < i ==> m.state.occupants[k].included
    ensures Tracks(s, DismissAll(m, i))
    ensures forall k :: 0 <= k < |s.occupants| ==> DismissAll(m, i).state.occupants[k].included
    decreases |s.occupants| - i
  {
    if i < |s.occupants| {
      var o := m.state.occupants[i].(role := ROLE_NONE, affiliation := NONE);
      ChangeAndMarkTracks(s, m, i, o, None);
      DismissTracks(s, Mark(m.(state := WithOccupant(m.state, i, o)), i, None), i + 1);
    }
  }

  lemma {:induction false} OwnerSetTracks(s: RoomState, aclRole: int, action: OwnerAction)
    requires s.defaultRole != ROLE_NONE && s.maxSize > 0
    ensures Tracks(s, OwnerSet(s, aclRole, action))
    ensures action.Destroy? ==>
              forall k :: 0 <= k < |s.occupants| ==> OwnerSet(s, aclRole, action).state.occupants[k].included
  {
    match action
    case Destroy => DismissTracks(s, Marked(s.(flags := s.flags + {Destroyed}), []), 0);
    case Configure(options) =>
      SetOptionsKeeps(s, aclRole, options);
      PurgeTracks(s, Marked(SetOptions(s, aclRole, options), []), 0);
  }

  // ----- The final loop -----

  /** The final loop announces all changes that are pending. */
  lemma {:induction false} FinishInforms(s: RoomState, affected: seq<nat>, who: Jid, r: Known)
    requires Keyed(s) && Positions(s, affected) && Informed(s, who, r, affected)
    ensures var f := Finish(s, affected); Informed(f.state, who, ReceiveAll(r, s.node, who, f.sent), [])
    decreases |affected|
  {
    if affected != [] {
      var i := affected[0];
      var settled, codes := WithOccupant(s, i, Settled(s.flags, s.occupants[i])), Verdict(s.flags, s.occupants[i]).1;
      SettledInforms(s, affected, settled, who, r);
      var next, left, r' := TurnInforms(settled, affected, codes, who, r);
      FinishInTurn(s, affected, who, r, r', settled, codes, next, left);
      FinishInforms(next, left, who, r');
    }
  }

  lemma {:induction false} SettledInforms(s: RoomState, affected: seq<nat>, settled: RoomState, who: Jid, r: Known)
    requires Keyed(s) && Positions(s, affected) && affected != [] && Informed(s, who, r, affected)
    requires settled == WithOccupant(s, affected[0], Settled(s.flags, s.occupants[affected[0]]))
    ensures Keyed(settled) && Positions(settled, affected) && Informed(settled, who, r, affected)
  {
    SameKeysInformed(s, settled, who, r, affected, affected);
  }

  /** One turn of the loop, from the verdict on: who is left in the room, who is left to be
   *  announced, and what the client knows then. */
  lemma {:induction false} TurnInforms(s: RoomState, affected: seq<nat>, codes: set<Status>, who: Jid, r: Known)
    returns (next: RoomState, left: seq<nat>, r': Known)
    requires Keyed(s) && Positions(s, affected) && affected != [] && codes !! {NicknameChanged, SelfPresence}
    requires Informed(s, who, r, affected)
    ensures var i, rest := affected[0], affected[1..];
            && (s.occupants[i].role == ROLE_NONE ==> next == Leave(s, i) && left == Shifted(rest, i))
            && (s.occupants[i].role != ROLE_NONE ==>
                  next == WithOccupant(s, i, s.occupants[i].(reason := None)) && left == rest)
            && r' == ReceiveAll(r, s.node, who, Broadcast(s, i, None, codes))
    ensures next.node == s.node && |left| < |affected|
    ensures Keyed(next) && Positions(next, left) && Informed(next, who, r', left)
  {
    var i, rest := affected[0], affected[1..];
    r' := ReceiveAll(r, s.node, who, Broadcast(s, i, None, codes));
    if s.occupants[i].role == ROLE_NONE {
      next, left := Leave(s, i), Shifted(rest, i);
      AnnouncedLeaves(s, i, codes, who, r, affected, rest);
      LeaveIsKeyed(s, i);
      PositionsAfterLeave(s, affected, rest, left);
    } else {
      next, left := WithOccupant(s, i, s.occupants[i].(reason := None)), rest;
      AnnouncedStays(s, i, codes, who, r, affected, rest);
      ReasonIsCleared(s, i, next, who, r', rest);
    }
  }

  lemma {:induction false} PositionsAfterLeave(s: RoomState, affected: seq<nat>, rest: seq<nat>, left: seq<nat>)
    requires Positions(s, affected) && affected != [] && rest == affected[1..] && left == Shifted(rest, affected[0])
    ensures Positions(Leave(s, affected[0]), left)
  {
  }

  lemma {:induction false} ReasonIsCleared(s: RoomState, i: nat, t: RoomState, who: Jid, r: Known, rest: seq<nat>)
    requires i < |s.occupants| && t == WithOccupant(s, i, s.occupants[i].(reason := None))
    requires Keyed(s) && Positions(s, rest) && Informed(s, who, r, rest)
    ensures Keyed(t) && Positions(t, rest) && Informed(t, who, r, rest)
  {
    SameKeysInformed(s, t, who, r, rest, rest);
  }

  /** What is received from the loop is what is received from its first turn and then its rest. */
  lemma {:induction false} FinishInTurn(
      s: RoomState, affected: seq<nat>, who: Jid, r: Known, r': Known, settled: RoomState, codes: set<Status>,
      next: RoomState, left: seq<nat>)
    requires Positions(s, affected) && affected != [] && Positions(next, left)
    requires settled == WithOccupant(s, affected[0], Settled(s.flags, s.occupants[affected[0]]))
    requires codes == Verdict(s.flags, s.occupants[affected[0]]).1
    requires r' == ReceiveAll(r, s.node, who, Broadcast(settled, affected[0], None, codes))
    requires var i, rest := affected[0], affected[1..];
             && (settled.occupants[i].role == ROLE_NONE ==> next == Leave(settled, i) && left == Shifted(rest, i))
             && (settled.occupants[i].role != ROLE_NONE ==>
                   next == WithOccupant(settled, i, settled.occupants[i].(reason := None)) && left == rest)
    ensures Finish(s, affected).state == Finish(next, left).state
    ensures ReceiveAll(r, s.node, who, Finish(s, affected).sent) == ReceiveAll(r', s.node, who, Finish(next, left).sent)
  {
    ReceiveInParts(r, s.node, who, Broadcast(settled, affected[0], None, codes), Finish(next, left).sent);
  }

  lemma {:induction false} LeaveIsKeyed(s: RoomState, i: nat)
    requires Keyed(s) && i < |s.occupants|
    ensures Keyed(Leave(s, i))
  {
  }

  // ----- Every step -----

  /** After a step the client `who`, who knew `r` before, is still informed. */
  ghost predicate StepInforms(s: RoomState, after: Outcome, who: Jid, r: Known) {
    Informed(after.state, who, ReceiveAll(r, s.node, who, after.sent), [])
  }

  /** A step that changes neither nicks, affiliations nor roles, and sends no presence. */
  ghost predicate Silent(s: RoomState, after: Outcome) {
    after.state == s && forall i :: 0 <= i < |after.sent| ==> !after.sent[i].Presence?
  }

  lemma {:induction false} SilentStepInforms(s: RoomState, after: Outcome, who: Jid, r: Known)
    requires Silent(s, after) && Informed(s, who, r, [])
    ensures StepInforms(s, after, who, r)
  {
    UnrelatedPackets(r, s.node, who, after.sent);
  }

  /** The occupant at `i` loses its role, is announced and leaves. */
  lemma {:induction false} RemovalInforms(s: RoomState, i: nat, o: Occupant, who: Jid, r: Known)
    requires i < |s.occupants| && Keyed(s) && Informed(s, who, r, [])
    requires o.nick == s.occupants[i].nick && o.jid == s.occupants[i].jid && o.role == ROLE_NONE
    requires o.included == s.occupants[i].included
    ensures var without := WithOccupant(s, i, o);
            StepInforms(s, Outcome(Leave(without, i), Broadcast(without, i, None, {})), who, r)
  {
    var without := WithOccupant(s, i, o);
    var pending := if o.included then [] else [i];
    SameKeysInformed(s, without, who, r, [], pending);
    AnnouncedLeaves(without, i, {}, who, r, pending, []);
    assert Shifted([], i) == [];
  }

  lemma {:induction false} RouteErrorInforms(s: RoomState, from: Jid, who: Jid, r: Known)
    requires Keyed(s) && Informed(s, who, r, [])
    ensures StepInforms(s, RouteError(s, from), who, r)
  {
    var i := FindByJid(s.occupants, from);
    if i < |s.occupants| {
      RemovalInforms(s, i, s.occupants[i].(presence := Some(ERROR_NOTICE), role := ROLE_NONE), who, r);
    }
  }

  lemma {:induction false} DepartInforms(s: RoomState, i: nat, inner: Option<string>, who: Jid, r: Known)
    requires i < |s.occupants| && Keyed(s) && Informed(s, who, r, [])
    ensures StepInforms(s, Depart(s, i, inner), who, r)
  {
    var shown := ShowPresence(s, i, inner);
    var o := shown.occupants[i].(role := ROLE_NONE);
    assert WithOccupant(shown, i, o) == WithOccupant(s, i, o);
    RemovalInforms(s, i, o, who, r);
    var left := Leave(WithOccupant(s, i, o), i);
    SameKeysInformed(left, ClearJustCreated(left), who,
                     ReceiveAll(r, s.node, who, Broadcast(WithOccupant(s, i, o), i, None, {})), [], []);
  }

  /** The subject is no presence. */
  lemma {:induction false} AnnounceTeaches(
      s: RoomState, i: nat, inner: Option<string>, justJoined: bool, who: Jid, r: Known)
    requires i < |s.occupants|
    ensures ReceiveAll(r, s.node, who, Announce(s, i, inner, justJoined).sent) ==
            ReceiveAll(r, s.node, who, Broadcast(ShowPresence(s, i, inner), i, None, {}))
  {
    var shown := ShowPresence(s, i, inner);
    var sent := Broadcast(shown, i, None, {});
    var subject := if justJoined then SubjectFor(shown, i) else [];
    ReceiveInParts(r, s.node, who, sent, subject);
    UnrelatedPackets(ReceiveAll(r, s.node, who, sent), s.node, who, subject);
  }

  /** Once the broadcast has been received, caching the presence changes nothing. */
  lemma {:induction false} AnnounceInforms(
      s: RoomState, i: nat, inner: Option<string>, justJoined: bool, who: Jid, r: Known)
    requires i < |s.occupants|
    requires Informed(ShowPresence(s, i, inner), who,
                      ReceiveAll(r, s.node, who, Broadcast(ShowPresence(s, i, inner), i, None, {})), [])
    ensures StepInforms(s, Announce(s, i, inner, justJoined), who, r)
  {
    var shown := ShowPresence(s, i, inner);
    AnnounceTeaches(s, i, inner, justJoined, who, r);
    SameKeysInformed(shown, Announce(s, i, inner, justJoined).state, who,
                     ReceiveAll(r, s.node, who, Broadcast(shown, i, None, {})), [], []);
  }

  lemma {:induction false} UpdateInforms(s: RoomState, i: nat, inner: Option<string>, who: Jid, r: Known)
    requires i < |s.occupants| && Keyed(s) && Informed(s, who, r, [])
    requires s.occupants[i].role != ROLE_NONE || s.occupants[i].included
    ensures StepInforms(s, Announce(s, i, inner, false), who, r)
  {
    var shown := ShowPresence(s, i, inner);
    SameKeysInformed(s, shown, who, r, [], []);
    AnnouncedStays(shown, i, {}, who, r, [], []);
    AnnounceInforms(s, i, inner, false, who, r);
  }

  lemma {:induction false} ChangeOfNickInforms(
      s: RoomState, i: nat, nick: string, inner: Option<string>, who: Jid, r: Known)
    requires i < |s.occupants| && Keyed(s) && Informed(s, who, r, [])
    requires s.occupants[i].role != ROLE_NONE || s.occupants[i].included
    requires FindByNick(s.occupants, nick) == |s.occupants|
    ensures var renamed := WithOccupant(s, i, s.occupants[i].(nick := nick));
            var after := Announce(renamed, i, inner, false);
            StepInforms(s, Outcome(after.state, Broadcast(s, i, Some(nick), {NicknameChanged}) + after.sent), who, r)
  {
    var renamed := WithOccupant(s, i, s.occupants[i].(nick := nick));
    var farewell := Broadcast(s, i, Some(nick), {NicknameChanged});
    RenameInforms(s, i, nick, ShowPresence(renamed, i, inner), who, r);
    AnnounceInforms(renamed, i, inner, false, who, ReceiveAll(r, s.node, who, farewell));
    ReceiveInParts(r, s.node, who, farewell, Announce(renamed, i, inner, false).sent);
  }

  /** An occupant that should have lost its place to an aborted set may still be heard. */
  lemma {:induction false} InsideInforms(s: RoomState, acl: Acl, i: nat, st: Stanza, who: Jid, r: Known)
    requires st.PresenceIn? && i < |s.occupants|
    requires Inv(s, acl) && Informed(s, who, r, [])
    ensures StepInforms(s, RoutePresenceInside(s, i, st), who, r)
  {
    assert s.occupants[i].role != ROLE_NONE || s.occupants[i].included;
    if st.gone {
      DepartInforms(s, i, st.inner, who, r);
    } else if st.nick.None? || FindByNick(s.occupants, st.nick.value) == i {
      UpdateInforms(s, i, st.inner, who, r);
    } else if FindByNick(s.occupants, st.nick.value) < |s.occupants|
           || (s.occupants[i].role <= VISITOR && VisitorPresence !in s.flags) {
      SilentStepInforms(s, RoutePresenceInside(s, i, st), who, r);
    } else {
      ChangeOfNickInforms(s, i, st.nick.value, st.inner, who, r);
    }
  }

  lemma {:induction false} JoinInforms(
      s: RoomState, jid: Jid, nick: string, affiliation: Affiliation, inner: Option<string>, who: Jid, r: Known)
    requires Informed(s, who, r, []) && s.defaultRole != ROLE_NONE && Keyed(Join(s, jid, nick, affiliation))
    ensures var joined := Join(s, jid, nick, affiliation);
            var after := Announce(joined, 0, inner, true);
            StepInforms(s, Outcome(after.state, Introductions(joined, 0, |joined.occupants|) + after.sent), who, r)
  {
    var joined := Join(s, jid, nick, affiliation);
    var introductions := Introductions(joined, 0, |joined.occupants|);
    var shown := ShowPresence(joined, 0, inner);
    JoinIntroduces(s, jid, nick, affiliation, who, r);
    var met := ReceiveAll(r, s.node, who, introductions);
    IntroducedAlike(joined, shown, who, met);
    ShownIsKeyed(joined, 0, inner);
    FirstAnnouncement(shown, who, met);
    AnnounceInforms(joined, 0, inner, true, who, met);
    ReceiveInParts(r, s.node, who, introductions, Announce(joined, 0, inner, true).sent);
  }

  lemma {:induction false} ShownIsKeyed(s: RoomState, i: nat, inner: Option<string>)
    requires i < |s.occupants| && Keyed(s)
    ensures Keyed(ShowPresence(s, i, inner))
  {
  }

  lemma {:induction false} IntroducedAlike(s: RoomState, t: RoomState, who: Jid, r: Known)
    requires AllButFirst(s, who, r) && SameKeys(s, t) && 0 < |s.occupants|
    requires t.occupants[0].included == s.occupants[0].included
    requires forall k :: 0 < k < |s.occupants| ==> t.occupants[k] == s.occupants[k]
    ensures AllButFirst(t, who, r)
  {
    SamePlace(s, t, who);
    SameNicks(s, t);
  }

  lemma {:induction false} EntryInforms(s: RoomState, acl: Acl, st: Stanza, who: Jid, r: Known, founded: RoomState)
    requires st.PresenceIn? && st.nick.Some? && founded == Founded(s, st.from)
    requires FindByJid(s.occupants, st.from) == FindByNick(s.occupants, st.nick.value) == |s.occupants|
    requires Inv(s, acl) && Informed(founded, who, r, [])
    ensures var joined := Join(founded, st.from, st.nick.value, GetByJid(founded.lists, acl, st.from));
            var after := Announce(joined, 0, st.inner, true);
            StepInforms(founded, Outcome(after.state, Introductions(joined, 0, |joined.occupants|) + after.sent),
                        who, r)
  {
    NewcomerIsNew(s, st.from);
    JoinInforms(founded, st.from, st.nick.value, GetByJid(founded.lists, acl, st.from), st.inner, who, r);
  }

  lemma {:induction false} EntryOutcome(s: RoomState, acl: Acl, st: Stanza, founded: RoomState)
    requires st.PresenceIn? && !st.gone && st.nick.Some? && founded == Founded(s, st.from)
    requires FindByNick(s.occupants, st.nick.value) == |s.occupants| && EntryError(founded, acl, st).None?
    ensures var joined := Join(founded, st.from, st.nick.value, GetByJid(founded.lists, acl, st.from));
            var after := Announce(joined, 0, st.inner, true);
            RoutePresenceOutside(s, acl, st) ==
            Outcome(after.state, Introductions(joined, 0, |joined.occupants|) + after.sent)
  {
  }

  /** A presence that lets nobody in changes no occupant and sends no presence. */
  lemma {:induction false} NoEntryInforms(s: RoomState, acl: Acl, st: Stanza, who: Jid, r: Known, founded: RoomState)
    requires st.PresenceIn? && founded == Founded(s, st.from)
    requires !st.gone && st.nick.Some? && FindByNick(s.occupants, st.nick.value) == |s.occupants| ==>
               EntryError(founded, acl, st).Some?
    requires Informed(s, who, r, []) && Informed(founded, who, r, [])
    ensures StepInforms(s, RoutePresenceOutside(s, acl, st), who, r)
  {
    var after := RoutePresenceOutside(s, acl, st);
    if after.state == s {
      SilentStepInforms(s, after, who, r);
    } else {
      SilentStepInforms(founded, after, who, r);
    }
  }

  lemma {:induction false} OutsideInforms(s: RoomState, acl: Acl, st: Stanza, who: Jid, r: Known)
    requires st.PresenceIn? && FindByJid(s.occupants, st.from) == |s.occupants|
    requires Inv(s, acl) && Informed(s, who, r, [])
    ensures StepInforms(s, RoutePresenceOutside(s, acl, st), who, r)
  {
    var founded := Founded(s, st.from);
    SameKeysInformed(s, founded, who, r, [], []);
    if !st.gone && st.nick.Some? && FindByNick(s.occupants, st.nick.value) == |s.occupants|
       && EntryError(founded, acl, st).None? {
      EntryInforms(s, acl, st, who, r, founded);
      EntryOutcome(s, acl, st, founded);
      assert founded.node == s.node;
    } else {
      NoEntryInforms(s, acl, st, who, r, founded);
    }
  }

  // ----- IQ stanzas -----

  /** A set that is bounced, midway or not, tells nobody anything. */
  lemma {:induction false} RefusedInforms(
      s: RoomState, m: Marked, to: Jid, error: Error, after: Outcome, who: Jid, r: Known)
    requires Informed(s, who, r, []) && Tracks(s, m) && after == Bounced(m.state, to, error)
    ensures StepInforms(s, after, who, r)
  {
    SameKeysInformed(s, m.state, who, r, [], []);
    SilentStepInforms(m.state, after, who, r);
  }

  lemma {:induction false} AcceptedInforms(
      s: RoomState, m: Marked, to: Jid, reply: Reply, after: Outcome, who: Jid, r: Known)
    requires Keyed(s) && Informed(s, who, r, []) && Tracks(s, m)
    requires var f := Finish(m.state, m.affected);
             after == Outcome(f.state, [IqResult(to, reply)] + f.sent)
    ensures StepInforms(s, after, who, r)
  {
    SameKeysInformed(s, m.state, who, r, [], m.affected);
    FinishInforms(m.state, m.affected, who, r);
    ResultTeachesNothing(s.node, to, reply, Finish(m.state, m.affected).sent, who, r);
  }

  lemma {:induction false} ResultTeachesNothing(
      node: string, to: Jid, reply: Reply, sent: seq<Packet>, who: Jid, r: Known)
    ensures ReceiveAll(r, node, who, [IqResult(to, reply)] + sent) == ReceiveAll(r, node, who, sent)
  {
    ReceiveInParts(r, node, who, [IqResult(to, reply)], sent);
    UnrelatedPackets(r, node, who, [IqResult(to, reply)]);
  }

  lemma {:induction false} AdminSetInforms(s: RoomState, acl: Acl, st: Stanza, after: Outcome, who: Jid, r: Known)
    requires st.Iq? && st.nick.None? && st.kind == Set && st.query.Admin? && st.query.items.Some?
    requires FindByJid(s.occupants, st.from) < |s.occupants|
    requires s.occupants[FindByJid(s.occupants, st.from)].role >= MODERATOR
    requires Inv(s, acl) && Informed(s, who, r, [])
    requires after == RouteIqToRoom(s, acl, FindByJid(s.occupants, st.from), st)
    ensures StepInforms(s, after, who, r)
  {
    var sender := FindByJid(s.occupants, st.from);
    var result := ApplyItems(Marked(s, []), acl, sender, st.query.items.value);
    ApplyItemsTracks(s, Marked(s, []), acl, sender, st.query.items.value);
    if result.error.Some? {
      RefusedInforms(s, result.marked, st.from, result.error.value, after, who, r);
    } else {
      AcceptedInforms(s, result.marked, st.from, AffiliationItems(OUTCAST, []), after, who, r);
    }
  }

  lemma {:induction false} OwnerSetInforms(s: RoomState, acl: Acl, st: Stanza, after: Outcome, who: Jid, r: Known)
    requires st.Iq? && st.kind == Set && st.query.Owner?
    requires Inv(s, acl) && Informed(s, who, r, [])
    requires after == RouteIqToRoom(s, acl, FindByJid(s.occupants, st.from), st)
    ensures StepInforms(s, after, who, r)
  {
    var sender := FindByJid(s.occupants, st.from);
    match SetQuery(s, acl, sender, st)
    case Refuse(state, _) =>
      SilentStepInforms(s, after, who, r);
    case Accept(marked, reply) =>
      OwnerSetTracks(s, AclRole(acl, s.occupants[sender].jid), st.query.action.value.value);
      AcceptedInforms(s, marked, st.from, reply, after, who, r);
  }

  /** Proxied queries, gets, and sets refused at the door send at most one packet, no presence. */
  lemma {:induction false} QuietIq(s: RoomState, acl: Acl, sender: nat, st: Stanza)
    requires st.Iq? && sender == FindByJid(s.occupants, st.from)
    ensures st.nick.Some? ==> Silent(s, RouteIqToOccupant(s, sender, st))
    ensures st.kind != Set || st.query.NoQuery? ==> Silent(s, RouteIqToRoom(s, acl, sender, st))
  {
    assert Silent(s, RouteGet(s, sender, st));
  }

  lemma {:induction false} RefusedAtTheDoor(s: RoomState, acl: Acl, sender: nat, st: Stanza)
    requires st.Iq? && sender == FindByJid(s.occupants, st.from) && st.kind == Set && !st.query.Owner?
    requires st.query.Admin? ==>
               st.query.items.None? || sender == |s.occupants| || s.occupants[sender].role < MODERATOR
    ensures Silent(s, RouteIqToRoom(s, acl, sender, st))
  {
    assert SetQuery(s, acl, sender, st).Refuse? && SetQuery(s, acl, sender, st).state == s;
  }

  lemma {:induction false} RouteIqInforms(s: RoomState, acl: Acl, st: Stanza, who: Jid, r: Known)
    requires st.Iq? && Inv(s, acl) && Informed(s, who, r, [])
    ensures StepInforms(s, RouteIq(s, acl, st), who, r)
  {
    var sender := FindByJid(s.occupants, st.from);
    QuietIq(s, acl, sender, st);
    if st.nick.Some? || st.kind != Set || st.query.NoQuery? {
      SilentStepInforms(s, RouteIq(s, acl, st), who, r);
    } else if st.query.Owner? {
      OwnerSetInforms(s, acl, st, RouteIqToRoom(s, acl, sender, st), who, r);
    } else if st.query.Admin? && st.query.items.Some?
           && sender < |s.occupants| && s.occupants[sender].role >= MODERATOR {
      AdminSetInforms(s, acl, st, RouteIqToRoom(s, acl, sender, st), who, r);
    } else {
      RefusedAtTheDoor(s, acl, sender, st);
      SilentStepInforms(s, RouteIqToRoom(s, acl, sender, st), who, r);
    }
  }

  /** Every step, also one that aborts an admin set: whoever has no mark knows all the others
   *  who have none, nobody knows a nick that is not in the room, and whoever is not in the
   *  room knows nothing of it. */
  lemma {:induction false} RouteInforms(s: RoomState, acl: Acl, st: Stanza, who: Jid, r: Known)
    requires Inv(s, acl) && Informed(s, who, r, [])
    ensures StepInforms(s, Route(s, acl, st), who, r)
  {
    match st
    case ErrorStanza(from) => RouteErrorInforms(s, from, who, r);
    case PresenceIn(_, _, _, _, _) =>
      var i := FindByJid(s.occupants, st.from);
      if i < |s.occupants| {
        InsideInforms(s, acl, i, st, who, r);
      } else {
        OutsideInforms(s, acl, st, who, r);
      }
    case Iq(_, _, _, _, _) => RouteIqInforms(s, acl, st, who, r);
  }

  // ----- Rest -----

  /** Between stanzas: nobody is marked, and a destroyed room is empty. */
  ghost predicate AtRest(s: RoomState) {
    && Quiet(s)
    && (Destroyed in s.flags ==> s.occupants == [])
  }

  /** Before the final loop: pending occupants are the marked ones, and in a destroyed
   *  room everybody is. */
  ghost predicate Pending(s: RoomState, affected: seq<nat>) {
    && Positions(s, affected)
    && (forall k :: 0 <= k < |s.occupants| && s.occupants[k].included ==> k in affected)
    && (Destroyed in s.flags ==> forall k :: 0 <= k < |s.occupants| ==> k in affected)
  }

  lemma {:induction false} PendingAfterLeave(s: RoomState, affected: seq<nat>)
    requires Pending(s, affected) && affected != []
    ensures Pending(Leave(s, affected[0]), Shifted(affected[1..], affected[0]))
  {
    var i, rest := affected[0], affected[1..];
    var after := Leave(s, i);
    forall j | 0 <= j < |after.occupants| && (after.occupants[j].included || Destroyed in s.flags)
      ensures j in Shifted(rest, i)
    {
      var k := if j < i then j else j + 1;
      assert after.occupants[j] == s.occupants[k] && k in affected && affected == [i] + rest;
      ShiftedBack(rest, i, j);
    }
  }

  /** The final loop ends quiet and empties a destroyed room. */
  lemma {:induction false} FinishRests(s: RoomState, affected: seq<nat>)
    requires Pending(s, affected)
    ensures AtRest(Finish(s, affected).state)
    decreases |affected|
  {
    assert Destroyed in s.flags && s.occupants != [] ==> 0 in affected;
    if affected != [] {
      var i, rest := affected[0], affected[1..];
      var settled := WithOccupant(s, i, Settled(s.flags, s.occupants[i]));
      assert Pending(settled, affected);
      if settled.occupants[i].role == ROLE_NONE {
        PendingAfterLeave(settled, affected);
        FinishRests(Leave(settled, i), Shifted(rest, i));
      } else {
        FinishRests(WithOccupant(settled, i, settled.occupants[i].(reason := None)), rest);
      }
    }
  }

  lemma {:induction false} LeaveIsQuiet(s: RoomState, i: nat)
    requires i < |s.occupants| && Quiet(s)
    ensures Quiet(Leave(s, i))
  {
    var left := Leave(s, i);
    forall k | 0 <= k < |left.occupants|
      ensures !left.occupants[k].included
    {
      assert left.occupants[k] == s.occupants[if k < i then k else k + 1];
    }
  }

  lemma {:induction false} RemovalRests(s: RoomState, i: nat, o: Occupant)
    requires i < |s.occupants| && Quiet(s) && Destroyed !in s.flags && !o.included
    ensures AtRest(Leave(WithOccupant(s, i, o), i))
  {
    LeaveIsQuiet(WithOccupant(s, i, o), i);
  }

  lemma {:induction false} DepartRests(s: RoomState, i: nat, inner: Option<string>)
    requires i < |s.occupants| && Quiet(s) && Destroyed !in s.flags
    ensures AtRest(Depart(s, i, inner).state)
  {
    var shown := ShowPresence(s, i, inner);
    RemovalRests(shown, i, shown.occupants[i].(role := ROLE_NONE));
  }

  lemma {:induction false} InsideRests(s: RoomState, i: nat, st: Stanza)
    requires st.PresenceIn? && i < |s.occupants| && Quiet(s) && Destroyed !in s.flags
    ensures AtRest(RoutePresenceInside(s, i, st).state)
  {
    if st.gone {
      DepartRests(s, i, st.inner);
    }
  }

  lemma {:induction false} OutsideRests(s: RoomState, acl: Acl, st: Stanza)
    requires st.PresenceIn? && Quiet(s) && Destroyed !in s.flags
    ensures AtRest(RoutePresenceOutside(s, acl, st).state)
  {
  }

  lemma {:induction false} ErrorRests(s: RoomState, from: Jid)
    requires AtRest(s) && Destroyed !in s.flags
    ensures AtRest(RouteError(s, from).state)
  {
    var i := FindByJid(s.occupants, from);
    if i < |s.occupants| {
      RemovalRests(s, i, s.occupants[i].(presence := Some(ERROR_NOTICE), role := ROLE_NONE));
    }
  }

  lemma {:induction false} RecomputeKeepsFlags(m: Marked, acl: Acl, i: nat, reason: Option<string>)
    requires m.Valid() && i <= |m.state.occupants|
    ensures Recompute(m, acl, i, reason).state.flags == m.state.flags
    ensures Recompute(m, acl, i, reason).state.lists == m.state.lists
    decreases |m.state.occupants| - i
  {
    if i < |m.state.occupants| {
      RecomputeKeepsFlags(RecomputeOne(m, acl, i, reason), acl, i + 1, reason);
    }
  }

  lemma {:induction false} ApplyItemsKeepFlags(m: Marked, acl: Acl, sender: nat, items: seq<Item>)
    requires m.Valid() && sender < |m.state.occupants|
    ensures ApplyItems(m, acl, sender, items).marked.state.flags == m.state.flags
    decreases |items|
  {
    if items != [] {
      var item := items[0];
      if WellFormedItem(item) && item.affiliation.Some? {
        var moved := m.state.(lists := Moved(m.state.lists, item.affiliation.value, item.jid.value, item.reason));
        RecomputeKeepsFlags(m.(state := moved), acl, 0, item.reason);
      }
      ApplyItemsKeepFlags(ApplyItem(m, acl, sender, item).marked, acl, sender, items[1..]);
    }
  }

  lemma {:induction false} PurgeKeepsFlags(m: Marked, i: nat)
    requires m.Valid() && i <= |m.state.occupants|
    ensures PurgeNonMembers(m, i).state.flags == m.state.flags
    decreases |m.state.occupants| - i
  {
    if i < |m.state.occupants| {
      var o := m.state.occupants[i];
      if o.affiliation < MEMBER {
        var purged := WithOccupant(m.state, i, o.(role := ROLE_NONE));
        PurgeKeepsFlags(Mark(m.(state := purged), i, Some(MEMBERS_ONLY_REASON)), i + 1);
      } else {
        PurgeKeepsFlags(m, i + 1);
      }
    }
  }

  lemma {:induction false} AdminSetPends(s: RoomState, acl: Acl, sender: nat, items: seq<Item>)
    requires Quiet(s) && sender < |s.occupants| && Destroyed !in s.flags
    ensures var m := ApplyItems(Marked(s, []), acl, sender, items).marked;
            Tracks(s, m) && Pending(m.state, m.affected) && m.state.flags == s.flags
  {
    ApplyItemsTracks(s, Marked(s, []), acl, sender, items);
    ApplyItemsKeepFlags(Marked(s, []), acl, sender, items);
  }

  lemma {:induction false} OwnerSetPends(s: RoomState, aclRole: int, action: OwnerAction)
    requires Quiet(s) && s.defaultRole != ROLE_NONE && s.maxSize > 0 && Destroyed !in s.flags
    ensures var m := OwnerSet(s, aclRole, action);
            Tracks(s, m) && Pending(m.state, m.affected)
  {
    OwnerSetTracks(s, aclRole, action);
    if action.Configure? {
      SetOptionsKeeps(s, aclRole, action.options);
      PurgeKeepsFlags(Marked(SetOptions(s, aclRole, action.options), []), 0);
    }
  }

  lemma {:induction false} AdminSetRests(s: RoomState, acl: Acl, st: Stanza, sender: nat)
    requires st.Iq? && st.nick.None? && st.kind == Set && st.query.Admin? && !BouncedMidway(s, acl, st)
    requires sender == FindByJid(s.occupants, st.from) && AtRest(s) && Destroyed !in s.flags
    ensures AtRest(RouteIqToRoom(s, acl, sender, st).state)
  {
    if st.query.items.Some? && sender < |s.occupants| && s.occupants[sender].role >= MODERATOR {
      var result := ApplyItems(Marked(s, []), acl, sender, st.query.items.value);
      AdminSetPends(s, acl, sender, st.query.items.value);
      if result.error.None? {
        FinishRests(result.marked.state, result.marked.affected);
      }
    }
  }

  lemma {:induction false} OwnerSetRests(s: RoomState, acl: Acl, st: Stanza, sender: nat)
    requires st.Iq? && st.kind == Set && st.query.Owner? && sender <= |s.occupants|
    requires Inv(s, acl) && AtRest(s) && Destroyed !in s.flags
    ensures AtRest(RouteIqToRoom(s, acl, sender, st).state)
  {
    match SetQuery(s, acl, sender, st)
    case Refuse(_, _) =>
    case Accept(marked, _) =>
      OwnerSetPends(s, AclRole(acl, s.occupants[sender].jid), st.query.action.value.value);
      FinishRests(marked.state, marked.affected);
  }

  lemma {:induction false} RouteIqRests(s: RoomState, acl: Acl, st: Stanza)
    requires st.Iq? && !BouncedMidway(s, acl, st) && Inv(s, acl) && AtRest(s) && Destroyed !in s.flags
    ensures AtRest(RouteIq(s, acl, st).state)
  {
    var sender := FindByJid(s.occupants, st.from);
    QuietIq(s, acl, sender, st);
    if st.nick.None? && st.kind == Set && !st.query.NoQuery? {
      if st.query.Owner? {
        OwnerSetRests(s, acl, st, sender);
      } else if st.query.Admin? {
        AdminSetRests(s, acl, st, sender);
      } else {
        RefusedAtTheDoor(s, acl, sender, st);
      }
    }
  }

  /** Every step but an admin set bounced midway leaves no mark behind. */
  lemma {:induction false} RouteRests(s: RoomState, acl: Acl, st: Stanza)
    requires Inv(s, acl) && AtRest(s) && Destroyed !in s.flags && !BouncedMidway(s, acl, st)
    ensures AtRest(Route(s, acl, st).state)
  {
    match st
    case ErrorStanza(from) => ErrorRests(s, from);
    case PresenceIn(_, _, _, _, _) =>
      var i := FindByJid(s.occupants, st.from);
      if i < |s.occupants| {
        InsideRests(s, i, st);
      } else {
        OutsideRests(s, acl, st);
      }
    case Iq(_, _, _, _, _) => RouteIqRests(s, acl, st);
  }

  /** So roster agreement is kept by every step but an admin set bounced midway. */
  lemma {:induction false} RouteSyncs(s: RoomState, acl: Acl, st: Stanza, who: Jid, r: Known)
    requires Inv(s, acl) && AtRest(s) && Synced(s, who, r) && Destroyed !in s.flags
    requires !BouncedMidway(s, acl, st)
    ensures var after := Route(s, acl, st);
            AtRest(after.state) && Synced(after.state, who, ReceiveAll(r, s.node, who, after.sent))
  {
    var after := Route(s, acl, st);
    QuietlyInformed(s, who, r);
    RouteInforms(s, acl, st, who, r);
    RouteRests(s, acl, st);
    QuietlyInformed(after.state, who, ReceiveAll(r, s.node, who, after.sent));
  }

  // ----- Destroyed over marks -----

  /** The owner destroys a room in which an aborted set left somebody with a mark. */
  ghost predicate DestroysOverMarks(s: RoomState, st: Stanza) {
    && st.Iq? && st.nick.None? && st.kind == Set && st.query == Owner(Some(Some(Destroy)))
    && var sender := FindByJid(s.occupants, st.from);
       sender < |s.occupants| && s.occupants[sender].affiliation >= OWNER && !Quiet(s)
  }

  predicate EmptyIfDestroyed(s: RoomState) {
    Destroyed in s.flags ==> s.occupants == []
  }

  lemma {:induction false} FinishEmpties(s: RoomState, affected: seq<nat>)
    requires Positions(s, affected) && EmptyIfDestroyed(s)
    ensures EmptyIfDestroyed(Finish(s, affected).state)
    decreases |affected|
  {
    if affected != [] {
      var i, rest := affected[0], affected[1..];
      var settled := WithOccupant(s, i, Settled(s.flags, s.occupants[i]));
      if settled.occupants[i].role == ROLE_NONE {
        FinishEmpties(Leave(settled, i), Shifted(rest, i));
      } else {
        FinishEmpties(WithOccupant(settled, i, settled.occupants[i].(reason := None)), rest);
      }
    }
  }

  lemma {:induction false} DismissKeepsFlags(m: Marked, i: nat)
    requires m.Valid() && i <= |m.state.occupants|
    ensures DismissAll(m, i).state.flags == m.state.flags
    decreases |m.state.occupants| - i
  {
    if i < |m.state.occupants| {
      var o := m.state.occupants[i].(role := ROLE_NONE, affiliation := NONE);
      DismissKeepsFlags(Mark(m.(state := WithOccupant(m.state, i, o)), i, None), i + 1);
    }
  }

  /** Whoever is not on the list of the final loop stays, and its client keeps its nick. */
  lemma {:induction false} FinishSpares(s: RoomState, affected: seq<nat>, k: nat, who: Jid, r: Known)
    requires Keyed(s) && Positions(s, affected) && k < |s.occupants| && k !in affected
    requires Canonical(s.occupants[k].jid) == who && s.occupants[k].nick in r
    ensures var f := Finish(s, affected);
            && f.state.occupants != [] && (Destroyed in s.flags ==> Destroyed in f.state.flags)
            && s.occupants[k].nick in ReceiveAll(r, s.node, who, f.sent)
    decreases |affected|
  {
    if affected != [] {
      var i := affected[0];
      var settled, codes := WithOccupant(s, i, Settled(s.flags, s.occupants[i])), Verdict(s.flags, s.occupants[i]).1;
      var r' := ReceiveAll(r, s.node, who, Broadcast(settled, i, None, codes));
      SettledAlike(s, affected, settled);
      assert i in affected && codes !! {NicknameChanged, SelfPresence};
      var next, left, at := TurnSpares(settled, affected, k);
      FinishInTurn(s, affected, who, r, r', settled, codes, next, left);
      NickStaysKnown(settled, i, codes, k, r);
      FinishSpares(next, left, at, who, r');
    }
  }

  lemma {:induction false} SettledAlike(s: RoomState, affected: seq<nat>, settled: RoomState)
    requires Keyed(s) && Positions(s, affected) && affected != []
    requires settled == WithOccupant(s, affected[0], Settled(s.flags, s.occupants[affected[0]]))
    ensures Keyed(settled) && Positions(settled, affected) && settled.node == s.node && settled.flags == s.flags
    ensures forall k :: 0 <= k < |s.occupants| && k !in affected ==> settled.occupants[k] == s.occupants[k]
  {
    assert affected[0] in affected;
  }

  lemma {:induction false} TurnSpares(s: RoomState, affected: seq<nat>, k: nat)
    returns (next: RoomState, left: seq<nat>, at: nat)
    requires Keyed(s) && Positions(s, affected) && affected != [] && k < |s.occupants| && k !in affected
    ensures var i, rest := affected[0], affected[1..];
            && (s.occupants[i].role == ROLE_NONE ==> next == Leave(s, i) && left == Shifted(rest, i))
            && (s.occupants[i].role != ROLE_NONE ==>
                  next == WithOccupant(s, i, s.occupants[i].(reason := None)) && left == rest)
    ensures next.node == s.node && |left| < |affected| && Keyed(next) && Positions(next, left)
    ensures at < |next.occupants| && at !in left && next.occupants[at] == s.occupants[k]
    ensures Destroyed in s.flags ==> Destroyed in next.flags
  {
    var i, rest := affected[0], affected[1..];
    if s.occupants[i].role == ROLE_NONE {
      next, left, at := Leave(s, i), Shifted(rest, i), if k < i then k else k - 1;
      PositionsAfterLeave(s, affected, rest, left);
      ShiftedBack(rest, i, at);
      LeaveIsKeyed(s, i);
    } else {
      next, left, at := WithOccupant(s, i, s.occupants[i].(reason := None)), rest, k;
    }
  }

  lemma {:induction false} NickStaysKnown(s: RoomState, i: nat, codes: set<Status>, k: nat, r: Known)
    requires Keyed(s) && i < |s.occupants| && codes !! {NicknameChanged, SelfPresence}
    requires k < |s.occupants| && k != i && s.occupants[k].nick in r
    ensures s.occupants[k].nick in ReceiveAll(r, s.node, Canonical(s.occupants[k].jid), Broadcast(s, i, None, codes))
  {
    var who := Canonical(s.occupants[k].jid);
    BroadcastTeaches(s, i, None, codes, who, r);
    OneOfEach(s, who);
    assert Place(s.occupants, who) == k;
  }

  /** The destruction of a room passes over everybody with a mark: its client is not told. */
  lemma {:induction false} MarksOutlastTheRoom(s: RoomState, acl: Acl, st: Stanza, k: nat, r: Known, after: Outcome)
    requires Inv(s, acl) && DestroysOverMarks(s, st) && after == Route(s, acl, st)
    requires k < |s.occupants| && s.occupants[k].included && s.occupants[k].nick in r
    ensures Destroyed in after.state.flags && after.state.occupants != []
    ensures s.occupants[k].nick in ReceiveAll(r, s.node, Canonical(s.occupants[k].jid), after.sent)
  {
    var who := Canonical(s.occupants[k].jid);
    var m := DismissAll(Marked(s.(flags := s.flags + {Destroyed}), []), 0);
    DestructionDismisses(s, acl, st, after, m);
    DismissTracks(s, Marked(s.(flags := s.flags + {Destroyed}), []), 0);
    DismissKeepsFlags(Marked(s.(flags := s.flags + {Destroyed}), []), 0);
    FinishSpares(m.state, m.affected, k, who, r);
    ResultTeachesNothing(s.node, st.from, Empty, Finish(m.state, m.affected).sent, who, r);
  }

  lemma {:induction false} DestructionDismisses(s: RoomState, acl: Acl, st: Stanza, after: Outcome, m: Marked)
    requires DestroysOverMarks(s, st) && after == Route(s, acl, st)
    requires m == DismissAll(Marked(s.(flags := s.flags + {Destroyed}), []), 0)
    ensures var f := Finish(m.state, m.affected);
            after == Outcome(f.state, [IqResult(st.from, Empty)] + f.sent)
  {
  }

  /** A room that is destroyed is empty, unless it is destroyed over a mark. */
  lemma {:induction false} EmptyIfDestroyedIff(s: RoomState, acl: Acl, st: Stanza)
    requires Inv(s, acl) && Destroyed !in s.flags
    ensures EmptyIfDestroyed(Route(s, acl, st).state) <==> !DestroysOverMarks(s, st)
  {
    if DestroysOverMarks(s, st) {
      var k :| 0 <= k < |s.occupants| && s.occupants[k].included;
      var o := s.occupants[k];
      MarksOutlastTheRoom(s, acl, st, k, map[o.nick := Seen(o.affiliation, o.role)], Route(s, acl, st));
    } else if st.Iq? {
      IqEmpties(s, acl, st);
    } else {
      PresenceEmpties(s, acl, st);
    }
  }

  lemma {:induction false} PresenceEmpties(s: RoomState, acl: Acl, st: Stanza)
    requires !st.Iq? && Destroyed !in s.flags
    ensures EmptyIfDestroyed(Route(s, acl, st).state)
  {
  }

  lemma {:induction false} IqEmpties(s: RoomState, acl: Acl, st: Stanza)
    requires st.Iq? && Inv(s, acl) && Destroyed !in s.flags && !DestroysOverMarks(s, st)
    ensures EmptyIfDestroyed(RouteIq(s, acl, st).state)
  {
    var sender := FindByJid(s.occupants, st.from);
    QuietIq(s, acl, sender, st);
    if st.nick.None? && st.kind == Set && !st.query.NoQuery? {
      match st.query
      case Admin(items) => AdminSetEmpties(s, acl, sender, st);
      case Owner(action) => OwnerSetEmpties(s, acl, sender, st);
      case _ => RefusedAtTheDoor(s, acl, sender, st);
    }
  }

  lemma {:induction false} AdminSetEmpties(s: RoomState, acl: Acl, sender: nat, st: Stanza)
    requires st.Iq? && st.kind == Set && st.query.Admin? && sender <= |s.occupants| && Destroyed !in s.flags
    ensures EmptyIfDestroyed(RouteIqToRoom(s, acl, sender, st).state)
  {
    if st.query.items.Some? && sender < |s.occupants| && s.occupants[sender].role >= MODERATOR {
      var m := ApplyItems(Marked(s, []), acl, sender, st.query.items.value).marked;
      ApplyItemsKeepFlags(Marked(s, []), acl, sender, st.query.items.value);
      FinishEmpties(m.state, m.affected);
    }
  }

  lemma {:induction false} OwnerSetEmpties(s: RoomState, acl: Acl, sender: nat, st: Stanza)
    requires st.Iq? && st.nick.None? && st.kind == Set && st.query.Owner? && sender == FindByJid(s.occupants, st.from)
    requires Inv(s, acl) && Destroyed !in s.flags && !DestroysOverMarks(s, st)
    ensures EmptyIfDestroyed(RouteIqToRoom(s, acl, sender, st).state)
  {
    match SetQuery(s, acl, sender, st)
    case Refuse(_, _) =>
    case Accept(marked, _) =>
      var action := st.query.action.value.value;
      if action.Destroy? {
        OwnerSetRests(s, acl, st, sender);
      } else {
        ConfigureKeepsLife(s, AclRole(acl, s.occupants[sender].jid), action.options);
        FinishEmpties(marked.state, marked.affected);
      }
  }

  lemma {:induction false} ConfigureKeepsLife(s: RoomState, aclRole: int, options: seq<ConfigOption>)
    requires s.defaultRole != ROLE_NONE && s.maxSize > 0 && Destroyed !in s.flags
    ensures Destroyed !in OwnerSet(s, aclRole, Configure(options)).state.flags
  {
    SetOptionsKeeps(s, aclRole, options);
    PurgeKeepsFlags(Marked(SetOptions(s, aclRole, options), []), 0);
  }
}
