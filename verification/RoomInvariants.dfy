/** What every step of a room keeps. */
module RoomInvariants {
  import opened Common
  import opened Jids
  import opened Affiliations
  import opened AffiliationLaws
  import opened RoomModel

  /** Nicks are pairwise distinct, and so are full addresses. */
  ghost predicate Keyed(s: RoomState) {
    forall i, j :: 0 <= i < j < |s.occupants| ==>
      && s.occupants[i].nick != s.occupants[j].nick
      && Canonical(s.occupants[i].jid) != Canonical(s.occupants[j].jid)
  }

  /** Stored affiliations are what the lists and the access list say now. */
  ghost predicate Coherent(s: RoomState, acl: Acl) {
    forall i :: 0 <= i < |s.occupants| ==>
      s.occupants[i].affiliation == GetByJid(s.lists, acl, s.occupants[i].jid)
  }

  /** Admins and owners are moderators. */
  ghost predicate Privileged(s: RoomState) {
    forall i :: 0 <= i < |s.occupants| && s.occupants[i].affiliation >= ADMIN ==>
      s.occupants[i].role == MODERATOR
  }

  /** An occupant who must go. */
  predicate Unwelcome(flags: set<Flag>, o: Occupant) {
    || o.role == ROLE_NONE
    || o.affiliation == OUTCAST
    || (MembersOnly in flags && o.affiliation < MEMBER)
  }

  /** Those who must go are marked: inside a query they are on the affected list. */
  ghost predicate Clean(s: RoomState) {
    forall i :: 0 <= i < |s.occupants| && Unwelcome(s.flags, s.occupants[i]) ==> s.occupants[i].included
  }

  /** The life cycle flags agree with the contents. */
  ghost predicate Aged(s: RoomState) {
    && (JustCreated in s.flags ==> s.occupants == [] && s.lists == NO_ENTRIES)
    && (s.occupants == [] && Persistent !in s.flags ==> JustCreated in s.flags || Destroyed in s.flags)
  }

  ghost predicate Inv(s: RoomState, acl: Acl) {
    && Keyed(s) && PartialMap(s.lists) && Privileged(s) && Clean(s) && Aged(s)
    && s.defaultRole != ROLE_NONE && s.maxSize > 0
    && (Destroyed !in s.flags ==> Coherent(s, acl))
  }

  // ----- Changing one occupant -----

  /** The invariant of everybody but the occupant at `i`, in a room with a past. */
  ghost predicate InvBut(s: RoomState, acl: Acl, i: nat)
    requires i < |s.occupants|
  {
    && Keyed(s) && PartialMap(s.lists) && JustCreated !in s.flags
    && s.defaultRole != ROLE_NONE && s.maxSize > 0
    && forall k :: 0 <= k < |s.occupants| && k != i ==> GoodOccupant(s, acl, s.occupants[k])
  }

  ghost predicate GoodOccupant(s: RoomState, acl: Acl, o: Occupant) {
    && (o.affiliation >= ADMIN ==> o.role == MODERATOR)
    && (Unwelcome(s.flags, o) ==> o.included)
    && (Destroyed !in s.flags ==> o.affiliation == GetByJid(s.lists, acl, o.jid))
  }

  lemma {:induction false} LeaveKeeps(s: RoomState, acl: Acl, i: nat)
    requires i < |s.occupants| && InvBut(s, acl, i)
    ensures Inv(Leave(s, i), acl)
  {
    var left := Leave(s, i);
    forall k | 0 <= k < |left.occupants|
      ensures left.occupants[k] == s.occupants[if k < i then k else k + 1]
      ensures GoodOccupant(s, acl, left.occupants[k])
    {
    }
  }

  lemma {:induction false} ChangeKeeps(s: RoomState, acl: Acl, i: nat, o: Occupant)
    requires i < |s.occupants| && InvBut(s, acl, i) && GoodOccupant(s, acl, o)
    requires o.jid == s.occupants[i].jid
    requires forall k :: 0 <= k < |s.occupants| && k != i ==> s.occupants[k].nick != o.nick
    ensures Inv(WithOccupant(s, i, o), acl)
  {
  }

  lemma {:induction false} InvGivesInvBut(s: RoomState, acl: Acl, i: nat)
    requires i < |s.occupants| && Inv(s, acl)
    ensures InvBut(s, acl, i) && GoodOccupant(s, acl, s.occupants[i])
  {
  }

  lemma {:induction false} MarkKeeps(m: Marked, acl: Acl, i: nat, reason: Option<string>)
    requires m.Valid() && i < |m.state.occupants| && InvBut(m.state, acl, i)
    requires GoodOccupant(m.state, acl, m.state.occupants[i].(included := true))
    ensures Inv(Mark(m, i, reason).state, acl)
  {
  }

  // ----- Errors and presences -----

  lemma {:induction false} RouteErrorKeeps(s: RoomState, acl: Acl, from: Jid)
    requires Inv(s, acl)
    ensures Inv(RouteError(s, from).state, acl)
  {
    var i := FindByJid(s.occupants, from);
    if i < |s.occupants| {
      InvGivesInvBut(s, acl, i);
      LeaveKeeps(WithOccupant(s, i, s.occupants[i].(presence := Some(ERROR_NOTICE), role := ROLE_NONE)), acl, i);
    }
  }

  lemma {:induction false} DepartKeeps(s: RoomState, acl: Acl, i: nat, inner: Option<string>)
    requires i < |s.occupants| && Inv(s, acl)
    ensures Inv(Depart(s, i, inner).state, acl)
  {
    InvGivesInvBut(s, acl, i);
    var shown := ShowPresence(s, i, inner);
    var gone := WithOccupant(shown, i, shown.occupants[i].(role := ROLE_NONE));
    LeaveKeeps(gone, acl, i);
    assert Leave(gone, i).flags - {JustCreated} == Leave(gone, i).flags;
  }

  /** Announcing a presence changes nothing but the stored presence and the mark of youth. */
  lemma {:induction false} AnnounceKeeps(s: RoomState, acl: Acl, i: nat, inner: Option<string>, justJoined: bool)
    requires i < |s.occupants| && InvBut(s.(flags := s.flags - {JustCreated}), acl, i)
    requires GoodOccupant(s, acl, s.occupants[i])
    ensures Inv(Announce(s, i, inner, justJoined).state, acl)
  {
  }

  lemma {:induction false} InsideKeeps(s: RoomState, acl: Acl, i: nat, st: Stanza)
    requires st.PresenceIn? && i < |s.occupants| && Inv(s, acl)
    ensures Inv(RoutePresenceInside(s, i, st).state, acl)
  {
    InvGivesInvBut(s, acl, i);
    assert s.flags - {JustCreated} == s.flags;
    if st.gone {
      DepartKeeps(s, acl, i, st.inner);
    } else if st.nick.None? || FindByNick(s.occupants, st.nick.value) == i {
      AnnounceKeeps(s, acl, i, st.inner, false);
    } else if FindByNick(s.occupants, st.nick.value) == |s.occupants| {
      var renamed := WithOccupant(s, i, s.occupants[i].(nick := st.nick.value));
      ChangeKeeps(s, acl, i, renamed.occupants[i]);
      InvGivesInvBut(renamed, acl, i);
      AnnounceKeeps(renamed, acl, i, st.inner, false);
    }
  }

  /** The founder of a room is its only listed owner, and nothing keeps it out. */
  lemma {:induction false} FounderIsOwner(s: RoomState, acl: Acl, st: Stanza)
    requires st.PresenceIn? && Inv(s, acl) && JustCreated in s.flags
    ensures var f := Founded(s, st.from);
            && f.lists == [[], [], [], [], [Entry(WithoutResource(st.from), None)]]
            && GetByJid(f.lists, acl, st.from) == OWNER
            && EntryError(f, acl, st).None?
  {
    var f := Founded(s, st.from);
    assert ListOf(NO_ENTRIES, st.from) == 5;
    assert f.lists[OWNER] == [Entry(WithoutResource(st.from), None)];
    MatchesIsCanonicalEquality(WithoutResource(st.from), st.from);
    assert Hit(f.lists[OWNER], 0, st.from, NodeAndHost);
    assert forall k :: 0 <= k < 4 ==> !Listed(f.lists[k], st.from, NodeAndHost);
  }

  lemma {:induction false} NewcomerIsNew(s: RoomState, from: Jid)
    requires FindByJid(s.occupants, from) == |s.occupants|
    ensures forall i :: 0 <= i < |s.occupants| ==> Canonical(s.occupants[i].jid) != Canonical(from)
  {
    forall i | 0 <= i < |s.occupants|
      ensures Canonical(s.occupants[i].jid) != Canonical(from)
    {
      MatchesIsCanonicalEquality(s.occupants[i].jid, from);
    }
  }

  lemma {:induction false} FoundedKeeps(s: RoomState, acl: Acl, from: Jid)
    requires Inv(s, acl)
    ensures PartialMap(Founded(s, from).lists)
    ensures JustCreated in s.flags ==> s.occupants == []
  {
    MovedKeepsPartialMap(s.lists, OWNER, from, None);
  }

  /** Everybody present before a join is as good as before; the newcomer is too. */
  lemma {:induction false} JoinKeeps(s: RoomState, acl: Acl, jid: Jid, nick: string, inner: Option<string>)
    requires Keyed(s) && PartialMap(s.lists) && s.defaultRole != ROLE_NONE && s.maxSize > 0
    requires forall k :: 0 <= k < |s.occupants| ==>
               && GoodOccupant(s, acl, s.occupants[k])
               && s.occupants[k].nick != nick && Canonical(s.occupants[k].jid) != Canonical(jid)
    requires GetByJid(s.lists, acl, jid) != OUTCAST
    requires MembersOnly in s.flags ==> GetByJid(s.lists, acl, jid) >= MEMBER
    ensures Inv(Announce(Join(s, jid, nick, GetByJid(s.lists, acl, jid)), 0, inner, true).state, acl)
  {
    var joined := Join(s, jid, nick, GetByJid(s.lists, acl, jid));
    forall k | 0 < k < |joined.occupants|
      ensures joined.occupants[k] == s.occupants[k - 1]
    {
    }
    AnnounceKeeps(joined, acl, 0, inner, true);
  }

  lemma {:induction false} OutsideKeeps(s: RoomState, acl: Acl, st: Stanza)
    requires st.PresenceIn? && Inv(s, acl)
    requires Destroyed !in s.flags && FindByJid(s.occupants, st.from) == |s.occupants|
    ensures Inv(RoutePresenceOutside(s, acl, st).state, acl)
  {
    if !st.gone && st.nick.Some? && FindByNick(s.occupants, st.nick.value) == |s.occupants| {
      var founded := Founded(s, st.from);
      FoundedKeeps(s, acl, st.from);
      if JustCreated in s.flags {
        FounderIsOwner(s, acl, st);
      }
      if EntryError(founded, acl, st).None? {
        NewcomerIsNew(s, st.from);
        JoinKeeps(founded, acl, st.from, st.nick.value, st.inner);
      }
    }
  }

  // ----- The item loop of an admin set -----

  lemma {:induction false} RoleItemKeeps(
      m: Marked, acl: Acl, sender: nat, nick: string, role: Role, reason: Option<string>)
    requires m.Valid() && sender < |m.state.occupants| && Inv(m.state, acl)
    ensures Inv(RoleItem(m, sender, nick, role, reason).marked.state, acl)
  {
    var target := FindByNick(m.state.occupants, nick);
    var r := RoleItem(m, sender, nick, role, reason);
    if r.error.None? {
      InvGivesInvBut(m.state, acl, target);
      var changed := WithOccupant(m.state, target, m.state.occupants[target].(role := role));
      MarkKeeps(m.(state := changed), acl, target, reason);
    }
  }

  /** The invariant with affiliations brought up to date only before position `i`. */
  ghost predicate InvUpTo(s: RoomState, acl: Acl, i: nat) {
    && Keyed(s) && PartialMap(s.lists) && Privileged(s) && Clean(s)
    && s.defaultRole != ROLE_NONE && s.maxSize > 0 && JustCreated !in s.flags && s.occupants != []
    && forall k :: 0 <= k < i && k < |s.occupants| ==>
         s.occupants[k].affiliation == GetByJid(s.lists, acl, s.occupants[k].jid)
  }

  lemma {:induction false} RecomputeOneKeeps(m: Marked, acl: Acl, i: nat, reason: Option<string>, r: Marked)
    requires m.Valid() && i < |m.state.occupants| && InvUpTo(m.state, acl, i)
    requires r == RecomputeOne(m, acl, i, reason)
    ensures InvUpTo(r.state, acl, i + 1)
  {
    assert r.state.lists == m.state.lists && r.state.flags == m.state.flags;
    OneChanged(m.state, r.state, i);
  }

  /** Where only one occupant changes, and not its keys, keys stay distinct. */
  lemma {:induction false} OneChanged(s: RoomState, r: RoomState, i: nat)
    requires |r.occupants| == |s.occupants| && i < |s.occupants|
    requires r.occupants[i].jid == s.occupants[i].jid && r.occupants[i].nick == s.occupants[i].nick
    requires forall k :: 0 <= k < |s.occupants| && k != i ==> r.occupants[k] == s.occupants[k]
    requires Keyed(s)
    ensures Keyed(r)
  {
    assert forall k :: 0 <= k < |s.occupants| ==>
             r.occupants[k].jid == s.occupants[k].jid && r.occupants[k].nick == s.occupants[k].nick;
  }

  lemma {:induction false} RecomputeInTurn(m: Marked, acl: Acl, i: nat, reason: Option<string>)
    requires m.Valid() && i < |m.state.occupants|
    ensures Recompute(m, acl, i, reason) == Recompute(RecomputeOne(m, acl, i, reason), acl, i + 1, reason)
  {
  }

  lemma {:induction false} RecomputeKeeps(m: Marked, acl: Acl, i: nat, reason: Option<string>, r: Marked)
    requires m.Valid() && i <= |m.state.occupants| && InvUpTo(m.state, acl, i)
    requires r == Recompute(m, acl, i, reason)
    ensures Inv(r.state, acl)
    decreases |m.state.occupants| - i
  {
    if i < |m.state.occupants| {
      var next := RecomputeOne(m, acl, i, reason);
      RecomputeInTurn(m, acl, i, reason);
      RecomputeOneKeeps(m, acl, i, reason, next);
      RecomputeKeeps(next, acl, i + 1, reason, r);
    }
  }

  lemma {:induction false} AffiliationItemKeeps(
      m: Marked, acl: Acl, sender: nat, jid: Jid, affiliation: Affiliation, reason: Option<string>)
    requires m.Valid() && sender < |m.state.occupants| && Inv(m.state, acl)
    ensures Inv(AffiliationItem(m, acl, sender, jid, affiliation, reason).marked.state, acl)
  {
    MovedKeepsPartialMap(m.state.lists, affiliation, jid, reason);
    var moved := m.state.(lists := Moved(m.state.lists, affiliation, jid, reason));
    RecomputeKeeps(m.(state := moved), acl, 0, reason, Recompute(m.(state := moved), acl, 0, reason));
  }

  lemma {:induction false} ApplyItemsKeeps(m: Marked, acl: Acl, sender: nat, items: seq<Item>)
    requires m.Valid() && sender < |m.state.occupants| && Inv(m.state, acl)
    ensures Inv(ApplyItems(m, acl, sender, items).marked.state, acl)
    decreases |items|
  {
    if items != [] {
      var item := items[0];
      if WellFormedItem(item) {
        if item.role.Some? {
          RoleItemKeeps(m, acl, sender, item.nick.value, item.role.value, item.reason);
        } else {
          AffiliationItemKeeps(m, acl, sender, item.jid.value, item.affiliation.value, item.reason);
        }
      }
      ApplyItemsKeeps(ApplyItem(m, acl, sender, item).marked, acl, sender, items[1..]);
    }
  }

  // ----- Owner sets -----

  lemma {:induction false} SetOptionsKeeps(s: RoomState, aclRole: int, options: seq<ConfigOption>)
    requires s.defaultRole != ROLE_NONE && s.maxSize > 0
    ensures var r := SetOptions(s, aclRole, options);
            && r.occupants == s.occupants && r.lists == s.lists && r.node == s.node
            && r.defaultRole != ROLE_NONE && r.maxSize > 0
            && (JustCreated in r.flags <==> JustCreated in s.flags)
            && (Destroyed in r.flags <==> Destroyed in s.flags)
    decreases |options|
  {
    if options != [] {
      SetOptionsKeeps(SetOption(s, aclRole, options[0]), aclRole, options[1..]);
    }
  }

  /** What the purge of the occupants from `i` on makes of a room: only their roles and marks
   *  change, and exactly those below member lose their role, and are marked. */
  ghost predicate Purged(s: RoomState, r: RoomState, i: nat) {
    && r == s.(occupants := r.occupants) && |r.occupants| == |s.occupants|
    && forall k :: 0 <= k < |s.occupants| ==>
         && r.occupants[k].jid == s.occupants[k].jid && r.occupants[k].nick == s.occupants[k].nick
         && r.occupants[k].affiliation == s.occupants[k].affiliation
         && (s.occupants[k].included ==> r.occupants[k].included)
         && (if i <= k && s.occupants[k].affiliation < MEMBER
             then r.occupants[k].role == ROLE_NONE && r.occupants[k].included
             else r.occupants[k].role == s.occupants[k].role)
  }

  lemma {:induction false} PurgeResult(m: Marked, i: nat, r: Marked)
    requires m.Valid() && i <= |m.state.occupants| && r == PurgeNonMembers(m, i)
    ensures Purged(m.state, r.state, i)
    decreases |m.state.occupants| - i
  {
    if i < |m.state.occupants| {
      var o := m.state.occupants[i];
      if o.affiliation < MEMBER {
        var purged := WithOccupant(m.state, i, o.(role := ROLE_NONE));
        PurgeResult(Mark(m.(state := purged), i, Some(MEMBERS_ONLY_REASON)), i + 1, r);
      } else {
        PurgeResult(m, i + 1, r);
      }
    }
  }

  /** The invariant but for the members-only flag that was just set. */
  ghost predicate InvBeforePurge(s: RoomState, acl: Acl) {
    && Keyed(s) && PartialMap(s.lists) && Privileged(s) && Coherent(s, acl)
    && s.defaultRole != ROLE_NONE && s.maxSize > 0 && JustCreated !in s.flags && s.occupants != []
    && forall k :: 0 <= k < |s.occupants| && Unwelcome(s.flags, s.occupants[k]) ==>
         s.occupants[k].included || s.occupants[k].affiliation < MEMBER
  }

  lemma {:induction false} PurgeKeeps(m: Marked, acl: Acl, r: Marked)
    requires m.Valid() && InvBeforePurge(m.state, acl) && r == PurgeNonMembers(m, 0)
    ensures Inv(r.state, acl)
  {
    PurgeResult(m, 0, r);
    PurgedIsInv(m.state, r.state, acl);
  }

  lemma {:induction false} PurgedIsInv(s: RoomState, r: RoomState, acl: Acl)
    requires InvBeforePurge(s, acl) && Purged(s, r, 0)
    ensures Inv(r, acl)
  {
  }

  lemma {:induction false} DismissKeeps(m: Marked, acl: Acl, i: nat)
    requires m.Valid() && i <= |m.state.occupants| && Inv(m.state, acl)
    requires Destroyed in m.state.flags
    ensures Inv(DismissAll(m, i).state, acl)
    decreases |m.state.occupants| - i
  {
    if i < |m.state.occupants| {
      var o := m.state.occupants[i];
      InvGivesInvBut(m.state, acl, i);
      var dismissed := WithOccupant(m.state, i, o.(role := ROLE_NONE, affiliation := NONE));
      MarkKeeps(m.(state := dismissed), acl, i, None);
      DismissKeeps(Mark(m.(state := dismissed), i, None), acl, i + 1);
    }
  }

  lemma {:induction false} OwnerSetKeeps(s: RoomState, acl: Acl, aclRole: int, action: OwnerAction)
    requires Inv(s, acl) && s.occupants != [] && Destroyed !in s.flags
    ensures Inv(OwnerSet(s, aclRole, action).state, acl)
  {
    match action
    case Destroy =>
      DismissKeeps(Marked(s.(flags := s.flags + {Destroyed}), []), acl, 0);
    case Configure(options) =>
      SetOptionsKeeps(s, aclRole, options);
      var configured := SetOptions(s, aclRole, options);
      if MembersOnly in configured.flags {
        PurgeKeeps(Marked(configured, []), acl, PurgeNonMembers(Marked(configured, []), 0));
      }
  }

  // ----- The final loop -----

  /** Whoever is announced and stays is welcome. */
  lemma {:induction false} FinishKeeps(s: RoomState, acl: Acl, affected: seq<nat>)
    requires Positions(s, affected) && Inv(s, acl)
    ensures Inv(Finish(s, affected).state, acl)
    decreases |affected|
  {
    if affected != [] {
      var i := affected[0];
      InvGivesInvBut(s, acl, i);
      var settled := WithOccupant(s, i, Settled(s.flags, s.occupants[i]));
      if settled.occupants[i].role == ROLE_NONE {
        LeaveKeeps(settled, acl, i);
        FinishKeeps(Leave(settled, i), acl, Shifted(affected[1..], i));
      } else {
        var cleared := WithOccupant(settled, i, settled.occupants[i].(reason := None));
        ChangeKeeps(s, acl, i, cleared.occupants[i]);
        assert cleared == WithOccupant(s, i, cleared.occupants[i]);
        FinishKeeps(cleared, acl, affected[1..]);
      }
    }
  }

  // ----- Every step -----

  lemma {:induction false} SetQueryKeeps(s: RoomState, acl: Acl, sender: nat, st: Stanza)
    requires st.Iq? && sender <= |s.occupants| && Inv(s, acl) && Destroyed !in s.flags
    ensures match SetQuery(s, acl, sender, st)
            case Refuse(state, _) => Inv(state, acl)
            case Accept(marked, _) => Inv(marked.state, acl)
  {
    if sender < |s.occupants| {
      match st.query
      case Admin(items) =>
        if items.Some? {
          ApplyItemsKeeps(Marked(s, []), acl, sender, items.value);
        }
      case Owner(action) =>
        if action.Some? && action.value.Some? {
          OwnerSetKeeps(s, acl, AclRole(acl, s.occupants[sender].jid), action.value.value);
        }
      case _ =>
    }
  }

  lemma {:induction false} SetKeeps(s: RoomState, acl: Acl, sender: nat, st: Stanza, q: SetResult, after: Outcome)
    requires st.Iq? && st.kind == Set && !st.query.NoQuery? && Inv(s, acl) && Destroyed !in s.flags
    requires sender <= |s.occupants| && q == SetQuery(s, acl, sender, st) && after == RouteIqToRoom(s, acl, sender, st)
    ensures Inv(after.state, acl)
  {
    SetQueryKeeps(s, acl, sender, st);
    if q.Accept? {
      FinishKeeps(q.marked.state, acl, q.marked.affected);
    }
  }

  lemma {:induction false} RouteIqKeeps(s: RoomState, acl: Acl, st: Stanza)
    requires st.Iq? && Inv(s, acl) && Destroyed !in s.flags
    ensures Inv(RouteIq(s, acl, st).state, acl)
  {
    var sender := FindByJid(s.occupants, st.from);
    if st.nick.None? && st.kind == Set && !st.query.NoQuery? {
      SetKeeps(s, acl, sender, st, SetQuery(s, acl, sender, st), RouteIq(s, acl, st));
    } else {
      QueryKeepsRoom(s, acl, sender, st);
    }
  }

  /** A query that sets nothing leaves the room alone. */
  lemma {:induction false} QueryKeepsRoom(s: RoomState, acl: Acl, sender: nat, st: Stanza)
    requires st.Iq? && sender == FindByJid(s.occupants, st.from)
    requires st.nick.Some? || st.kind != Set || st.query.NoQuery?
    ensures RouteIq(s, acl, st).state == s
  {
  }

  /** Every step of a room keeps the invariant. */
  lemma {:induction false} RouteKeeps(s: RoomState, acl: Acl, st: Stanza)
    requires Inv(s, acl) && Destroyed !in s.flags
    ensures Inv(Route(s, acl, st).state, acl)
  {
    match st
    case ErrorStanza(from) => RouteErrorKeeps(s, acl, from);
    case PresenceIn(_, _, _, _, _) =>
      var i := FindByJid(s.occupants, st.from);
      if i < |s.occupants| {
        InsideKeeps(s, acl, i, st);
      } else {
        OutsideKeeps(s, acl, st);
      }
    case Iq(_, _, _, _, _) => RouteIqKeeps(s, acl, st);
  }
}
