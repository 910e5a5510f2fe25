/** The room as the program has it: occupants that handlers update in place, and an
 *  affected list threaded through them (src/room/room.c, src/participant).
 *
 *  `Room.state` is the room as a value. Every method is proved to take it from one
 *  value to the next exactly as RoomModel says, and to send exactly the same packets.
 */
module Rooms {
  import opened Common
  import opened Jids
  import opened Affiliations
  import opened RoomModel
  import opened RoomsModel

  /** Where worker_send puts packets. */
  class Wire {
    var sent: seq<Packet>

    constructor ()
      ensures sent == []
    {
      sent := [];
    }

    method Send(p: Packet)
      modifies this
      ensures sent == old(sent) + [p]
    {
      sent := sent + [p];
    }
  }

  class Participant {
    var jid: Jid
    var nick: string
    var affiliation: Affiliation
    var role: Role
    var presence: Option<string>
    // The affected list of one query.
    var included: bool
    var reason: Option<string>
    var next: Participant?

    constructor (jid: Jid, nick: string)
      ensures View() == Occupant(jid, nick, OUTCAST, ROLE_NONE, None, false, None)
      ensures next == null
    {
      this.jid, this.nick := jid, nick;
      affiliation, role := OUTCAST, ROLE_NONE;
      presence, included, reason, next := None, false, None, null;
    }

    ghost function View(): Occupant
      reads this
    {
      Occupant(jid, nick, affiliation, role, presence, included, reason)
    }
  }

  /** The two pointers of route_iq to the occupants affected so far. */
  class AffectedList {
    var first: Participant?
    var current: Participant?
    ghost var chain: seq<Participant>

    constructor ()
      ensures Valid() && chain == []
    {
      first, current, chain := null, null, [];
    }

    ghost predicate Valid()
      reads this, chain
    {
      && ChainFrom(chain, first)
      && (chain != [] ==> current == chain[|chain| - 1])
    }

    /** participant_set_affected. */
    method Add(p: Participant, reason: Option<string>)
      requires Valid() && (!p.included ==> p !in chain)
      modifies this, chain, p
      ensures Valid() && chain == (if old(p.included) then old(chain) else old(chain) + [p])
      ensures p.View() ==
              if old(p.included) then old(p.View()) else old(p.View()).(included := true, reason := reason)
      ensures forall q :: q in old(chain) && q != p ==> q.View() == old(q.View())
    {
      if !p.included {
        p.included := true;
        p.reason := reason;
        p.next := null;
        if first != null {
          current.next := p;
          current := p;
        } else {
          first := p;
          current := p;
        }
        chain := chain + [p];
      }
    }
  }

  /** `next` links the chain from `first` on, and ends it: no cycle, no duplicate. */
  ghost predicate ChainFrom(chain: seq<Participant>, first: Participant?)
    reads chain
  {
    && (forall j, k :: 0 <= j < k < |chain| ==> chain[j] != chain[k])
    && (chain == [] ==> first == null)
    && (chain != [] ==> first == chain[0] && chain[|chain| - 1].next == null)
    && forall k :: 0 <= k < |chain| - 1 ==> chain[k].next == chain[k + 1]
  }

  predicate Distinct(s: seq<Participant>) {
    forall i, j :: 0 <= i < j < |s| ==> s[i] != s[j]
  }

  /** The position of an occupant in the list. */
  function PositionOf(participants: seq<Participant>, p: Participant): (i: nat)
    requires p in participants
    ensures i < |participants| && participants[i] == p
  {
    if participants[0] == p then 0 else 1 + PositionOf(participants[1..], p)
  }

  lemma {:induction false} Associates(a: seq<Packet>, b: seq<Packet>, c: seq<Packet>)
    ensures a + b + c == a + (b + c)
  {
  }

  class Room {
    var node: string
    var flags: set<Flag>
    var defaultRole: Role
    var maxSize: int
    var password: Option<string>
    var subject: Option<string>
    var participants: seq<Participant>
    var size: int
    var lists: Lists
    ghost var state: RoomState

    ghost predicate Valid()
      reads this, participants
    {
      && size == |participants| == |state.occupants|
      && Distinct(participants)
      && (forall i :: 0 <= i < |participants| ==> participants[i].View() == state.occupants[i])
      && state == RoomState(node, flags, defaultRole, maxSize, password, subject, state.occupants, lists)
    }

    /** Occupants come from before or are new. */
    twostate predicate SameOrFresh()
      reads this
    {
      forall p :: p in participants ==> p in old(participants) || fresh(p)
    }

    constructor (node: string)
      ensures Valid() && state == RoomInit(node) && participants == []
    {
      this.node := node;
      flags, defaultRole, maxSize := DEFAULT_FLAGS, PARTICIPANT, DEFAULT_MAX_SIZE;
      password, subject := None, None;
      participants, size, lists := [], 0, NO_ENTRIES;
      state := RoomInit(node);
    }

    // ----- Looking up occupants -----

    method FindByNick(nick: string) returns (p: Participant?, ghost i: nat)
      requires Valid()
      ensures i == RoomModel.FindByNick(state.occupants, nick)
      ensures if i < |participants| then p == participants[i] else p == null
    {
      var cursor := 0;
      while cursor < |participants|
        invariant cursor <= |participants|
        invariant forall k :: 0 <= k < cursor ==> state.occupants[k].nick != nick
      {
        if participants[cursor].nick == nick {
          assert participants[cursor].View() == state.occupants[cursor];
          return participants[cursor], cursor;
        }
        assert participants[cursor].View() == state.occupants[cursor];
        cursor := cursor + 1;
      }
      return null, cursor;
    }

    method FindByJid(jid: Jid) returns (p: Participant?, ghost i: nat)
      requires Valid()
      ensures i == RoomModel.FindByJid(state.occupants, jid)
      ensures if i < |participants| then p == participants[i] else p == null
    {
      // A query may arrive without resource; it still finds its sender.
      var mode := if jid.resource.None? then NodeAndHost else Full;
      var cursor := 0;
      while cursor < |participants|
        invariant cursor <= |participants|
        invariant forall k :: 0 <= k < cursor ==> !Matches(state.occupants[k].jid, jid, mode)
      {
        assert participants[cursor].View() == state.occupants[cursor];
        if Matches(participants[cursor].jid, jid, mode) {
          return participants[cursor], cursor;
        }
        cursor := cursor + 1;
      }
      return null, cursor;
    }

    // ----- Presence broadcasts -----

    static lemma {:induction false} OneMoreReceiver(
        s: RoomState, i: nat, newNick: Option<string>, codes: set<Status>, n: nat)
      requires i < |s.occupants| && n < |s.occupants|
      ensures BroadcastTo(s, i, newNick, codes, n + 1) ==
              BroadcastTo(s, i, newNick, codes, n) + [PresenceTo(s, i, n, newNick, codes)]
    {
    }

    method BroadcastPresence(sender: Participant, ghost i: nat, newNick: Option<string>, codes: set<Status>, wire: Wire)
      requires Valid() && i < |participants| && participants[i] == sender
      modifies wire
      ensures wire.sent == old(wire.sent) + Broadcast(state, i, newNick, codes)
    {
      var unavailable := sender.role == ROLE_NONE || NicknameChanged in codes;
      var cursor := 0;
      while cursor < |participants|
        invariant cursor <= |participants|
        invariant wire.sent == old(wire.sent) + BroadcastTo(state, i, newNick, codes, cursor)
      {
        var receiver := participants[cursor];
        var realJid := if receiver.role == MODERATOR || SemiAnonymous !in flags then Some(sender.jid) else None;
        assert participants[cursor].View() == state.occupants[cursor] && sender.View() == state.occupants[i];
        wire.Send(Presence(
          receiver.jid, node, sender.nick, unavailable, newNick, sender.affiliation, sender.role,
          if receiver == sender then RoomCodes(flags) + {SelfPresence} + codes else codes,
          realJid, sender.presence, sender.reason));
        OneMoreReceiver(state, i, newNick, codes, cursor);
        cursor := cursor + 1;
      }
    }

    method SendPresences(receiver: Participant, ghost i: nat, wire: Wire)
      requires Valid() && i < |participants| && participants[i] == receiver
      modifies wire
      ensures wire.sent == old(wire.sent) + Introductions(state, i, |participants|)
    {
      var cursor := 0;
      while cursor < |participants|
        invariant cursor <= |participants|
        invariant wire.sent == old(wire.sent) + Introductions(state, i, cursor)
      {
        var sender := participants[cursor];
        assert sender.View() == state.occupants[cursor] && receiver.View() == state.occupants[i];
        if sender != receiver {
          var realJid := if receiver.role == MODERATOR || SemiAnonymous !in flags then Some(sender.jid) else None;
          wire.Send(Presence(receiver.jid, node, sender.nick, false, None, sender.affiliation, sender.role, {},
                             realJid, sender.presence, None));
        }
        cursor := cursor + 1;
      }
    }

    // ----- Entering and leaving -----

    method Join(jid: Jid, nick: string, affiliation: Affiliation) returns (p: Participant)
      requires Valid()
      modifies this
      ensures Valid() && state == RoomModel.Join(old(state), jid, nick, affiliation)
      ensures fresh(p) && participants == [p] + old(participants)
    {
      p := new Participant(jid, nick);
      participants := [p] + participants;
      size := size + 1;
      p.affiliation := affiliation;
      p.role :=
        if affiliation == MEMBER then PARTICIPANT
        else if affiliation == ADMIN || affiliation == OWNER then MODERATOR
        else defaultRole;
      state := RoomModel.Join(state, jid, nick, affiliation);
      ViewsWith(participants, state.occupants);
    }

    /** One more in front, and participants still show the occupants. */
    static lemma {:induction false} ViewsWith(now: seq<Participant>, occupants: seq<Occupant>)
      requires 0 < |now| == |occupants| && now[0].View() == occupants[0] && now[0] !in now[1..]
      requires Distinct(now[1..])
      requires forall k :: 0 <= k < |now[1..]| ==> now[1..][k].View() == occupants[1..][k]
      ensures Distinct(now)
      ensures forall k :: 0 <= k < |now| ==> now[k].View() == occupants[k]
    {
      assert forall k :: 0 < k < |now| ==> now[k] == now[1..][k - 1] && occupants[k] == occupants[1..][k - 1];
    }

    /** Without one of them, participants still show the occupants. */
    static lemma {:induction false} ViewsWithout(former: seq<Participant>, occupants: seq<Occupant>, i: nat)
      requires i < |former| == |occupants|
      requires Distinct(former)
      requires forall k :: 0 <= k < |former| ==> former[k].View() == occupants[k]
      ensures var left := Without(former, i);
              && Distinct(left)
              && forall k :: 0 <= k < |left| ==> left[k].View() == Without(occupants, i)[k]
    {
    }

    method Leave(p: Participant, ghost i: nat)
      requires Valid() && i < |participants| && participants[i] == p
      modifies this
      ensures Valid() && state == RoomModel.Leave(old(state), i)
      ensures participants == Without(old(participants), i)
    {
      var position := PositionOf(participants, p);
      assert position == i;
      ViewsWithout(participants, state.occupants, i);
      ghost var before := state;
      participants := Without(participants, position);
      size := size - 1;
      if Persistent !in flags && size == 0 {
        flags := flags + {Destroyed};
      }
      state := RoomModel.Leave(before, i);
      assert state.flags == flags && state.occupants == Without(before.occupants, i);
    }

    // ----- Errors and presences -----

    method RouteError(from: Jid, wire: Wire)
      requires Valid()
      modifies this, participants, wire
      ensures Valid() && SameOrFresh()
      ensures state == RoomModel.RouteError(old(state), from).state
      ensures wire.sent == old(wire.sent) + RoomModel.RouteError(old(state), from).sent
    {
      var sender, i := FindByJid(from);
      if sender != null {
        Kick(sender, i, wire);
      }
    }

    method Kick(sender: Participant, ghost i: nat, wire: Wire)
      requires Valid() && i < |participants| && participants[i] == sender
      modifies this, sender, wire
      ensures Valid() && participants == Without(old(participants), i)
      ensures var o := old(state).occupants[i].(presence := Some(ERROR_NOTICE), role := ROLE_NONE);
              var kicked := WithOccupant(old(state), i, o);
              && state == RoomModel.Leave(kicked, i)
              && wire.sent == old(wire.sent) + Broadcast(kicked, i, None, {})
    {
      assert sender.View() == state.occupants[i];
      sender.presence := Some(ERROR_NOTICE);
      sender.role := ROLE_NONE;
      Refresh(sender, i);
      BroadcastPresence(sender, i, None, {}, wire);
      Leave(sender, i);
    }

    /** affiliationss_add: false when the change is refused. */
    method AddAffiliation(
        sender: Participant?, affiliation: Affiliation, jid: Jid, reason: Option<string>) returns (ok: bool)
      requires Valid()
      modifies this`lists, this`state
      ensures var who := if sender == null then None else Some(Requester(sender.jid, sender.affiliation));
              && ok == !Refused(old(state).lists, who, affiliation, jid)
              && state == if ok then old(state).(lists := Moved(old(state).lists, affiliation, jid, reason))
                          else old(state)
      ensures Valid()
    {
      // The upper two lists are filled by owners.
      if sender != null && sender.affiliation != OWNER && affiliation >= ADMIN {
        return false;
      }
      // Where the person is listed so far.
      var list, i := FindInLists(lists, jid, NodeAndHost);
      if list < 5 {
        // They are emptied by owners, too.
        if sender != null && sender.affiliation != OWNER && list >= ADMIN {
          return false;
        }
        if list == OWNER && sender != null && Matches(sender.jid, lists[list][i].jid, NodeAndHost)
           && i == 0 && i == |lists[list]| - 1 {
          // The one listed owner stays, unless somebody else removes it.
          return false;
        }
      }
      Relist(list, i, affiliation, jid, reason);
      return true;
    }

    /** Take the entry at `i` away, if there is one, and add one to the new list. */
    method Relist(list: nat, i: nat, affiliation: Affiliation, jid: Jid, reason: Option<string>)
      requires Valid() && list == FindList(lists, jid, NodeAndHost, 0)
      requires list < 5 ==> i == Find(lists[list], jid, NodeAndHost)
      modifies this`lists, this`state
      ensures Valid() && state == old(state).(lists := Moved(old(state).lists, affiliation, jid, reason))
    {
      var stored := None;
      if list < 5 {
        stored := lists[list][i].reason;
        lists := lists[list := Without(lists[list], i)];
      }
      if affiliation != NONE {
        var entry := Entry(WithoutResource(jid), SetReason(stored, reason));
        lists := lists[affiliation := lists[affiliation] + [entry]];
      }
      state := state.(lists := lists);
    }

    /** Take up in `state` what has been changed in the occupant at `i`. */
    ghost method Refresh(p: Participant, i: nat)
      requires i < |participants| && participants[i] == p && ValidBut(i)
      modifies this`state
      ensures Valid() && state == WithOccupant(old(state), i, p.View())
    {
      state := WithOccupant(state, i, p.View());
    }

    ghost predicate ValidBut(i: nat)
      reads this, participants
    {
      && size == |participants| == |state.occupants|
      && Distinct(participants)
      && (forall k :: 0 <= k < |participants| && k != i ==> participants[k].View() == state.occupants[k])
      && state == RoomState(node, flags, defaultRole, maxSize, password, subject, state.occupants, lists)
    }

    /** The occupant's presence becomes the incoming one, if it may show presences. */
    method Show(sender: Participant, ghost i: nat, inner: Option<string>)
      requires Valid() && i < |participants| && participants[i] == sender
      modifies this`state, sender
      ensures Valid() && state == ShowPresence(old(state), i, inner)
    {
      assert sender.View() == state.occupants[i];
      if sender.role > VISITOR || VisitorPresence in flags {
        sender.presence := inner;
        Refresh(sender, i);
      }
    }

    method ClearYouth()
      requires Valid()
      modifies this`flags, this`state
      ensures Valid() && state == ClearJustCreated(old(state))
    {
      flags := flags - {JustCreated};
      state := ClearJustCreated(state);
    }

    /** The end of route_presence for a sender who goes away. */
    method DepartWith(sender: Participant, ghost i: nat, inner: Option<string>, wire: Wire)
      requires Valid() && i < |participants| && participants[i] == sender
      modifies this, sender, wire
      ensures Valid() && participants == Without(old(participants), i)
      ensures state == Depart(old(state), i, inner).state
      ensures wire.sent == old(wire.sent) + Depart(old(state), i, inner).sent
    {
      Show(sender, i, inner);
      sender.role := ROLE_NONE;
      Refresh(sender, i);
      BroadcastPresence(sender, i, None, {}, wire);
      Leave(sender, i);
      ClearYouth();
    }

    /** The end of route_presence for a sender who stays. */
    method AnnounceWith(sender: Participant, ghost i: nat, inner: Option<string>, justJoined: bool, wire: Wire)
      requires Valid() && i < |participants| && participants[i] == sender
      modifies this, sender, wire
      ensures Valid() && participants == old(participants)
      ensures state == Announce(old(state), i, inner, justJoined).state
      ensures wire.sent == old(wire.sent) + Announce(old(state), i, inner, justJoined).sent
    {
      Show(sender, i, inner);
      BroadcastPresence(sender, i, None, {}, wire);
      assert sender.View() == state.occupants[i];
      if justJoined && subject.Some? {
        wire.Send(Subject(sender.jid, node, subject.value));
      }
      KeepPresence(sender, i);
      ClearYouth();
    }

    /** Cache the presence to show it to newcomers. */
    method KeepPresence(sender: Participant, ghost i: nat)
      requires Valid() && i < |participants| && participants[i] == sender
      modifies this`state, sender
      ensures Valid()
      ensures var o := old(state).occupants[i];
              state == WithOccupant(old(state), i, o.(presence := Cached(o.presence)))
    {
      assert sender.View() == state.occupants[i];
      if sender.presence.Some? && !(0 < |sender.presence.value| <= REASONABLE_RAW_LIMIT) {
        sender.presence := None;
      }
      Refresh(sender, i);
    }

    // ----- Presences -----

    /** Why the sender may not enter; its affiliation if it may. */
    method CheckEntry(st: Stanza, acl: Acl) returns (error: Option<Error>, affiliation: Affiliation)
      requires Valid() && st.PresenceIn?
      ensures error == EntryError(state, acl, st)
      ensures error.None? ==> affiliation == GetByJid(state.lists, acl, st.from)
    {
      affiliation := NONE;
      var role := FindAclRole(acl, st.from);
      if role >= ACL_MUC_ADMIN {
        return None, OWNER;
      }
      if size >= maxSize {
        return Some(OccupantsLimit), affiliation;
      }
      affiliation := LookUp(lists, acl, st.from);
      if affiliation == OUTCAST {
        return Some(BannedFromRoom), affiliation;
      }
      if affiliation < OWNER && PasswordProtected in flags {
        if password.Some? && (st.password.None? || st.password.value != password.value) {
          return Some(WrongPassword), affiliation;
        }
      }
      if MembersOnly in flags && affiliation < MEMBER {
        return Some(MembersRequired), affiliation;
      }
      return None, affiliation;
    }

    /** A newcomer enters and is told who is there, or is bounced. */
    method Enter(st: Stanza, acl: Acl, wire: Wire)
      requires Valid() && st.PresenceIn? && RoomModel.FindByJid(state.occupants, st.from) == |participants|
      modifies this, wire
      ensures Valid() && SameOrFresh()
      ensures state == RoutePresenceOutside(old(state), acl, st).state
      ensures wire.sent == old(wire.sent) + RoutePresenceOutside(old(state), acl, st).sent
    {
      if st.gone {
        return;
      }
      if st.nick.None? {
        wire.Send(Bounce(st.from, JidMalformed));
        return;
      }
      var holder, j := FindByNick(st.nick.value);
      if holder != null {
        wire.Send(Bounce(st.from, OccupantConflict));
        return;
      }
      if JustCreated in flags {
        var _ := AddAffiliation(null, OWNER, st.from, None);
      }
      assert state == Founded(old(state), st.from);
      var error, affiliation := CheckEntry(st, acl);
      if error.Some? {
        wire.Send(Bounce(st.from, error.value));
        return;
      }
      Admit(st, affiliation, wire);
    }

    method Admit(st: Stanza, affiliation: Affiliation, wire: Wire)
      requires Valid() && st.PresenceIn? && st.nick.Some?
      modifies this, wire
      ensures Valid() && SameOrFresh()
      ensures var joined := RoomModel.Join(old(state), st.from, st.nick.value, affiliation);
              var after := Announce(joined, 0, st.inner, true);
              && state == after.state
              && wire.sent == old(wire.sent) + (Introductions(joined, 0, |joined.occupants|) + after.sent)
    {
      var p := Join(st.from, st.nick.value, affiliation);
      ghost var joined := state;
      SendPresences(p, 0, wire);
      AnnounceWith(p, 0, st.inner, true, wire);
      Associates(old(wire.sent), Introductions(joined, 0, |joined.occupants|),
                 Announce(joined, 0, st.inner, true).sent);
    }

    /** A change of nick is announced before it is made; false drops the stanza. */
    method ChangeNick(sender: Participant, ghost i: nat, st: Stanza, wire: Wire) returns (ok: bool)
      requires Valid() && i < |participants| && participants[i] == sender
      requires st.PresenceIn? && st.nick.Some?
      modifies this`state, sender, wire
      ensures Valid()
      ensures var holder := RoomModel.FindByNick(old(state).occupants, st.nick.value);
              if holder == i then
                ok && state == old(state) && wire.sent == old(wire.sent)
              else if holder < |participants| then
                !ok && state == old(state) && wire.sent == old(wire.sent) + [Bounce(st.from, OccupantConflict)]
              else if old(state).occupants[i].role <= VISITOR && VisitorPresence !in flags then
                !ok && state == old(state) && wire.sent == old(wire.sent)
              else
                && ok
                && state == WithOccupant(old(state), i, old(state).occupants[i].(nick := st.nick.value))
                && wire.sent == old(wire.sent) + Broadcast(old(state), i, st.nick, {NicknameChanged})
    {
      var receiver, j := FindByNick(st.nick.value);
      assert sender.View() == state.occupants[i];
      if receiver == sender {
        return true;
      }
      if receiver != null {
        wire.Send(Bounce(st.from, OccupantConflict));
        return false;
      }
      if sender.role <= VISITOR && VisitorPresence !in flags {
        // A silent visitor keeps its nick.
        return false;
      }
      BroadcastPresence(sender, i, st.nick, {NicknameChanged}, wire);
      sender.nick := st.nick.value;
      Refresh(sender, i);
      return true;
    }

    /** A stanza from an occupant: a departure, an update or a change of nick. */
    method Update(sender: Participant, ghost i: nat, st: Stanza, wire: Wire)
      requires Valid() && st.PresenceIn? && i < |participants| && participants[i] == sender
      modifies this, sender, wire
      ensures Valid() && SameOrFresh()
      ensures state == RoutePresenceInside(old(state), i, st).state
      ensures wire.sent == old(wire.sent) + RoutePresenceInside(old(state), i, st).sent
    {
      if st.gone {
        DepartWith(sender, i, st.inner, wire);
        return;
      }
      if st.nick.Some? {
        var ok := ChangeNick(sender, i, st, wire);
        if !ok {
          return;
        }
      }
      ghost var renamed := state;
      ghost var told := wire.sent;
      AnnounceWith(sender, i, st.inner, false, wire);
      Associates(old(wire.sent), told[|old(wire.sent)|..], Announce(renamed, i, st.inner, false).sent);
    }

    method RoutePresence(st: Stanza, acl: Acl, wire: Wire)
      requires Valid() && st.PresenceIn?
      modifies this, participants, wire
      ensures Valid() && SameOrFresh()
      ensures state == RoomModel.RoutePresence(old(state), acl, st).state
      ensures wire.sent == old(wire.sent) + RoomModel.RoutePresence(old(state), acl, st).sent
    {
      var sender, i := FindByJid(st.from);
      if sender != null {
        Update(sender, i, st, wire);
      } else {
        Enter(st, acl, wire);
      }
    }

    // ----- The affected list -----

    /** The list holds the occupants at these positions, in this order. */
    ghost predicate Linked(list: AffectedList, affected: seq<nat>)
      reads this, list, list.chain
    {
      && list.Valid()
      && |list.chain| == |affected|
      && forall k :: 0 <= k < |affected| ==> affected[k] < |participants| && list.chain[k] == participants[affected[k]]
    }

    /** The room and the list are what `m` says. */
    ghost predicate Holds(list: AffectedList, m: Marked)
      reads this, participants, list, list.chain
    {
      Valid() && Linked(list, m.affected) && m.state == state && m.Valid()
    }

    /** An occupant that is not marked is not on the list yet. */
    lemma {:induction false} UnmarkedIsNotLinked(list: AffectedList, i: nat, m: Marked)
      requires i < |participants| && Holds(list, m) && !participants[i].included
      ensures i !in m.affected && participants[i] !in list.chain
    {
      assert participants[i].View() == state.occupants[i];
    }

    method LinkAffected(list: AffectedList, p: Participant, ghost i: nat, reason: Option<string>, ghost m: Marked)
      requires i < |participants| && participants[i] == p && Holds(list, m)
      modifies list, participants
      ensures ValidBut(i) && Linked(list, Mark(m, i, reason).affected)
      ensures p.View() == Mark(m, i, reason).state.occupants[i]
    {
      assert p.View() == state.occupants[i];
      if !p.included {
        UnmarkedIsNotLinked(list, i, m);
        LinkedMore(list.chain, m.affected, i);
      }
      assert forall q :: q in list.chain ==> q in participants;
      list.Add(p, reason);
    }

    lemma {:induction false} LinkedMore(chain: seq<Participant>, affected: seq<nat>, i: nat)
      requires |chain| == |affected| && i < |participants|
      requires forall k :: 0 <= k < |affected| ==> affected[k] < |participants| && chain[k] == participants[affected[k]]
      ensures forall k :: 0 <= k < |affected| + 1 ==>
                && (affected + [i])[k] < |participants|
                && (chain + [participants[i]])[k] == participants[(affected + [i])[k]]
    {
    }

    method MarkAffected(list: AffectedList, p: Participant, ghost i: nat, reason: Option<string>, ghost m: Marked)
        returns (ghost r: Marked)
      requires i < |participants| && participants[i] == p && Holds(list, m)
      modifies this`state, list, participants
      ensures r == Mark(m, i, reason) && Holds(list, r)
    {
      LinkAffected(list, p, i, reason, m);
      Refresh(p, i);
      r := Mark(m, i, reason);
    }

    /** Give the occupant a role and an affiliation, and mark it. */
    method ChangeAndMark(list: AffectedList, p: Participant, ghost i: nat, role: Role, affiliation: Affiliation,
                         reason: Option<string>, ghost m: Marked) returns (ghost r: Marked)
      requires i < |participants| && participants[i] == p && Holds(list, m)
      modifies this`state, list, participants
      ensures r == Mark(m.(state := WithOccupant(m.state, i,
                       m.state.occupants[i].(role := role, affiliation := affiliation))), i, reason)
      ensures Holds(list, r)
    {
      assert p.View() == state.occupants[i];
      p.role := role;
      p.affiliation := affiliation;
      Refresh(p, i);
      r := MarkAffected(list, p, i, reason, m.(state := state));
    }

    // ----- muc#admin set -----

    method ChangeRole(list: AffectedList, sender: Participant, ghost i: nat, nick: string, role: Role,
                      reason: Option<string>, ghost m: Marked) returns (error: Option<Error>, ghost r: Marked)
      requires i < |participants| && participants[i] == sender && Holds(list, m)
      modifies this`state, list, participants
      ensures AdminResult(r, error) == RoleItem(m, i, nick, role, reason) && Holds(list, r)
    {
      var receiver, j := FindByNick(nick);
      if receiver == null {
        return Some(RecipientNotInRoom), m;
      }
      assert receiver.View() == state.occupants[j] && sender.View() == state.occupants[i];
      if receiver.affiliation >= ADMIN // admins keep their role
         || (sender.affiliation < ADMIN // moderators rule those below them
             && (receiver.role >= MODERATOR || role >= MODERATOR)) {
        return Some(PrivilegeLevel), m;
      }
      r := ChangeAndMark(list, receiver, j, role, receiver.affiliation, reason, m);
      return None, r;
    }

    method RecomputeFor(
        list: AffectedList, acl: Acl, receiver: Participant, ghost i: nat, reason: Option<string>, ghost m: Marked)
        returns (ghost r: Marked)
      requires i < |participants| && participants[i] == receiver && Holds(list, m)
      modifies this`state, list, participants
      ensures r == RecomputeOne(m, acl, i, reason) && Holds(list, r)
    {
      assert receiver.View() == state.occupants[i];
      r := m;
      var affiliation := LookUp(lists, acl, receiver.jid);
      if affiliation != receiver.affiliation {
        var role :=
          if affiliation >= ADMIN then MODERATOR
          else if affiliation == OUTCAST then ROLE_NONE
          else PARTICIPANT;
        r := ChangeAndMark(list, receiver, i, role, affiliation, reason, m);
      }
    }

    /** The room and its marks after each turn of the loop from position `i` on. */
    static lemma {:induction false} TurnsOf(m: Marked, acl: Acl, i: nat, reason: Option<string>)
      returns (turns: seq<Marked>)
      requires m.Valid() && i <= |m.state.occupants|
      ensures |turns| == |m.state.occupants| - i + 1 && turns[0] == m
      ensures turns[|turns| - 1] == Recompute(m, acl, i, reason)
      ensures InTurn(turns, acl, i, reason)
      decreases |m.state.occupants| - i
    {
      turns := [m];
      if i < |m.state.occupants| {
        var later := TurnsOf(RecomputeOne(m, acl, i, reason), acl, i + 1, reason);
        turns := [m] + later;
        forall k | 0 <= k < |turns| - 1
          ensures IsTurn(turns, k, acl, i, reason)
        {
          assert k == 0 || IsTurn(later, k - 1, acl, i + 1, reason);
        }
      }
    }

    static ghost predicate IsTurn(turns: seq<Marked>, k: nat, acl: Acl, i: nat, reason: Option<string>) {
      && k + 1 < |turns|
      && turns[k].Valid()
      && i + k < |turns[k].state.occupants|
      && turns[k + 1] == RecomputeOne(turns[k], acl, i + k, reason)
    }

    static ghost predicate InTurn(turns: seq<Marked>, acl: Acl, i: nat, reason: Option<string>) {
      forall k :: 0 <= k < |turns| - 1 ==> IsTurn(turns, k, acl, i, reason)
    }

    method RecomputeAll(list: AffectedList, acl: Acl, reason: Option<string>, ghost m: Marked) returns (ghost r: Marked)
      requires Holds(list, m)
      modifies this`state, list, participants
      ensures r == Recompute(m, acl, 0, reason) && Holds(list, r)
    {
      ghost var turns := TurnsOf(m, acl, 0, reason);
      var cursor := 0;
      while cursor < |participants|
        invariant cursor <= |participants|
        invariant Holds(list, turns[cursor])
      {
        RecomputeTurn(list, acl, cursor, reason, turns);
        cursor := cursor + 1;
      }
      r := turns[cursor];
    }

    /** One turn of that loop. */
    method RecomputeTurn(list: AffectedList, acl: Acl, cursor: nat, reason: Option<string>, ghost turns: seq<Marked>)
      requires cursor < |participants| == |turns| - 1
      requires InTurn(turns, acl, 0, reason) && Holds(list, turns[cursor])
      modifies this`state, list, participants
      ensures Holds(list, turns[cursor + 1])
    {
      assert IsTurn(turns, cursor, acl, 0, reason);
      ghost var r := RecomputeFor(list, acl, participants[cursor], cursor, reason, turns[cursor]);
    }

    method ChangeAffiliation(list: AffectedList, acl: Acl, sender: Participant, ghost i: nat, jid: Jid,
                             affiliation: Affiliation, reason: Option<string>, ghost m: Marked)
        returns (error: Option<Error>, ghost r: Marked)
      requires i < |participants| && participants[i] == sender && Holds(list, m)
      modifies this`state, this`lists, list, participants
      ensures AdminResult(r, error) == AffiliationItem(m, acl, i, jid, affiliation, reason) && Holds(list, r)
    {
      assert sender.View() == state.occupants[i];
      if sender.affiliation < ADMIN {
        return Some(PrivilegeLevel), m;
      }
      var ok := AddAffiliation(sender, affiliation, jid, reason);
      if !ok {
        return Some(PrivilegeLevel), m;
      }
      r := m.(state := state);
      r := RecomputeAll(list, acl, reason, r);
      return None, r;
    }

    /** The item loop: the first refused item ends it, and earlier items stay applied. */
    method ApplyAll(list: AffectedList, acl: Acl, sender: Participant, ghost i: nat, items: seq<Item>)
        returns (error: Option<Error>, ghost r: Marked)
      requires i < |participants| && participants[i] == sender && Holds(list, Marked(state, []))
      modifies this`state, this`lists, list, participants
      ensures AdminResult(r, error) == ApplyItems(Marked(old(state), []), acl, i, items) && Holds(list, r)
    {
      ghost var start := Marked(state, []);
      r := start;
      var n := 0;
      while n < |items|
        invariant n <= |items|
        invariant Holds(list, r)
        invariant ApplyItems(start, acl, i, items) == ApplyItems(r, acl, i, items[n..])
      {
        var item := items[n];
        assert items[n..][1..] == items[n + 1..];
        if item.Malformed? {
          return Some(BadRequest), r;
        }
        if (item.role.Some? && (item.nick.None? || item.nick.value == ""))
           || (item.affiliation.Some? && item.jid.None?)
           || (item.role.None? == item.affiliation.None?) {
          return Some(BadRequest), r;
        }
        if item.role.Some? {
          error, r := ChangeRole(list, sender, i, item.nick.value, item.role.value, item.reason, r);
        } else {
          error, r := ChangeAffiliation(list, acl, sender, i, item.jid.value, item.affiliation.value, item.reason, r);
        }
        if error.Some? {
          return;
        }
        n := n + 1;
      }
      return None, r;
    }

    // ----- muc#owner set -----

    method Configure(aclRole: int, options: seq<ConfigOption>)
      requires Valid()
      modifies this
      ensures Valid() && participants == old(participants)
      ensures state == SetOptions(old(state), aclRole, options)
    {
      var n := 0;
      while n < |options|
        invariant n <= |options| && participants == old(participants)
        invariant Valid()
        invariant SetOptions(old(state), aclRole, options) == SetOptions(state, aclRole, options[n..])
      {
        assert options[n..][1..] == options[n + 1..];
        match options[n] {
          case SetFlag(flag, on) =>
            flags := if on then flags + {flag} else flags - {flag};
          case SetPersistent(on) =>
            if aclRole >= ACL_MUC_PERSIST {
              flags := if on then flags + {Persistent} else flags - {Persistent};
            }
          case SetMaxUsers(users) =>
            maxSize := users;
            if maxSize <= 0 || maxSize > PARTICIPANTS_LIMIT {
              maxSize := PARTICIPANTS_LIMIT;
            }
          case SetDefaultRole(member) =>
            defaultRole := if member then PARTICIPANT else VISITOR;
          case SetSecret(secret) =>
            password := Some(secret);
          case OtherOption =>
        }
        state := SetOption(state, aclRole, options[n]);
        n := n + 1;
      }
    }

    method DestroyRoom(list: AffectedList) returns (ghost r: Marked)
      requires Holds(list, Marked(state, []))
      modifies this`state, this`flags, list, participants
      ensures r == OwnerSet(old(state), 0, Destroy) && Holds(list, r)
    {
      flags := flags + {Destroyed};
      state := state.(flags := flags);
      ghost var start := Marked(state, []);
      r := start;
      var cursor := 0;
      while cursor < |participants|
        invariant cursor <= |participants|
        invariant Holds(list, r)
        invariant DismissAll(start, 0) == DismissAll(r, cursor)
      {
        var receiver := participants[cursor];
        assert receiver.View() == state.occupants[cursor];
        r := ChangeAndMark(list, receiver, cursor, ROLE_NONE, NONE, None, r);
        cursor := cursor + 1;
      }
    }

    method Purge(list: AffectedList) returns (ghost r: Marked)
      requires Holds(list, Marked(state, []))
      modifies this`state, list, participants
      ensures r == PurgeNonMembers(Marked(old(state), []), 0) && Holds(list, r)
    {
      ghost var start := Marked(state, []);
      r := start;
      var cursor := 0;
      while cursor < |participants|
        invariant cursor <= |participants|
        invariant Holds(list, r)
        invariant PurgeNonMembers(start, 0) == PurgeNonMembers(r, cursor)
      {
        var receiver := participants[cursor];
        assert receiver.View() == state.occupants[cursor];
        if receiver.affiliation < MEMBER {
          r := ChangeAndMark(list, receiver, cursor, ROLE_NONE, receiver.affiliation, Some(MEMBERS_ONLY_REASON), r);
        }
        cursor := cursor + 1;
      }
    }

    method OwnerAct(list: AffectedList, acl: Acl, sender: Participant, ghost i: nat, action: OwnerAction)
        returns (ghost r: Marked)
      requires i < |participants| && participants[i] == sender && Holds(list, Marked(state, []))
      modifies this, list, participants
      ensures participants == old(participants)
      ensures r == OwnerSet(old(state), AclRole(acl, old(state).occupants[i].jid), action) && Holds(list, r)
    {
      assert sender.View() == state.occupants[i];
      match action {
        case Destroy =>
          r := DestroyRoom(list);
        case Configure(options) =>
          var aclRole := FindAclRole(acl, sender.jid);
          Configure(aclRole, options);
          r := Marked(state, []);
          if MembersOnly in flags {
            r := Purge(list);
          }
      }
    }

    // ----- The end of an IQ -----

    /** Announce one affected occupant; true when it must leave. */
    method AnnounceVerdict(p: Participant, ghost i: nat, wire: Wire) returns (leaves: bool)
      requires Valid() && i < |participants| && participants[i] == p
      modifies this`state, p, wire
      ensures Valid() && p.next == old(p.next)
      ensures var settled := WithOccupant(old(state), i, Settled(flags, old(state).occupants[i]));
              && leaves == (settled.occupants[i].role == ROLE_NONE)
              && wire.sent == old(wire.sent) + Broadcast(settled, i, None, Verdict(flags, old(state).occupants[i]).1)
              && state == (if leaves then settled
                           else WithOccupant(settled, i, settled.occupants[i].(reason := None)))
    {
      assert p.View() == state.occupants[i];
      p.included := false;
      var codes := {};
      if Destroyed in flags {
        p.role := ROLE_NONE;
      } else if p.affiliation == OUTCAST {
        p.role := ROLE_NONE;
        codes := {Banned};
      } else if MembersOnly in flags && p.affiliation < MEMBER {
        p.role := ROLE_NONE;
        codes := {NonMemberRemoved};
      } else if p.role == ROLE_NONE {
        codes := {Kicked};
      }
      if p.role == ROLE_NONE {
        p.presence := None;
      }
      Refresh(p, i);
      BroadcastPresence(p, i, None, codes, wire);
      leaves := p.role == ROLE_NONE;
      if !leaves {
        p.reason := None;
        Refresh(p, i);
      }
    }

    /** What is left of the chain stands at these positions. */
    ghost predicate Remaining(chain: seq<Participant>, current: Participant?, rest: seq<nat>)
      reads this, chain
    {
      && ChainFrom(chain, current)
      && |chain| == |rest|
      && forall k :: 0 <= k < |rest| ==> rest[k] < |participants| && chain[k] == participants[rest[k]]
    }

    /** The successor of an announced occupant, and what is left of the list after it. */
    lemma {:induction false} RestOfChain(p: Participant, chain: seq<Participant>, rest: seq<nat>)
      requires Valid() && Remaining(chain, p, rest) && Positions(state, rest) && chain != []
      ensures Remaining(chain[1..], p.next, rest[1..]) && Positions(state, rest[1..])
      ensures rest[0] !in rest[1..]
    {
    }

    /** An announced occupant leaves; the rest of the list is renumbered. */
    method LeaveFromList(
        p: Participant, ghost i: nat, current: Participant?, ghost chain: seq<Participant>, ghost rest: seq<nat>)
      requires Valid() && i < |participants| && participants[i] == p && i !in rest
      requires Remaining(chain, current, rest) && Positions(state, rest)
      modifies this
      ensures Valid() && participants == Without(old(participants), i)
      ensures state == RoomModel.Leave(old(state), i)
      ensures Remaining(chain, current, Shifted(rest, i)) && Positions(state, Shifted(rest, i))
    {
      Leave(p, i);
    }

    /** One turn of the final loop. The successor is read before the occupant leaves. */
    method FinishOne(p: Participant, wire: Wire, ghost chain: seq<Participant>, ghost rest: seq<nat>)
        returns (current: Participant?, ghost after: seq<nat>)
      requires Valid() && Remaining(chain, p, rest) && Positions(state, rest) && chain != []
      modifies this, p, wire
      ensures Valid() && Remaining(chain[1..], current, after) && Positions(state, after)
      ensures forall k :: 0 <= k < |participants| ==> participants[k] in old(participants)
      ensures |after| == |rest| - 1
      ensures Same(Finish(old(state), rest), old(wire.sent), Finish(state, after), wire.sent)
    {
      ghost var i := rest[0];
      ghost var s := state;
      var leaves := AnnounceVerdict(p, i, wire);
      RestOfChain(p, chain, rest);
      current := p.next;
      after := rest[1..];
      if leaves {
        LeaveFromList(p, i, current, chain[1..], after);
        after := Shifted(after, i);
      }
      ghost var settled := WithOccupant(s, i, Settled(s.flags, s.occupants[i]));
      Associates(old(wire.sent), Broadcast(settled, i, None, Verdict(s.flags, s.occupants[i]).1),
                 Finish(state, after).sent);
    }

    /** Two ways to go on come to the same state and the same packets in all. */
    static ghost predicate Same(f: Outcome, before: seq<Packet>, g: Outcome, now: seq<Packet>) {
      f.state == g.state && now + g.sent == before + f.sent
    }

    /** The final loop handles every affected occupant once, in order. */
    method FinishAll(list: AffectedList, wire: Wire, ghost affected: seq<nat>)
      requires Valid() && Linked(list, affected) && Positions(state, affected)
      modifies this, participants, wire
      ensures Valid() && forall k :: 0 <= k < |participants| ==> participants[k] in old(participants)
      ensures state == Finish(old(state), affected).state
      ensures wire.sent == old(wire.sent) + Finish(old(state), affected).sent
    {
      var current := list.first;
      ghost var chain, rest := list.chain, affected;
      while current != null
        invariant Valid() && Remaining(chain, current, rest) && Positions(state, rest)
        invariant forall k :: 0 <= k < |participants| ==> participants[k] in old(participants)
        invariant Same(Finish(old(state), affected), old(wire.sent), Finish(state, rest), wire.sent)
        decreases |rest|
      {
        assert current == participants[rest[0]];
        current, rest := FinishOne(current, wire, chain, rest);
        chain := chain[1..];
      }
    }

    // ----- IQ stanzas -----

    method RouteIqToOccupant(sender: Participant?, ghost i: nat, st: Stanza, wire: Wire)
      requires Valid() && st.Iq? && st.nick.Some? && i <= |participants|
      requires if i < |participants| then sender == participants[i] else sender == null
      modifies wire
      ensures wire.sent == old(wire.sent) + RoomModel.RouteIqToOccupant(state, i, st).sent
    {
      if sender == null {
        wire.Send(Bounce(st.from, ExternalIq));
        return;
      }
      if IqProxy !in flags {
        wire.Send(Bounce(st.from, IqProhibited));
        return;
      }
      var receiver, j := FindByNick(st.nick.value);
      if receiver == null {
        wire.Send(Bounce(st.from, RecipientNotInRoom));
        return;
      }
      assert receiver.View() == state.occupants[j] && sender.View() == state.occupants[i];
      var to := receiver.jid;
      if st.kind == Get && st.vcard {
        to := to.(resource := None);
      }
      wire.Send(ProxiedIq(to, sender.nick));
    }

    method RouteGet(sender: Participant?, ghost i: nat, st: Stanza, wire: Wire)
      requires Valid() && st.Iq? && i <= |participants|
      requires if i < |participants| then sender == participants[i] else sender == null
      modifies wire
      ensures wire.sent == old(wire.sent) + RoomModel.RouteGet(state, i, st).sent
    {
      assert sender != null ==> sender.View() == state.occupants[i];
      var reply: Packet;
      match st.query {
        case DiscoInfo =>
          reply := IqResult(st.from, RoomInfo);
        case DiscoItems =>
          reply :=
            if PublicParticipants in flags then IqResult(st.from, RoomItems) else Bounce(st.from, NotImplemented);
        case Admin(items) =>
          if items.None? {
            reply := Bounce(st.from, BadRequest);
          } else if sender == null {
            reply := Bounce(st.from, ExternalIq);
          } else if sender.affiliation < ADMIN {
            reply := Bounce(st.from, PrivilegeLevel);
          } else if items.value == [] || items.value[0].Malformed? || items.value[0].affiliation.None?
                    || items.value[0].affiliation.value == NONE {
            reply := Bounce(st.from, BadRequest);
          } else {
            var affiliation := items.value[0].affiliation.value;
            reply := IqResult(st.from, AffiliationItems(affiliation, lists[affiliation]));
          }
        case Owner(_) =>
          if sender == null {
            reply := Bounce(st.from, ExternalIq);
          } else if sender.affiliation < OWNER {
            reply := Bounce(st.from, PrivilegeLevel);
          } else {
            reply := IqResult(st.from, RoomConfig);
          }
        case _ =>
          reply := Bounce(st.from, NotImplemented);
      }
      wire.Send(reply);
    }

    /** A set up to its reply: the affected occupants are on the list. */
    method ApplySet(list: AffectedList, sender: Participant?, ghost i: nat, st: Stanza, acl: Acl)
        returns (error: Option<Error>, reply: Reply, ghost m: Marked)
      requires Holds(list, Marked(state, [])) && st.Iq? && i <= |participants|
      requires if i < |participants| then sender == participants[i] else sender == null
      modifies this, list, participants
      ensures participants == old(participants) && Holds(list, m)
      ensures SetQuery(old(state), acl, i, st) == if error.Some? then Refuse(state, error.value) else Accept(m, reply)
    {
      assert sender != null ==> sender.View() == state.occupants[i];
      m := Marked(state, []);
      reply := Empty;
      match st.query {
        case Admin(items) =>
          if items.None? {
            return Some(BadRequest), reply, m;
          }
          if sender == null {
            return Some(ExternalIq), reply, m;
          }
          if sender.role < MODERATOR {
            return Some(PrivilegeLevel), reply, m;
          }
          error, m := ApplyAll(list, acl, sender, i, items.value);
          reply := AffiliationItems(OUTCAST, []);
        case Owner(action) =>
          if action.None? {
            return Some(BadRequest), reply, m;
          }
          if sender == null {
            return Some(ExternalIq), reply, m;
          }
          if sender.affiliation < OWNER {
            return Some(PrivilegeLevel), reply, m;
          }
          if action.value.None? {
            return Some(NotImplemented), reply, m;
          }
          m := OwnerAct(list, acl, sender, i, action.value.value);
          error := None;
        case _ =>
          return Some(NotImplemented), reply, m;
      }
    }

    static lemma {:induction false} SetIsRouted(
        s: RoomState, acl: Acl, i: nat, st: Stanza, q: SetResult, after: Outcome)
      requires st.Iq? && st.kind == Set && !st.query.NoQuery? && i <= |s.occupants|
      requires q == SetQuery(s, acl, i, st) && after == RouteIqToRoom(s, acl, i, st)
      ensures q.Refuse? ==> after == Outcome(q.state, [Bounce(st.from, q.error)])
      ensures q.Accept? ==>
                var f := Finish(q.marked.state, q.marked.affected);
                after == Outcome(f.state, [IqResult(st.from, q.reply)] + f.sent)
    {
    }

    method RouteSet(sender: Participant?, ghost i: nat, st: Stanza, acl: Acl, wire: Wire)
      requires Valid() && st.Iq? && st.kind == Set && !st.query.NoQuery? && i <= |participants|
      requires if i < |participants| then sender == participants[i] else sender == null
      modifies this, participants, wire
      ensures Valid() && forall k :: 0 <= k < |participants| ==> participants[k] in old(participants)
      ensures state == RouteIqToRoom(old(state), acl, i, st).state
      ensures wire.sent == old(wire.sent) + RouteIqToRoom(old(state), acl, i, st).sent
    {
      var list := new AffectedList();
      ghost var after := RouteIqToRoom(state, acl, i, st);
      SetIsRouted(state, acl, i, st, SetQuery(state, acl, i, st), after);
      var error, reply, m := ApplySet(list, sender, i, st, acl);
      if error.Some? {
        wire.Send(Bounce(st.from, error.value));
      } else {
        Answer(list, st.from, reply, wire, m.affected);
      }
    }

    /** The reply to an accepted query, and then its consequences. */
    method Answer(list: AffectedList, to: Jid, reply: Reply, wire: Wire, ghost affected: seq<nat>)
      requires Valid() && Linked(list, affected) && Positions(state, affected)
      modifies this, participants, wire
      ensures Valid() && forall k :: 0 <= k < |participants| ==> participants[k] in old(participants)
      ensures state == Finish(old(state), affected).state
      ensures wire.sent == old(wire.sent) + ([IqResult(to, reply)] + Finish(old(state), affected).sent)
    {
      ghost var all := Finish(state, affected);
      wire.Send(IqResult(to, reply));
      FinishAll(list, wire, affected);
      Associates(old(wire.sent), [IqResult(to, reply)], all.sent);
    }

    method RouteIq(st: Stanza, acl: Acl, wire: Wire)
      requires Valid() && st.Iq?
      modifies this, participants, wire
      ensures Valid() && SameOrFresh()
      ensures state == RoomModel.RouteIq(old(state), acl, st).state
      ensures wire.sent == old(wire.sent) + RoomModel.RouteIq(old(state), acl, st).sent
    {
      var sender, i := FindByJid(st.from);
      if st.nick.Some? {
        RouteIqToOccupant(sender, i, st, wire);
      } else if st.query.NoQuery? {
        wire.Send(Bounce(st.from, BadRequest));
      } else if st.kind == Get {
        RouteGet(sender, i, st, wire);
      } else if st.kind == Set {
        RouteSet(sender, i, st, acl, wire);
      } else {
        wire.Send(Bounce(st.from, NotImplemented));
      }
    }

    /** room_route: one stanza takes the room to exactly the state the model says, and
     *  sends exactly the packets the model says. */
    method Route(st: Stanza, acl: Acl, wire: Wire)
      requires Valid()
      modifies this, participants, wire
      ensures Valid() && SameOrFresh()
      ensures state == RoomModel.Route(old(state), acl, st).state
      ensures wire.sent == old(wire.sent) + RoomModel.Route(old(state), acl, st).sent
    {
      match st {
        case ErrorStanza(from) => RouteError(from, wire);
        case PresenceIn(_, _, _, _, _) => RoutePresence(st, acl, wire);
        case Iq(_, _, _, _, _) => RouteIq(st, acl, wire);
      }
    }
  }
}
