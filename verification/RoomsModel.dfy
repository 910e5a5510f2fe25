/** The table of rooms (src/room/rooms.c) and whole runs from an empty table. */
module RoomsModel {
  import opened Common
  import opened Jids
  import opened Affiliations
  import opened RoomModel

  /** A stanza and the room node it is addressed to. */
  datatype Event = Event(node: string, stanza: Stanza)

  datatype TableOutcome = TableOutcome(table: seq<RoomState>, sent: seq<Packet>)

  /** The position of the first room with this node, or |table|. */
  function FindRoom(table: seq<RoomState>, node: string): (r: nat)
    ensures r <= |table|
    ensures r < |table| ==> table[r].node == node
    ensures forall i :: 0 <= i < r ==> table[i].node != node
  {
    if table == [] || table[0].node == node then 0 else 1 + FindRoom(table[1..], node)
  }

  predicate IsError(st: Stanza) {
    st.ErrorStanza? || (st.Iq? && st.kind == ErrorReply)
  }

  /** Route to the room at `i`, then drop the room if it was marked for removal. */
  function RouteAt(table: seq<RoomState>, i: nat, acl: Acl, st: Stanza): TableOutcome
    requires i < |table|
  {
    var after := Route(table[i], acl, st);
    TableOutcome(
      if Destroyed in after.state.flags then Without(table, i) else table[i := after.state],
      after.sent)
  }

  /** The stanza may create the room it is addressed to. */
  predicate Creates(acl: Acl, st: Stanza) {
    st.PresenceIn? && !st.gone && AclRole(acl, st.from) >= ACL_MUC_CREATE
  }

  /** A stanza to a room that is not there and is not created. */
  function Unanswered(st: Stanza): seq<Packet> {
    if IsError(st) then []
    else if !st.PresenceIn? || st.gone then [Bounce(st.from, RoomNotFound)]
    else [Bounce(st.from, CreationDenied)]
  }

  /** rooms_process: only a presence creates a room, and only for those who may. */
  function Process(table: seq<RoomState>, acl: Acl, e: Event): TableOutcome {
    var i := FindRoom(table, e.node);
    var st := e.stanza;
    if i < |table| then RouteAt(table, i, acl, st)
    else if Creates(acl, st) then RouteAt(table + [RoomInit(e.node)], i, acl, st)
    else TableOutcome(table, Unanswered(st))
  }

  /** A whole run from the empty table. */
  function Run(acl: Acl, events: seq<Event>): TableOutcome {
    if events == [] then TableOutcome([], [])
    else
      var before := Run(acl, events[..|events| - 1]);
      var step := Process(before.table, acl, events[|events| - 1]);
      TableOutcome(step.table, before.sent + step.sent)
  }
}

/** Laws of whole runs. */
module RoomsLaws {
  import opened Common
  import opened Jids
  import opened Affiliations
  import opened AffiliationLaws
  import opened RoomModel
  import opened RoomInvariants
  import opened RoomsModel
  import opened Roster
  import opened RosterLaws

  // ----- Every reachable room -----

  ghost predicate OneRoomPerNode(table: seq<RoomState>) {
    forall i, j :: 0 <= i < j < |table| ==> table[i].node != table[j].node
  }

  ghost predicate TableInv(table: seq<RoomState>, acl: Acl) {
    && OneRoomPerNode(table)
    && forall i :: 0 <= i < |table| ==> Destroyed !in table[i].flags && Inv(table[i], acl)
  }

  lemma {:induction false} NewRoomInv(node: string, acl: Acl)
    ensures Inv(RoomInit(node), acl) && Destroyed !in RoomInit(node).flags && AtRest(RoomInit(node))
  {
  }

  lemma {:induction false} RecomputeKeepsNode(m: Marked, acl: Acl, i: nat, reason: Option<string>)
    requires m.Valid() && i <= |m.state.occupants|
    ensures Recompute(m, acl, i, reason).state.node == m.state.node
    decreases |m.state.occupants| - i
  {
    if i < |m.state.occupants| {
      RecomputeKeepsNode(RecomputeOne(m, acl, i, reason), acl, i + 1, reason);
    }
  }

  lemma {:induction false} ApplyItemsKeepNode(m: Marked, acl: Acl, sender: nat, items: seq<Item>)
    requires m.Valid() && sender < |m.state.occupants|
    ensures ApplyItems(m, acl, sender, items).marked.state.node == m.state.node
    decreases |items|
  {
    if items != [] {
      var item := items[0];
      if WellFormedItem(item) && item.affiliation.Some? {
        var moved := m.state.(lists := Moved(m.state.lists, item.affiliation.value, item.jid.value, item.reason));
        RecomputeKeepsNode(m.(state := moved), acl, 0, item.reason);
      }
      ApplyItemsKeepNode(ApplyItem(m, acl, sender, item).marked, acl, sender, items[1..]);
    }
  }

  lemma {:induction false} SweepsKeepNode(m: Marked, i: nat)
    requires m.Valid() && i <= |m.state.occupants|
    ensures DismissAll(m, i).state.node == m.state.node
    ensures PurgeNonMembers(m, i).state.node == m.state.node
    decreases |m.state.occupants| - i
  {
    if i < |m.state.occupants| {
      var o := m.state.occupants[i];
      var dismissed := WithOccupant(m.state, i, o.(role := ROLE_NONE, affiliation := NONE));
      SweepsKeepNode(Mark(m.(state := dismissed), i, None), i + 1);
      var purged := WithOccupant(m.state, i, o.(role := ROLE_NONE));
      SweepsKeepNode(Mark(m.(state := purged), i, Some(MEMBERS_ONLY_REASON)), i + 1);
      SweepsKeepNode(m, i + 1);
    }
  }

  lemma {:induction false} SetOptionsKeepNode(s: RoomState, aclRole: int, options: seq<ConfigOption>)
    ensures SetOptions(s, aclRole, options).node == s.node
    decreases |options|
  {
    if options != [] {
      SetOptionsKeepNode(SetOption(s, aclRole, options[0]), aclRole, options[1..]);
    }
  }

  lemma {:induction false} OwnerSetKeepsNode(s: RoomState, aclRole: int, action: OwnerAction)
    ensures OwnerSet(s, aclRole, action).state.node == s.node
  {
    match action
    case Destroy => SweepsKeepNode(Marked(s.(flags := s.flags + {Destroyed}), []), 0);
    case Configure(options) =>
      SetOptionsKeepNode(s, aclRole, options);
      SweepsKeepNode(Marked(SetOptions(s, aclRole, options), []), 0);
  }

  /** The room keeps its node, and its presences carry it. */
  ghost predicate SpeaksFor(node: string, after: Outcome) {
    && after.state.node == node
    && forall i :: 0 <= i < |after.sent| && after.sent[i].Presence? ==> after.sent[i].fromNode == node
  }

  lemma {:induction false} FinishSpeaks(s: RoomState, affected: seq<nat>)
    requires Positions(s, affected)
    ensures SpeaksFor(s.node, Finish(s, affected))
    decreases |affected|
  {
    if affected != [] {
      var i := affected[0];
      var settled := WithOccupant(s, i, Settled(s.flags, s.occupants[i]));
      if settled.occupants[i].role == ROLE_NONE {
        FinishSpeaks(Leave(settled, i), Shifted(affected[1..], i));
      } else {
        FinishSpeaks(WithOccupant(settled, i, settled.occupants[i].(reason := None)), affected[1..]);
      }
    }
  }

  lemma {:induction false} IntroductionsSpeak(s: RoomState, receiver: nat, n: nat)
    requires receiver < |s.occupants| && n <= |s.occupants|
    ensures SpeaksFor(s.node, Outcome(s, Introductions(s, receiver, n)))
    decreases n
  {
    if n > 0 {
      IntroductionsSpeak(s, receiver, n - 1);
    }
  }

  lemma {:induction false} IqSpeaks(s: RoomState, acl: Acl, st: Stanza)
    requires st.Iq?
    ensures SpeaksFor(s.node, RouteIq(s, acl, st))
  {
    var sender := FindByJid(s.occupants, st.from);
    if st.nick.None? && st.kind == Set {
      if sender < |s.occupants| {
        match st.query
        case Admin(items) =>
          if items.Some? { ApplyItemsKeepNode(Marked(s, []), acl, sender, items.value); }
        case Owner(action) =>
          if action.Some? && action.value.Some? {
            OwnerSetKeepsNode(s, AclRole(acl, s.occupants[sender].jid), action.value.value);
          }
        case _ =>
      }
      match SetQuery(s, acl, sender, st)
      case Refuse(_, _) =>
      case Accept(marked, _) => FinishSpeaks(marked.state, marked.affected);
    }
  }

  lemma {:induction false} InsideSpeaks(s: RoomState, i: nat, st: Stanza)
    requires st.PresenceIn? && i < |s.occupants|
    ensures SpeaksFor(s.node, RoutePresenceInside(s, i, st))
  {
  }

  lemma {:induction false} EntrySpeaks(joined: RoomState, inner: Option<string>)
    requires 0 < |joined.occupants|
    ensures var after := Announce(joined, 0, inner, true);
            SpeaksFor(joined.node, Outcome(after.state, Introductions(joined, 0, |joined.occupants|) + after.sent))
  {
    IntroductionsSpeak(joined, 0, |joined.occupants|);
  }

  lemma {:induction false} OutsideSpeaks(s: RoomState, acl: Acl, st: Stanza)
    requires st.PresenceIn?
    ensures SpeaksFor(s.node, RoutePresenceOutside(s, acl, st))
  {
    var founded := Founded(s, st.from);
    if !st.gone && st.nick.Some? && FindByNick(s.occupants, st.nick.value) == |s.occupants|
       && EntryError(founded, acl, st).None? {
      EntrySpeaks(Join(founded, st.from, st.nick.value, GetByJid(founded.lists, acl, st.from)), st.inner);
      EntryOutcome(s, acl, st, founded);
    }
  }

  lemma {:induction false} RouteSpeaks(s: RoomState, acl: Acl, st: Stanza)
    ensures SpeaksFor(s.node, Route(s, acl, st))
  {
    match st
    case ErrorStanza(_) =>
    case PresenceIn(_, _, _, _, _) =>
      var i := FindByJid(s.occupants, st.from);
      if i < |s.occupants| {
        InsideSpeaks(s, i, st);
      } else {
        OutsideSpeaks(s, acl, st);
      }
    case Iq(_, _, _, _, _) => IqSpeaks(s, acl, st);
  }

  lemma {:induction false} RouteAtKeeps(table: seq<RoomState>, i: nat, acl: Acl, st: Stanza)
    requires TableInv(table, acl) && i < |table|
    ensures TableInv(RouteAt(table, i, acl, st).table, acl)
  {
    RouteKeeps(table[i], acl, st);
    RouteSpeaks(table[i], acl, st);
    var after := RouteAt(table, i, acl, st).table;
    if |after| < |table| {
      assert forall k :: 0 <= k < |after| ==> after[k] == table[if k < i then k else k + 1];
    }
  }

  lemma {:induction false} ProcessKeeps(table: seq<RoomState>, acl: Acl, e: Event)
    requires TableInv(table, acl)
    ensures TableInv(Process(table, acl, e).table, acl)
  {
    var i := FindRoom(table, e.node);
    if i < |table| {
      RouteAtKeeps(table, i, acl, e.stanza);
    } else {
      NewRoomInv(e.node, acl);
      RouteAtKeeps(table + [RoomInit(e.node)], i, acl, e.stanza);
    }
  }

  /** In every run, whatever the stanzas: at most one room per node, none marked
   *  destroyed, and in every room the invariant. */
  lemma {:induction false} EveryRunKeeps(acl: Acl, events: seq<Event>)
    ensures TableInv(Run(acl, events).table, acl)
    decreases |events|
  {
    if events != [] {
      EveryRunKeeps(acl, events[..|events| - 1]);
      ProcessKeeps(Run(acl, events[..|events| - 1]).table, acl, events[|events| - 1]);
    }
  }

  /** The same, spelled out for one room of a run. */
  lemma {:induction false} EveryReachableRoom(acl: Acl, events: seq<Event>, s: RoomState)
    requires s in Run(acl, events).table
    ensures Keyed(s)
    ensures Coherent(s, acl)
    ensures Privileged(s)
    ensures Clean(s)
    ensures PartialMap(s.lists)
    ensures JustCreated in s.flags ==> s.occupants == [] && s.lists == NO_ENTRIES
    ensures s.occupants == [] && Persistent !in s.flags ==> JustCreated in s.flags
    ensures forall t :: t in Run(acl, events).table && t.node == s.node ==> t == s
  {
    EveryRunKeeps(acl, events);
  }

  // ----- What clients know, over runs -----

  /** What the client `who` knows of the room `node`: in the room, nobody who is not there, and
   *  all others without a mark if it has none itself; out of it, nothing. */
  ghost predicate ClientInformed(table: seq<RoomState>, node: string, who: Jid, known: Known) {
    var i := FindRoom(table, node);
    if i < |table| then Informed(table[i], who, known, []) else known == map[]
  }

  /** Nobody destroys a room in which an aborted set left somebody with a mark. */
  ghost predicate Gentle(acl: Acl, events: seq<Event>) {
    events == []
    || var before := events[..|events| - 1];
       var e := events[|events| - 1];
       var table := Run(acl, before).table;
       var i := FindRoom(table, e.node);
       Gentle(acl, before) && (i < |table| ==> !DestroysOverMarks(table[i], e.stanza))
  }

  /** A room of this node is found in one table as in the other. */
  ghost predicate FoundAlike(table: seq<RoomState>, after: seq<RoomState>, node: string) {
    var j, j' := FindRoom(table, node), FindRoom(after, node);
    && (j < |table| <==> j' < |after|)
    && (j < |table| ==> table[j] == after[j'])
  }

  lemma {:induction false} FoundBeside(table: seq<RoomState>, i: nat, s: RoomState, node: string)
    requires i < |table| && table[i].node != node && s.node == table[i].node
    ensures FoundAlike(table, table[i := s], node)
  {
    var after := table[i := s];
    var j, j' := FindRoom(table, node), FindRoom(after, node);
    assert forall k :: 0 <= k < |table| ==> after[k].node == table[k].node;
  }

  lemma {:induction false} FoundWithout(table: seq<RoomState>, i: nat, node: string)
    requires i < |table| && table[i].node != node && OneRoomPerNode(table)
    ensures FoundAlike(table, Without(table, i), node)
  {
    var after := Without(table, i);
    var j, j' := FindRoom(table, node), FindRoom(after, node);
    if j < |table| {
      assert after[if j > i then j - 1 else j] == table[j];
    }
    if j' < |after| {
      assert after[j'] == table[if j' >= i then j' + 1 else j'];
    }
  }

  lemma {:induction false} OtherRoomsUntouched(table: seq<RoomState>, i: nat, acl: Acl, st: Stanza, node: string)
    requires i < |table| && table[i].node != node && OneRoomPerNode(table)
    ensures FoundAlike(table, RouteAt(table, i, acl, st).table, node)
  {
    var s := Route(table[i], acl, st).state;
    RouteSpeaks(table[i], acl, st);
    FoundBeside(table, i, s, node);
    FoundWithout(table, i, node);
  }

  lemma {:induction false} RoomGone(table: seq<RoomState>, i: nat)
    requires i < |table| && OneRoomPerNode(table)
    ensures FindRoom(Without(table, i), table[i].node) == |table| - 1
  {
    var after := Without(table, i);
    forall j | 0 <= j < |after|
      ensures after[j].node != table[i].node
    {
      assert after[j] == table[if j < i then j else j + 1];
    }
  }

  lemma {:induction false} RoomThere(table: seq<RoomState>, i: nat)
    requires i < |table| && OneRoomPerNode(table)
    ensures FindRoom(table, table[i].node) == i
  {
  }

  lemma {:induction false} RouteAtInforms(
      table: seq<RoomState>, i: nat, acl: Acl, st: Stanza, node: string, who: Jid, r: Known)
    requires TableInv(table, acl) && i < |table| && !DestroysOverMarks(table[i], st)
    requires ClientInformed(table, node, who, r)
    ensures var after := RouteAt(table, i, acl, st);
            ClientInformed(after.table, node, who, ReceiveAll(r, node, who, after.sent))
  {
    var after := RouteAt(table, i, acl, st);
    var s := table[i];
    RouteAtKeeps(table, i, acl, st);
    RouteSpeaks(s, acl, st);
    RoomThere(table, i);
    if s.node != node {
      UnrelatedPackets(r, node, who, after.sent);
      OtherRoomsUntouched(table, i, acl, st, node);
    } else {
      RouteInforms(s, acl, st, who, r);
      EmptyIfDestroyedIff(s, acl, st);
      if Destroyed in Route(s, acl, st).state.flags {
        RoomGone(table, i);
      } else {
        RoomThere(after.table, i);
      }
    }
  }

  lemma {:induction false} NewRoomInforms(
      table: seq<RoomState>, acl: Acl, node: string, other: string, who: Jid, r: Known)
    requires TableInv(table, acl) && FindRoom(table, node) == |table| && ClientInformed(table, other, who, r)
    ensures var extended := table + [RoomInit(node)];
            TableInv(extended, acl) && ClientInformed(extended, other, who, r)
  {
    NewRoomInv(node, acl);
    var extended := table + [RoomInit(node)];
    assert extended[|table|] == RoomInit(node);
    var i := FindRoom(table, other);
    if i < |table| {
      assert extended[i] == table[i];
      RoomThere(extended, i);
    } else if node == other {
      RoomThere(extended, |table|);
    } else {
      assert FindRoom(extended, other) == |extended|;
    }
  }

  lemma {:induction false} ProcessInforms(table: seq<RoomState>, acl: Acl, e: Event, node: string, who: Jid, r: Known)
    requires TableInv(table, acl) && ClientInformed(table, node, who, r)
    requires var i := FindRoom(table, e.node); i < |table| ==> !DestroysOverMarks(table[i], e.stanza)
    ensures var after := Process(table, acl, e);
            ClientInformed(after.table, node, who, ReceiveAll(r, node, who, after.sent))
  {
    var i := FindRoom(table, e.node);
    if i < |table| {
      RouteAtInforms(table, i, acl, e.stanza, node, who, r);
    } else if !Creates(acl, e.stanza) {
      UnrelatedPackets(r, node, who, Unanswered(e.stanza));
    } else {
      NewRoomInforms(table, acl, e.node, node, who, r);
      RouteAtInforms(table + [RoomInit(e.node)], i, acl, e.stanza, node, who, r);
    }
  }

  /** In every run, aborted sets included, in which nobody destroys a room over a mark: for
   *  every room and every client, folding the packets sent to the client gives no nick that
   *  is not in the room, the affiliation and role of everybody without a mark if the client
   *  has none, and nothing if the client is not in the room. */
  lemma {:induction false} EveryClientIsInformed(acl: Acl, events: seq<Event>, node: string, who: Jid)
    requires Gentle(acl, events)
    ensures var run := Run(acl, events);
            ClientInformed(run.table, node, who, ReceiveAll(map[], node, who, run.sent))
    decreases |events|
  {
    if events != [] {
      var before := Run(acl, events[..|events| - 1]);
      var e := events[|events| - 1];
      EveryRunKeeps(acl, events[..|events| - 1]);
      EveryClientIsInformed(acl, events[..|events| - 1], node, who);
      ProcessInforms(before.table, acl, e, node, who, ReceiveAll(map[], node, who, before.sent));
      ReceiveInParts(map[], node, who, before.sent, Process(before.table, acl, e).sent);
    }
  }

  // ----- Roster agreement over runs -----

  /** No admin set of the run is bounced midway. */
  predicate Smooth(acl: Acl, events: seq<Event>) {
    events == []
    || var before := events[..|events| - 1];
       var e := events[|events| - 1];
       var table := Run(acl, before).table;
       var i := FindRoom(table, e.node);
       Smooth(acl, before) && (i < |table| ==> !BouncedMidway(table[i], acl, e.stanza))
  }

  /** What the client `who` knows of the room `node` is the room, or nothing. */
  ghost predicate ClientAgrees(table: seq<RoomState>, node: string, who: Jid, known: Known) {
    var i := FindRoom(table, node);
    if i < |table| then Synced(table[i], who, known) else known == map[]
  }

  ghost predicate AllAtRest(table: seq<RoomState>) {
    forall i :: 0 <= i < |table| ==> AtRest(table[i])
  }

  lemma {:induction false} ProcessRests(table: seq<RoomState>, acl: Acl, e: Event)
    requires TableInv(table, acl) && AllAtRest(table)
    requires var i := FindRoom(table, e.node); i < |table| ==> !BouncedMidway(table[i], acl, e.stanza)
    ensures AllAtRest(Process(table, acl, e).table)
  {
    var i := FindRoom(table, e.node);
    if i < |table| {
      RouteRests(table[i], acl, e.stanza);
    } else {
      NewRoomInv(e.node, acl);
      RouteRests(RoomInit(e.node), acl, e.stanza);
    }
  }

  /** Such a run leaves no mark, and so it destroys no room over one. */
  lemma {:induction false} SmoothRunsRest(acl: Acl, events: seq<Event>)
    requires Smooth(acl, events)
    ensures Gentle(acl, events) && AllAtRest(Run(acl, events).table)
    decreases |events|
  {
    if events != [] {
      var before, e := events[..|events| - 1], events[|events| - 1];
      var table := Run(acl, before).table;
      SmoothRunsRest(acl, before);
      EveryRunKeeps(acl, before);
      ProcessRests(table, acl, e);
    }
  }

  /** Roster agreement: in every run without an admin set bounced midway, for every room
   *  and every client, folding the packets sent to the client gives exactly the room's
   *  nicks, affiliations and roles if the client is in the room, and nothing if not. */
  lemma {:induction false} EveryClientAgrees(acl: Acl, events: seq<Event>, node: string, who: Jid)
    requires Smooth(acl, events)
    ensures var run := Run(acl, events);
            && AllAtRest(run.table)
            && ClientAgrees(run.table, node, who, ReceiveAll(map[], node, who, run.sent))
  {
    var run := Run(acl, events);
    var known := ReceiveAll(map[], node, who, run.sent);
    SmoothRunsRest(acl, events);
    EveryClientIsInformed(acl, events, node, who);
    var i := FindRoom(run.table, node);
    if i < |run.table| {
      QuietlyInformed(run.table[i], who, known);
    }
  }

  /** In such a run nobody who must go is ever left in a room. */
  lemma {:induction false} NobodyUnwelcomeStays(acl: Acl, events: seq<Event>, s: RoomState, i: nat)
    requires Smooth(acl, events) && s in Run(acl, events).table && i < |s.occupants|
    ensures !Unwelcome(s.flags, s.occupants[i])
  {
    SmoothRunsRest(acl, events);
    EveryReachableRoom(acl, events, s);
  }
}
