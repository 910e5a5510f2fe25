/** The room state machine on values (src/room/room.c). The class in Room.dfy is proved
 *  to compute exactly these functions; the laws of the room are proved about them.
 */
module RoomModel {
  import opened Common
  import opened Jids
  import opened Affiliations

  type Role = r: int | 0 <= r <= 3
  const ROLE_NONE: Role := 0
  const VISITOR: Role := 1
  const PARTICIPANT: Role := 2
  const MODERATOR: Role := 3

  const DEFAULT_MAX_SIZE := 100
  const PARTICIPANTS_LIMIT := 1024
  const REASONABLE_RAW_LIMIT := 0x10_0000

  datatype Flag =
    | AllowPm | ChangeSubject | EnableLogging | MembersOnly | ModeratedRoom
    | PasswordProtected | Persistent | PublicRoom | PublicParticipants
    | SemiAnonymous | IqProxy | Invites | VisitorsPm | VisitorPresence
    | JustCreated | Destroyed | Mewcat

  const DEFAULT_FLAGS: set<Flag> :=
    {AllowPm, ChangeSubject, ModeratedRoom, PublicRoom, PublicParticipants, IqProxy,
     SemiAnonymous, JustCreated, Invites}

  /** `included` and `reason` belong to the list of occupants affected by one query. */
  datatype Occupant = Occupant(
    jid: Jid, nick: string, affiliation: Affiliation, role: Role,
    presence: Option<string>, included: bool, reason: Option<string>)

  datatype RoomState = RoomState(
    node: string, flags: set<Flag>, defaultRole: Role, maxSize: int,
    password: Option<string>, subject: Option<string>,
    occupants: seq<Occupant>, lists: Lists)

  // ----- What the room sends -----

  datatype Status =
    | NonAnonymous | SelfPresence | LoggingEnabled | RoomCreated | Banned
    | NicknameChanged | Kicked | NonMemberRemoved

  datatype Error =
    | RecipientNotInRoom | OccupantConflict | OccupantsLimit | BannedFromRoom
    | MembersRequired | ExternalIq | IqProhibited | BadRequest | PrivilegeLevel
    | WrongPassword | NotImplemented | JidMalformed | RoomNotFound | CreationDenied

  datatype Reply =
    | RoomInfo | RoomItems | RoomConfig | Empty
    | AffiliationItems(affiliation: Affiliation, items: seq<Entry>)

  datatype Packet =
    | Presence(to: Jid, fromNode: string, fromNick: string, unavailable: bool,
               newNick: Option<string>, affiliation: Affiliation, role: Role,
               codes: set<Status>, realJid: Option<Jid>, content: Option<string>,
               reason: Option<string>)
    | Subject(to: Jid, fromNode: string, text: string)
    | Bounce(to: Jid, error: Error)
    | IqResult(to: Jid, reply: Reply)
    | ProxiedIq(to: Jid, fromNick: string)

  // ----- What the room receives -----

  /** One <item/> of a muc#admin query, or the mark of a malformed one. */
  datatype Item =
    | Malformed
    | Item(nick: Option<string>, jid: Option<Jid>, role: Option<Role>,
           affiliation: Option<Affiliation>, reason: Option<string>)

  /** The flags that a configuration form sets outright. */
  type ConfigFlag = f: Flag | f !in {JustCreated, Destroyed, Persistent, EnableLogging} witness AllowPm

  datatype ConfigOption =
    | SetFlag(flag: ConfigFlag, on: bool)
    | SetPersistent(on: bool)
    | SetMaxUsers(n: int)
    | SetDefaultRole(member: bool)
    | SetSecret(secret: string)
    | OtherOption

  datatype OwnerAction = Destroy | Configure(options: seq<ConfigOption>)

  /** The first <query/> with a namespace; a payload is None when its node is empty. */
  datatype Query =
    | NoQuery | DiscoInfo | DiscoItems | OtherNamespace
    | Admin(items: Option<seq<Item>>)
    | Owner(action: Option<Option<OwnerAction>>)

  datatype IqKind = Get | Set | Result | ErrorReply

  datatype Stanza =
    | ErrorStanza(from: Jid)
    | PresenceIn(from: Jid, nick: Option<string>, gone: bool, inner: Option<string>, password: Option<string>)
    | Iq(from: Jid, nick: Option<string>, kind: IqKind, query: Query, vcard: bool)

  // ----- Looking up occupants -----

  /** The position of the first occupant with this nick, or the number of occupants. */
  function FindByNick(occupants: seq<Occupant>, nick: string): (r: nat)
    ensures r <= |occupants|
    ensures r < |occupants| ==> occupants[r].nick == nick
    ensures forall i :: 0 <= i < r ==> occupants[i].nick != nick
  {
    if occupants == [] || occupants[0].nick == nick then 0
    else 1 + FindByNick(occupants[1..], nick)
  }

  /** An address without resource finds the first occupant with that bare address. */
  function LookupMode(jid: Jid): Mode {
    if jid.resource.None? then NodeAndHost else Full
  }

  function FindByJid(occupants: seq<Occupant>, jid: Jid): (r: nat)
    ensures r <= |occupants|
    ensures r < |occupants| ==> Matches(occupants[r].jid, jid, LookupMode(jid))
    ensures forall i :: 0 <= i < r ==> !Matches(occupants[i].jid, jid, LookupMode(jid))
  {
    if occupants == [] || Matches(occupants[0].jid, jid, LookupMode(jid)) then 0
    else 1 + FindByJid(occupants[1..], jid)
  }

  // ----- Presence broadcasts -----

  function RoomCodes(flags: set<Flag>): set<Status> {
    (if SemiAnonymous !in flags then {NonAnonymous} else {}) +
    (if EnableLogging in flags then {LoggingEnabled} else {}) +
    (if JustCreated in flags then {RoomCreated} else {})
  }

  /** Moderators see real addresses; others only in a room that is not semi-anonymous. */
  function VisibleJid(s: RoomState, subject: Jid, receiver: Role): Option<Jid> {
    if receiver == MODERATOR || SemiAnonymous !in s.flags then Some(subject) else None
  }

  /** The presence of occupant `i` as sent to occupant `k`. */
  function PresenceTo(s: RoomState, i: nat, k: nat, newNick: Option<string>, codes: set<Status>): Packet
    requires i < |s.occupants| && k < |s.occupants|
  {
    var o := s.occupants[i];
    var receiver := s.occupants[k];
    Presence(
      receiver.jid, s.node, o.nick, o.role == ROLE_NONE || NicknameChanged in codes, newNick,
      o.affiliation, o.role,
      if k == i then RoomCodes(s.flags) + {SelfPresence} + codes else codes,
      VisibleJid(s, o.jid, receiver.role), o.presence, o.reason)
  }

  /** room_broadcast_presence, to the first `n` occupants. */
  function BroadcastTo(s: RoomState, i: nat, newNick: Option<string>, codes: set<Status>, n: nat): (out: seq<Packet>)
    requires i < |s.occupants| && n <= |s.occupants|
    ensures |out| == n
    ensures forall k :: 0 <= k < n ==> out[k] == PresenceTo(s, i, k, newNick, codes)
  {
    seq(n, k requires 0 <= k < n => PresenceTo(s, i, k, newNick, codes))
  }

  function Broadcast(s: RoomState, i: nat, newNick: Option<string>, codes: set<Status>): seq<Packet>
    requires i < |s.occupants|
  {
    BroadcastTo(s, i, newNick, codes, |s.occupants|)
  }

  /** room_presences_send: the first `n` occupants but the receiver, as told to the receiver. */
  function Introductions(s: RoomState, receiver: nat, n: nat): seq<Packet>
    requires receiver < |s.occupants| && n <= |s.occupants|
  {
    if n == 0 then []
    else if n - 1 == receiver then Introductions(s, receiver, n - 1)
    else
      var o := s.occupants[n - 1];
      var r := s.occupants[receiver];
      Introductions(s, receiver, n - 1) +
      [Presence(r.jid, s.node, o.nick, false, None, o.affiliation, o.role, {},
                VisibleJid(s, o.jid, r.role), o.presence, None)]
  }

  // ----- Entering and leaving -----

  function RoomInit(node: string): RoomState {
    RoomState(node, DEFAULT_FLAGS, PARTICIPANT, DEFAULT_MAX_SIZE, None, None, [], NO_ENTRIES)
  }

  function RoleForAffiliation(s: RoomState, affiliation: Affiliation): Role {
    if affiliation == MEMBER then PARTICIPANT
    else if affiliation >= ADMIN then MODERATOR
    else s.defaultRole
  }

  /** The newcomer is put in front of the list. */
  function Join(s: RoomState, jid: Jid, nick: string, affiliation: Affiliation): RoomState {
    var newcomer := Occupant(jid, nick, affiliation, RoleForAffiliation(s, affiliation), None, false, None);
    s.(occupants := [newcomer] + s.occupants)
  }

  /** A room that is not persistent is marked for removal with its last occupant. */
  function Leave(s: RoomState, i: nat): RoomState
    requires i < |s.occupants|
  {
    var rest := Without(s.occupants, i);
    s.(occupants := rest,
       flags := if Persistent !in s.flags && rest == [] then s.flags + {Destroyed} else s.flags)
  }

  function WithOccupant(s: RoomState, i: nat, o: Occupant): RoomState
    requires i < |s.occupants|
  {
    s.(occupants := s.occupants[i := o])
  }

  // ----- Steps of the room -----

  /** The room after a stanza, and what it sent meanwhile. */
  datatype Outcome = Outcome(state: RoomState, sent: seq<Packet>)

  function Bounced(s: RoomState, to: Jid, error: Error): Outcome {
    Outcome(s, [Bounce(to, error)])
  }

  /** A message or presence of type "error" removes its sender. */
  function RouteError(s: RoomState, from: Jid): Outcome {
    var i := FindByJid(s.occupants, from);
    if i == |s.occupants| then Outcome(s, [])
    else
      var kicked := WithOccupant(s, i, s.occupants[i].(presence := Some(ERROR_NOTICE), role := ROLE_NONE));
      Outcome(Leave(kicked, i), Broadcast(kicked, i, None, {}))
  }

  const ERROR_NOTICE := "<status>This occupant is kicked from the room because he sent an error stanza</status>"

  /** The presence that is kept for newcomers: nothing if it is blank or oversized. */
  function Cached(presence: Option<string>): Option<string> {
    if presence.Some? && 0 < |presence.value| <= REASONABLE_RAW_LIMIT then presence else None
  }

  function ShowPresence(s: RoomState, i: nat, inner: Option<string>): RoomState
    requires i < |s.occupants|
  {
    var o := s.occupants[i];
    if o.role > VISITOR || VisitorPresence in s.flags then WithOccupant(s, i, o.(presence := inner)) else s
  }

  function ClearJustCreated(s: RoomState): RoomState {
    s.(flags := s.flags - {JustCreated})
  }

  function SubjectFor(s: RoomState, receiver: nat): seq<Packet>
    requires receiver < |s.occupants|
  {
    if s.subject.Some? then [Subject(s.occupants[receiver].jid, s.node, s.subject.value)] else []
  }

  /** The common end of route_presence for the occupant at `i` who goes away. */
  function Depart(s: RoomState, i: nat, inner: Option<string>): Outcome
    requires i < |s.occupants|
  {
    var shown := ShowPresence(s, i, inner);
    var gone := WithOccupant(shown, i, shown.occupants[i].(role := ROLE_NONE));
    Outcome(ClearJustCreated(Leave(gone, i)), Broadcast(gone, i, None, {}))
  }

  /** The common end of route_presence for the occupant at `i` who stays. */
  function Announce(s: RoomState, i: nat, inner: Option<string>, justJoined: bool): Outcome
    requires i < |s.occupants|
  {
    var shown := ShowPresence(s, i, inner);
    var kept := WithOccupant(shown, i, shown.occupants[i].(presence := Cached(shown.occupants[i].presence)));
    Outcome(ClearJustCreated(kept),
            Broadcast(shown, i, None, {}) + (if justJoined then SubjectFor(shown, i) else []))
  }

  /** The presence of an occupant: a departure, an update or a change of nick. */
  function RoutePresenceInside(s: RoomState, i: nat, st: Stanza): Outcome
    requires st.PresenceIn? && i < |s.occupants|
  {
    if st.gone then Depart(s, i, st.inner)
    else if st.nick.None? then Announce(s, i, st.inner, false)
    else
      var holder := FindByNick(s.occupants, st.nick.value);
      if holder == i then Announce(s, i, st.inner, false)
      else if holder < |s.occupants| then Bounced(s, st.from, OccupantConflict)
      else if s.occupants[i].role <= VISITOR && VisitorPresence !in s.flags then Outcome(s, [])
      else
        var renamed := WithOccupant(s, i, s.occupants[i].(nick := st.nick.value));
        var after := Announce(renamed, i, st.inner, false);
        Outcome(after.state, Broadcast(s, i, st.nick, {NicknameChanged}) + after.sent)
  }

  /** A room that was just created first makes the newcomer its listed owner. */
  function Founded(s: RoomState, from: Jid): RoomState {
    if JustCreated in s.flags then s.(lists := Moved(s.lists, OWNER, from, None)) else s
  }

  /** Why a newcomer may not enter; None lets it in. */
  function EntryError(s: RoomState, acl: Acl, st: Stanza): Option<Error>
    requires st.PresenceIn?
  {
    if AclRole(acl, st.from) >= ACL_MUC_ADMIN then None
    else if |s.occupants| >= s.maxSize then Some(OccupantsLimit)
    else
      var affiliation := GetByJid(s.lists, acl, st.from);
      if affiliation == OUTCAST then Some(BannedFromRoom)
      else if affiliation < OWNER && PasswordProtected in s.flags
              && s.password.Some? && st.password != s.password then Some(WrongPassword)
      else if MembersOnly in s.flags && affiliation < MEMBER then Some(MembersRequired)
      else None
  }

  function RoutePresenceOutside(s: RoomState, acl: Acl, st: Stanza): Outcome
    requires st.PresenceIn?
  {
    if st.gone then Outcome(s, [])
    else if st.nick.None? then Bounced(s, st.from, JidMalformed)
    else if FindByNick(s.occupants, st.nick.value) < |s.occupants| then Bounced(s, st.from, OccupantConflict)
    else
      var founded := Founded(s, st.from);
      var error := EntryError(founded, acl, st);
      if error.Some? then Bounced(founded, st.from, error.value)
      else
        var joined := Join(founded, st.from, st.nick.value, GetByJid(founded.lists, acl, st.from));
        var after := Announce(joined, 0, st.inner, true);
        Outcome(after.state, Introductions(joined, 0, |joined.occupants|) + after.sent)
  }

  function RoutePresence(s: RoomState, acl: Acl, st: Stanza): Outcome
    requires st.PresenceIn?
  {
    var i := FindByJid(s.occupants, st.from);
    if i < |s.occupants| then RoutePresenceInside(s, i, st) else RoutePresenceOutside(s, acl, st)
  }

  // ----- The affected list -----

  /** A room together with the positions of the occupants affected so far, in order:
   *  no position occurs twice, and each is marked as included. */
  datatype Marked = Marked(state: RoomState, affected: seq<nat>)
  {
    ghost predicate Valid() {
      && Positions(state, affected)
      && forall k :: 0 <= k < |affected| ==> state.occupants[affected[k]].included
    }
  }

  ghost predicate Positions(s: RoomState, affected: seq<nat>) {
    && (forall k :: 0 <= k < |affected| ==> affected[k] < |s.occupants|)
    && (forall j, k :: 0 <= j < k < |affected| ==> affected[j] != affected[k])
  }

  /** participant_set_affected: an occupant already marked is not marked again. */
  function Mark(m: Marked, i: nat, reason: Option<string>): (r: Marked)
    requires m.Valid() && i < |m.state.occupants|
    ensures r.Valid() && |r.state.occupants| == |m.state.occupants|
  {
    var o := m.state.occupants[i];
    if o.included then m
    else Marked(WithOccupant(m.state, i, o.(included := true, reason := reason)), m.affected + [i])
  }

  // ----- muc#admin set -----

  function RoleAfterChange(affiliation: Affiliation): Role {
    if affiliation >= ADMIN then MODERATOR
    else if affiliation == OUTCAST then ROLE_NONE
    else PARTICIPANT
  }

  /** Bring the cached affiliation of one occupant up to date. */
  function RecomputeOne(m: Marked, acl: Acl, i: nat, reason: Option<string>): (r: Marked)
    requires m.Valid() && i < |m.state.occupants|
    ensures r.Valid() && |r.state.occupants| == |m.state.occupants|
  {
    var o := m.state.occupants[i];
    var affiliation := GetByJid(m.state.lists, acl, o.jid);
    if affiliation == o.affiliation then m
    else
      Mark(m.(state := WithOccupant(m.state, i,
                o.(role := RoleAfterChange(affiliation), affiliation := affiliation))), i, reason)
  }

  /** The loop over all occupants from position `i` on. */
  function Recompute(m: Marked, acl: Acl, i: nat, reason: Option<string>): (r: Marked)
    requires m.Valid() && i <= |m.state.occupants|
    ensures r.Valid() && |r.state.occupants| == |m.state.occupants|
    decreases |m.state.occupants| - i
  {
    if i == |m.state.occupants| then m
    else Recompute(RecomputeOne(m, acl, i, reason), acl, i + 1, reason)
  }

  /** The result of the item loop: a bounce keeps what earlier items did. */
  datatype AdminResult = AdminResult(marked: Marked, error: Option<Error>)

  function RoleItem(m: Marked, sender: nat, nick: string, role: Role, reason: Option<string>): (r: AdminResult)
    requires m.Valid() && sender < |m.state.occupants|
    ensures r.marked.Valid() && |r.marked.state.occupants| == |m.state.occupants|
  {
    var target := FindByNick(m.state.occupants, nick);
    if target == |m.state.occupants| then AdminResult(m, Some(RecipientNotInRoom))
    else
      var o := m.state.occupants[target];
      if o.affiliation >= ADMIN
         || (m.state.occupants[sender].affiliation < ADMIN && (o.role >= MODERATOR || role >= MODERATOR)) then
        AdminResult(m, Some(PrivilegeLevel))
      else
        AdminResult(Mark(m.(state := WithOccupant(m.state, target, o.(role := role))), target, reason), None)
  }

  function AffiliationItem(m: Marked, acl: Acl, sender: nat, jid: Jid, affiliation: Affiliation,
                           reason: Option<string>): (r: AdminResult)
    requires m.Valid() && sender < |m.state.occupants|
    ensures r.marked.Valid() && |r.marked.state.occupants| == |m.state.occupants|
  {
    var who := m.state.occupants[sender];
    if who.affiliation < ADMIN
       || Refused(m.state.lists, Some(Requester(who.jid, who.affiliation)), affiliation, jid) then
      AdminResult(m, Some(PrivilegeLevel))
    else
      var moved := m.state.(lists := Moved(m.state.lists, affiliation, jid, reason));
      AdminResult(Recompute(m.(state := moved), acl, 0, reason), None)
  }

  /** An item changes a role by nick or an affiliation by address, not both. */
  predicate WellFormedItem(item: Item) {
    && item.Item?
    && (item.role.Some? ==> item.nick.Some? && item.nick.value != "")
    && (item.affiliation.Some? ==> item.jid.Some?)
    && item.role.Some? != item.affiliation.Some?
  }

  function ApplyItem(m: Marked, acl: Acl, sender: nat, item: Item): (r: AdminResult)
    requires m.Valid() && sender < |m.state.occupants|
    ensures r.marked.Valid() && |r.marked.state.occupants| == |m.state.occupants|
  {
    if !WellFormedItem(item) then AdminResult(m, Some(BadRequest))
    else if item.role.Some? then RoleItem(m, sender, item.nick.value, item.role.value, item.reason)
    else AffiliationItem(m, acl, sender, item.jid.value, item.affiliation.value, item.reason)
  }

  /** The item loop of one admin set; the first refused item ends it. */
  function ApplyItems(m: Marked, acl: Acl, sender: nat, items: seq<Item>): (r: AdminResult)
    requires m.Valid() && sender < |m.state.occupants|
    ensures r.marked.Valid() && |r.marked.state.occupants| == |m.state.occupants|
    decreases |items|
  {
    if items == [] then AdminResult(m, None)
    else
      var first := ApplyItem(m, acl, sender, items[0]);
      if first.error.Some? then first
      else ApplyItems(first.marked, acl, sender, items[1..])
  }

  // ----- muc#owner set -----

  function SetOption(s: RoomState, aclRole: int, option: ConfigOption): RoomState {
    match option
    case SetFlag(flag, on) => s.(flags := if on then s.flags + {flag} else s.flags - {flag})
    case SetPersistent(on) =>
      if aclRole < ACL_MUC_PERSIST then s
      else s.(flags := if on then s.flags + {Persistent} else s.flags - {Persistent})
    case SetMaxUsers(n) => s.(maxSize := if 0 < n <= PARTICIPANTS_LIMIT then n else PARTICIPANTS_LIMIT)
    case SetDefaultRole(member) => s.(defaultRole := if member then PARTICIPANT else VISITOR)
    case SetSecret(secret) => s.(password := Some(secret))
    case OtherOption => s
  }

  function SetOptions(s: RoomState, aclRole: int, options: seq<ConfigOption>): RoomState
    decreases |options|
  {
    if options == [] then s else SetOptions(SetOption(s, aclRole, options[0]), aclRole, options[1..])
  }

  /** Destroying a room takes everybody's role and affiliation, from position `i` on. */
  function DismissAll(m: Marked, i: nat): (r: Marked)
    requires m.Valid() && i <= |m.state.occupants|
    ensures r.Valid()
    decreases |m.state.occupants| - i
  {
    if i == |m.state.occupants| then m
    else
      var o := m.state.occupants[i];
      var dismissed := WithOccupant(m.state, i, o.(role := ROLE_NONE, affiliation := NONE));
      DismissAll(Mark(m.(state := dismissed), i, None), i + 1)
  }

  const MEMBERS_ONLY_REASON := "<reason>Room policy switched to members-only</reason>"

  /** A members-only room loses its non-members, from position `i` on. */
  function PurgeNonMembers(m: Marked, i: nat): (r: Marked)
    requires m.Valid() && i <= |m.state.occupants|
    ensures r.Valid()
    decreases |m.state.occupants| - i
  {
    if i == |m.state.occupants| then m
    else
      var o := m.state.occupants[i];
      if o.affiliation < MEMBER then
        var purged := WithOccupant(m.state, i, o.(role := ROLE_NONE));
        PurgeNonMembers(Mark(m.(state := purged), i, Some(MEMBERS_ONLY_REASON)), i + 1)
      else PurgeNonMembers(m, i + 1)
  }

  function OwnerSet(s: RoomState, aclRole: int, action: OwnerAction): (m: Marked)
    ensures m.Valid()
  {
    match action
    case Destroy => DismissAll(Marked(s.(flags := s.flags + {Destroyed}), []), 0)
    case Configure(options) =>
      var configured := SetOptions(s, aclRole, options);
      if MembersOnly in configured.flags then PurgeNonMembers(Marked(configured, []), 0)
      else Marked(configured, [])
  }

  // ----- The end of an IQ -----

  /** Who must go, and the status codes that say why. */
  function Verdict(flags: set<Flag>, o: Occupant): (Role, set<Status>) {
    if Destroyed in flags then (ROLE_NONE, {})
    else if o.affiliation == OUTCAST then (ROLE_NONE, {Banned})
    else if MembersOnly in flags && o.affiliation < MEMBER then (ROLE_NONE, {NonMemberRemoved})
    else if o.role == ROLE_NONE then (ROLE_NONE, {Kicked})
    else (o.role, {})
  }

  function Settled(flags: set<Flag>, o: Occupant): Occupant {
    var role := Verdict(flags, o).0;
    o.(included := false, role := role, presence := if role == ROLE_NONE then None else o.presence)
  }

  /** Positions after occupant `i` has left. */
  function Shifted(affected: seq<nat>, i: nat): (r: seq<nat>)
    requires i !in affected
    ensures |r| == |affected|
    ensures forall k :: 0 <= k < |r| ==> r[k] == if affected[k] > i then affected[k] - 1 else affected[k]
  {
    seq(|affected|, k requires 0 <= k < |affected| => if affected[k] > i then affected[k] - 1 else affected[k])
  }

  /** The final loop: announce every affected occupant, removing those who must go. */
  function Finish(s: RoomState, affected: seq<nat>): Outcome
    requires Positions(s, affected)
    decreases |affected|
  {
    if affected == [] then Outcome(s, [])
    else
      var i := affected[0];
      var settled := WithOccupant(s, i, Settled(s.flags, s.occupants[i]));
      var announced := Broadcast(settled, i, None, Verdict(s.flags, s.occupants[i]).1);
      var next :=
        if settled.occupants[i].role == ROLE_NONE then Finish(Leave(settled, i), Shifted(affected[1..], i))
        else Finish(WithOccupant(settled, i, settled.occupants[i].(reason := None)), affected[1..]);
      Outcome(next.state, announced + next.sent)
  }

  // ----- IQ stanzas -----

  /** A query addressed to an occupant is passed on. */
  function RouteIqToOccupant(s: RoomState, sender: nat, st: Stanza): Outcome
    requires st.Iq? && st.nick.Some? && sender <= |s.occupants|
  {
    if sender == |s.occupants| then Bounced(s, st.from, ExternalIq)
    else if IqProxy !in s.flags then Bounced(s, st.from, IqProhibited)
    else
      var receiver := FindByNick(s.occupants, st.nick.value);
      if receiver == |s.occupants| then Bounced(s, st.from, RecipientNotInRoom)
      else
        var to := s.occupants[receiver].jid;
        Outcome(s, [ProxiedIq(if st.kind == Get && st.vcard then to.(resource := None) else to,
                              s.occupants[sender].nick)])
  }

  function RouteGet(s: RoomState, sender: nat, st: Stanza): Outcome
    requires st.Iq? && sender <= |s.occupants|
  {
    match st.query
    case DiscoInfo => Outcome(s, [IqResult(st.from, RoomInfo)])
    case DiscoItems =>
      if PublicParticipants in s.flags then Outcome(s, [IqResult(st.from, RoomItems)])
      else Bounced(s, st.from, NotImplemented)
    case Admin(items) =>
      if items.None? then Bounced(s, st.from, BadRequest)
      else if sender == |s.occupants| then Bounced(s, st.from, ExternalIq)
      else if s.occupants[sender].affiliation < ADMIN then Bounced(s, st.from, PrivilegeLevel)
      else if items.value == [] || items.value[0].Malformed? || items.value[0].affiliation.None?
              || items.value[0].affiliation.value == NONE then Bounced(s, st.from, BadRequest)
      else
        var affiliation := items.value[0].affiliation.value;
        Outcome(s, [IqResult(st.from, AffiliationItems(affiliation, s.lists[affiliation]))])
    case Owner(_) =>
      if sender == |s.occupants| then Bounced(s, st.from, ExternalIq)
      else if s.occupants[sender].affiliation < OWNER then Bounced(s, st.from, PrivilegeLevel)
      else Outcome(s, [IqResult(st.from, RoomConfig)])
    case _ => Bounced(s, st.from, NotImplemented)
  }

  /** What a set does before the reply: the marked room and the reply, or an error
   *  with the room as the error leaves it. */
  datatype SetResult = Refuse(state: RoomState, error: Error) | Accept(marked: Marked, reply: Reply)

  function SetQuery(s: RoomState, acl: Acl, sender: nat, st: Stanza): (r: SetResult)
    requires st.Iq? && sender <= |s.occupants|
    ensures r.Accept? ==> r.marked.Valid()
  {
    match st.query
    case Admin(items) =>
      if items.None? then Refuse(s, BadRequest)
      else if sender == |s.occupants| then Refuse(s, ExternalIq)
      else if s.occupants[sender].role < MODERATOR then Refuse(s, PrivilegeLevel)
      else
        var r := ApplyItems(Marked(s, []), acl, sender, items.value);
        if r.error.Some? then Refuse(r.marked.state, r.error.value)
        else Accept(r.marked, AffiliationItems(OUTCAST, []))
    case Owner(action) =>
      if action.None? then Refuse(s, BadRequest)
      else if sender == |s.occupants| then Refuse(s, ExternalIq)
      else if s.occupants[sender].affiliation < OWNER then Refuse(s, PrivilegeLevel)
      else if action.value.None? then Refuse(s, NotImplemented)
      else Accept(OwnerSet(s, AclRole(acl, s.occupants[sender].jid), action.value.value), Empty)
    case _ => Refuse(s, NotImplemented)
  }

  function RouteIqToRoom(s: RoomState, acl: Acl, sender: nat, st: Stanza): Outcome
    requires st.Iq? && sender <= |s.occupants|
  {
    if st.query.NoQuery? then Bounced(s, st.from, BadRequest)
    else if st.kind == Get then RouteGet(s, sender, st)
    else if st.kind == Set then
      match SetQuery(s, acl, sender, st)
      case Refuse(state, error) => Bounced(state, st.from, error)
      case Accept(marked, reply) =>
        var finished := Finish(marked.state, marked.affected);
        Outcome(finished.state, [IqResult(st.from, reply)] + finished.sent)
    else Bounced(s, st.from, NotImplemented)
  }

  function RouteIq(s: RoomState, acl: Acl, st: Stanza): Outcome
    requires st.Iq?
  {
    var sender := FindByJid(s.occupants, st.from);
    if st.nick.Some? then RouteIqToOccupant(s, sender, st) else RouteIqToRoom(s, acl, sender, st)
  }

  /** One step of a room. */
  function Route(s: RoomState, acl: Acl, st: Stanza): Outcome {
    match st
    case ErrorStanza(from) => RouteError(s, from)
    case PresenceIn(_, _, _, _, _) => RoutePresence(s, acl, st)
    case Iq(_, _, _, _, _) => RouteIq(s, acl, st)
  }
}
