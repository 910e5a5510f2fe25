# A verified model of Mukite

Mukite is an XMPP multi-user chat component: it keeps rooms, their occupants and
their affiliation lists (XEP-0045), reads stanzas from one XML stream and writes
stanzas to another. This project models its four stateful parts in Dafny and proves
what they are for.

`dafny verify dfyconfig.toml` checks everything.

## What is modelled

**Rooms** (`src/room`, `src/affiliation`, `src/participant`, `src/jid.c`, `src/acl.c`).
One step is one incoming stanza: a join, an update, a change of nick, a departure, an
error stanza, a `muc#admin` or `muc#owner` query, or a query passed on to an occupant.

- `RoomModel` and `RoomsModel` are the step as a function on values. A run is a
  sequence of stanzas from the empty table of rooms.
- `Rooms` and `RoomTables` are the same program on the heap: occupants are objects that
  the handlers update in place, and the affected list of a query is threaded through
  them. Every method is proved to change the room exactly as the function says and to
  send exactly the same packets.
- `RoomInvariants`, `AffiliationLaws`, `RoomLaws` and `RoomsLaws` prove what every
  reachable room satisfies. `Roster` and `RosterLaws` prove what clients know that fold
  the presences sent to them: after every step whoever no aborted set left with a mark
  knows all others without one, and where there are no marks everybody knows exactly who
  is in the room. `ShortRuns` reaches from the empty table the situations in which the
  code does not do what one would expect.
- `RoomRules`, `QueryRules` and `SetRules` say what each kind of stanza does, to the room and
  in the packets sent, without the functions that the step is made of: who may enter and why
  not, who is told what, who gets which answer, which items pass, what a form leaves of the
  configuration. `RunRules` adds the table of rooms, and who learns real addresses in a run.

**SHA-1** (`xmcomp/sha1/sha1.c`). The module `Fips180` writes out sections 4 to 7 of
FIPS PUB 180-1 on its own terms (padding, functions, constants, rounds), and
`Fips180Example` works out the digest that the standard prints for "abc"; the class
`Sha1.Context` works on the 64-octet block and the two length words in place and is
proved to compute that digest.

**Stanzas** (`xmcomp/src/xmlfsm.c`, `src/packet.c`, the rescan loop of
`xmcomp/src/reader.c`). `Framing` gives an independent description: forests of
elements and how they print. The scanner, the walker and the parser are proved to undo
the printing, and the clean-up of a header is proved to say the same attributes again.
`CleanedStanza` puts the parts together: a method parses a printed stanza, cleans it in
place, and leaves the printing of the stanza that it should be.

**Hand-off and storage** (`xmcomp/src/ringbuffer.c`, `xmcomp/src/writer.c`,
`xmcomp/src/queue.c`, `src/utss.h`, `xmcomp/src/buffer.c`, `src/jid.c`). `QueueSystem`
takes the queue between the reader and the workers statement by statement, with its two
mutexes, and proves that no interleaving loses, doubles or reorders an entry. `RingSystem`
does the same for the ring between the workers and the writer, whose consumer reads the
size of the data without the mutex: it proves the byte stream for exactly the runs in
which every chunk that is looked up lies in the buffer, and gives a run that leaves it.
`RingBuffers` and `StanzaQueues` are the two as objects, an operation at a time. The
encoding of a whole room is proved to decode to what it should.

## Where the code does not do what one would expect

Each of these is kept as the code has it and described by a theorem.

- A `muc#admin` set that is bounced after some of its items were applied
  (src/room/room.c:1021-1077) keeps those items but announces nothing. Clients then know
  the room if and only if the items changed no affiliation and no role
  (`RoomLaws.MidwayBounceAgreesIffNothingChanged`, `RoomLaws.BouncedRoleChangeIsSilent`). Occupants it marked stay marked, so
  a later query does not announce them either; this is why a room can keep somebody who
  must go, and only then (`RoomsLaws.EveryReachableRoom`, `RoomsLaws.NobodyUnwelcomeStays`).
  For sets of roles the condition is one on the room and the set before it is handled
  (`RoomLaws.RolesBounceMidwayIff`, `RoomLaws.MidwayRolesAgreeIff`), and so it is for sets
  of both kinds (`MixedSets.BouncedMidwayIff`, `MixedSets.BouncedSetAgreesIff`); a run of three
  stanzas gets there (`ShortRuns.SetLeavesClientsBehind`). Whoever has no mark still knows
  the others who have none, and nobody knows a stranger (`RosterLaws.RouteInforms`).
- The destruction of a room passes over the occupants that such a set left with a mark: it
  does not tell them, so their clients go on knowing a room that is gone
  (`RosterLaws.EmptyIfDestroyedIff`, `ShortRuns.DestructionLeavesClientBehind`).
- The final loop of a query announces one occupant after the other and settles each only at
  its own turn. So a person who is banned and made a moderator in the same set is still shown
  the real addresses of those announced before it, in a room that hides them
  (`RunRules.BannedModeratorIsShown`); apart from such sets only moderators are shown any
  (`RunRules.RealAddressesStayHidden`).
- The protection of the last owner compares it with the sender only. Whoever owns the room
  without being the listed owner, by service policy or because it shares its host, can take
  the last entry away, and nobody else can (`AffiliationLaws.OwnersAreEmptiedIff`,
  `AffiliationLaws.HostMateEmptiesOwners`); one admin set is enough
  (`RoomLaws.OneSetEmptiesOwners`, `ShortRuns.HostMateTakesTheRoom`).
- The second pass of the affiliation lookup compares hosts only, whatever node the entry
  has (src/affiliation/affiliations.c:44-49).
- `ringbuffer_get_chunk` compares one reading of the size of the data and returns another
  (xmcomp/src/ringbuffer.c:84, 96-100), both without the mutex. If writers carry the pending
  bytes past the end of the buffer in between, it returns more than lies before the end
  (`RingSystem.LookIsChunkIff`, `RingSystem.SteadyIff`); what lies behind the buffer is
  then sent and the read position leaves it (`RingSystem.UnsteadyLookLeaves`,
  `RingSystem.RunPastTheBorder`). A compiler that keeps the first reading hides this.
- The clean-up after a successful room query renames `from` to `to` and leaves the old `to`
  where it is (src/room/room.c:1135), so the header in the stanza buffer has two. That
  header is attached to no stanza: `route_iq` sets none. No other clean-up mode does
  this (`CleanUpLaws.OnlyABareSwitchRepeats`, `CleanUpLaws.QueryRepeatsTo`).
- In the ring the scanner takes an empty tag whose `/` and `>` lie on the two sides of the
  border for a closing tag; `Scanner.RingScanIsLinear` says exactly when it agrees with
  the linear scan, and `Framing.SplitElementIsMissed` is the family where it does not.
- `room_init` leaves the limit of the affiliation lists at zero
  (src/room/room.c:139-147), so a room that was created and not loaded writes none of
  its affiliations (`RoomCodec.CreatedRoomLosesAffiliations`).
- A presence is kept up to 2^20 bytes (src/room/room.c:662) but read back only up to
  65000 (src/participant/participant.c:26), and one occupant that cannot be read fails
  the whole room (`RoomCodec.KeptPresenceMayNotLoad`, `RoomCodec.RoomLoadsIff`).
- Reading a container counts every item twice (src/utss.h:100 and src/utss.h:29); the limit is doubled
  too, so exactly the containers over the limit are refused (`Codec.ContainerRoundTrip`).
- `affiliationss_get_by_jid` is handed an array of structures cast to an array of
  addresses (src/room/room.c:613, src/room/room.c:1065). The model does what is meant:
  it indexes the five lists.

## Model

| member | source | states |
|---|---|---|
| Jids.MatchesIsCanonicalEquality | src/jid.c:62-104 | comparing two addresses in full, by node and host, or by host alone is equality of their canonical forms: case folded in node and host, exact in the resource |
| Jids.LowerTextIsCaseFolding | src/jid.c:74-84 | two texts are equal ignoring case if and only if their folded forms are equal |
| Jids.WildcardsFit | src/jid.c:62-104 | with wildcards the first address is a pattern: what it does not name may be anything, node and host are compared whatever their case, the resource exactly |
| JidText.ExpressibleIff | src/jid.c:22-60 | the addresses that a text can stand for, in numbers: a host of 1 to 1023 bytes without a slash, a node and a resource up to 1023 bytes, no separator in the node, and no at sign in a host without a node |
| JidText.StructUndoesText | src/jid.c:22-60 | a text is accepted as the address j if and only if it is the text of j and j can be expressed: host present, parts within 1023 bytes, no separator inside a part that would end it |
| JidText.Split | src/jid.c:24-50 | the one-pass loop cuts the text into node, host and resource at the first `@` before the first `/` |
| JidText.JidStruct | src/jid.c:22-60 | the method accepts and refuses exactly as the specification that StructUndoesText characterises |
| JidText.PartsAreClean | src/jid.c:28-42 | whatever the text, the parts it is cut into contain no separator that would have cut them earlier |
| JidText.LayOut | src/jid.c:157-176 | copying the parts fills the allocated block with exactly the text of the address and returns the places of its parts |
| JidText.JidSet | src/jid.c:133-184 | the copy with the selected parts is one block holding the text of the copy; each part stands where its bounds say, and the block starts and ends with the address |
| JidText.LayoutHoldsParts | src/jid.c:160-176 | in the laid-out text every part is found between its own bounds, and an absent part has none |
| JidText.LayoutIsRead | src/jid.c:190-203 | the text laid out by a copy is read back as exactly the copied address |
| Affiliations.FindAclRole | src/acl.c:16-33 | the role of the first entry that fits, with none before it fitting, or the default role if none does |
| Affiliations.FirstFitDecides | src/acl.c:16-33 | the same of the function: the first entry that fits decides, and the default role if there is none |
| Affiliations.Find | src/affiliation/affiliations.c:22-30 | the position of the first matching entry: it matches and none before it does |
| Affiliations.FindEntry | src/affiliation/affiliations.c:22-30 | the scanning loop returns the position of the first match, or the length |
| Affiliations.FindInLists | src/affiliation/affiliations.c:72-78 | the first of the five lists with a match and the place of the match in it |
| Affiliations.LookUp | src/affiliation/affiliations.c:32-52 | service administrators are owners; otherwise the full pass, then the host pass, then none |
| AffiliationLaws.LookUpIsDecided | src/affiliation/affiliations.c:32-52 | service administrators own every room; all others are what the lowest list with their address says, whatever hosts are listed; without one, what the lowest list with their host says; without that, nothing |
| AffiliationLaws.RefusedIff | src/affiliation/affiliations.c:66-92 | a change is refused if and only if a sender who is no owner puts somebody on the admin or owner list or takes somebody from one, or the only listed owner means itself |
| AffiliationLaws.MovedEntryIsLast | src/affiliation/affiliations.c:94-109 | the moved address is last on its new list, without a resource and with the new reason, also if that is none; a reason over 65000 bytes leaves it the old one |
| AffiliationLaws.ListedMeansInLists | src/affiliation/affiliations.c:22-30 | a list is hit by node and host if and only if it holds an entry with the same bare address |
| AffiliationLaws.FoundIsOnly | src/affiliation/affiliations.c:72-78 | when nobody is listed twice, the entry that is found is the only one with that bare address |
| AffiliationLaws.MovedKeepsPartialMap | src/affiliation/affiliations.c:64-116 | every change keeps each bare address at most once in the five lists together, and the none list empty |
| AffiliationLaws.MovedIsUpdate | src/affiliation/affiliations.c:80-109 | a change moves exactly the named address to the named list, off all lists for none, and moves nobody else |
| AffiliationLaws.SurvivorIsListed | src/affiliation/affiliations.c:94-109 | every other entry is still on its list, unchanged |
| AffiliationLaws.MovedEntryOrigin | src/affiliation/affiliations.c:94-109 | every entry after a change is either the named address on the named list or an unchanged old entry |
| AffiliationLaws.OwnersSurvive | src/affiliation/affiliations.c:85-92 | a change by somebody who is listed as owner never leaves the owner list empty |
| AffiliationLaws.OwnersAreEmptiedIff | src/affiliation/affiliations.c:64-116 | a change that is not refused empties the owner list if and only if it takes the only entry away and its sender is an owner with another bare address |
| AffiliationLaws.HostMateEmptiesOwners | src/affiliation/affiliations.c:32-92 | somebody on no list who is first found by host on the owner list is looked up as owner, may remove the only owner, and is then nothing itself |
| AffiliationLaws.OtherOwnerIsHostMate | src/affiliation/affiliations.c:32-52 | with one listed owner, any other owner that is no service administrator is such a host mate |
| AffiliationLaws.BelowOwnerCannotTouchTop | src/affiliation/affiliations.c:66-84 | a change by somebody below owner that is not refused leaves the admin and owner lists as they are |
| AffiliationLaws.AdminStaysBelowOwner | src/affiliation/affiliations.c:32-52 | while the admin and owner lists stay, an admin can never be looked up as owner, host pass included |
| RoomModel.FindByNick | src/participant/participants.c:9-20 | the first occupant with this nick: the one found has it and none before it does |
| RoomModel.FindByJid | src/participant/participants.c:22-41 | the first occupant that matches, in full or without resource when none is given |
| RoomRules.FoundByAddress | src/participant/participants.c:22-41 | a full address finds the first occupant with it, a bare one the first occupant with any resource of it |
| RoomRules.BroadcastShows | src/room/room.c:300-346 | every occupant in turn gets the presence, with nick, affiliation, role, contents and reason; unavailable without a role or at a change of nick; the codes of the room and of itself only to its sender; the real address only to moderators if the room is semi-anonymous |
| RoomRules.IntroductionsShow | src/room/room.c:520-542 | the presences of all others in turn, available and without codes, the real addresses by the same rule |
| RoomRules.EntersIff | src/room/room.c:601-639 | in a room with a past a newcomer with a free nick enters if and only if it is a service administrator, or there is room, it is not banned, it knows the password if it is asked (a protected room with a password asks all but owners), and it is a member if it must be |
| RoomRules.EntryIsRefused | src/room/room.c:605-631 | whoever may not enter gets the first reason in this order: room full, banned, wrong password, members only; the room stays as it is |
| RoomRules.OutsidersAreTurnedAway | src/room/room.c:582-597 | a farewell from outside is ignored, a presence without a nick or with a nick in use is bounced |
| RoomRules.NewcomerEnters | src/room/room.c:178-196 | the newcomer is in front of the others with the affiliation looked up and the role for it, is told of all of them, then everybody of it, and it gets the subject; up to 2^20 bytes of its presence are kept |
| RoomRules.FounderEnters | src/room/room.c:601-680 | the founder of a room is owner and moderator, its bare address the only entry of the lists, and the only packets are its own presence and the subject |
| RoomRules.OccupantLeaves | src/room/room.c:641-679 | who says farewell is announced to all as gone, with its last words if it is heard, and is removed; the room ends with the last one unless it is persistent |
| RoomRules.SenderOfErrorLeaves | src/room/room.c:1180-1192 | the sender of an error stanza is announced as gone with a notice in place of its own words, and removed; from anybody else nothing happens |
| RoomRules.OccupantUpdates | src/room/room.c:641-679 | an occupant who keeps its nick shows its presence to all if it is heard, and up to 2^20 bytes of it are kept |
| RoomRules.NickIsKept | src/room/room.c:560-581 | a nick that somebody else has is refused, and visitors who are not heard keep theirs in silence |
| RoomRules.NickIsChanged | src/room/room.c:563-575 | everybody is told that the old nick goes, with the new one and the code for it, and then gets the presence under the new nick |
| QueryRules.QueryIsPassedOnIff | src/room/room.c:893-933 | a query to an occupant is passed on, in the name of its sender, if and only if both are in the room and it passes on queries, a get for a vCard to the bare address; otherwise the reason |
| QueryRules.AnswerIff | src/room/room.c:954-1003 | asking changes nothing and gets one packet: what the room is, for anybody; who is in it, if the room says so; a list other than that of nobody, for admins in the room; the configuration, for owners in it |
| QueryRules.NoAnswerBecause | src/room/room.c:954-1003 | each refusal of a get if and only if its reason holds |
| QueryRules.SetIsTurnedAway | src/room/room.c:1004-1094 | a set is refused at once, and nothing happens, without a query or anything in it, from outside, for lists and roles from anybody but a moderator, for the rest from anybody but an owner |
| QueryRules.OnlyGetsAndSets | src/room/room.c:1134-1140 | any other query to the room is bounced |
| RoomInvariants.RouteErrorKeeps | src/room/room.c:1180-1192 | removing the sender of an error stanza keeps the room invariant |
| RoomInvariants.DepartKeeps | src/room/room.c:641-679 | a departure keeps the room invariant |
| RoomInvariants.AnnounceKeeps | src/room/room.c:641-679 | announcing an occupant and caching its presence keeps the room invariant |
| RoomInvariants.InsideKeeps | src/room/room.c:558-581 | a presence from an occupant (update, change of nick, conflict, departure) keeps the room invariant |
| RoomInvariants.FounderIsOwner | src/room/room.c:601-639 | whoever enters a room just created becomes its only listed person, is looked up as owner and is never turned away |
| RoomInvariants.JoinKeeps | src/room/room.c:178-196 | a newcomer with a fresh nick and address, not outcast and a member where that is asked for, keeps the room invariant |
| RoomInvariants.OutsideKeeps | src/room/room.c:582-639 | a presence from outside, admitted or bounced, keeps the room invariant |
| RoomInvariants.RoleItemKeeps | src/room/room.c:1033-1050 | a role item keeps the room invariant, whether applied or refused |
| RoomInvariants.RecomputeKeeps | src/room/room.c:1064-1075 | after a change of the lists the loop over the occupants restores the invariant: every cached affiliation is the one looked up again |
| RoomInvariants.AffiliationItemKeeps | src/room/room.c:1052-1076 | an affiliation item keeps the room invariant, whether applied or refused |
| RoomInvariants.ApplyItemsKeeps | src/room/room.c:1021-1077 | any list of items, also one that is bounced midway, keeps the room invariant |
| SetRules.LastWordCounts | src/room/room.c:738-855 | of each flag, the size, the default role and the password the last word of the form counts, only with the right to make rooms persistent for that flag; the size is one from 1 to 1024, which stands for anything else; what is not spoken of stays |
| SetRules.FormIsApplied | src/room/room.c:1110-1130 | the form is answered; if the room is for members only then, exactly those on no list are told that they are removed, with the code and the reason, and only members are left; if not, nobody is told anything |
| SetRules.RoomEnds | src/room/room.c:1096-1109 | a destruction empties the room and marks it, is answered, and everybody is told to have lost role and affiliation, without a code |
| RoomInvariants.SetOptionsKeeps | src/room/room.c:738-855 | no configuration form touches occupants, lists or the created and destroyed marks, and the limit and the default role stay positive |
| RoomInvariants.PurgeKeeps | src/room/room.c:1117-1126 | the purge of a members-only room restores the invariant that the new flags broke |
| RoomInvariants.DismissKeeps | src/room/room.c:1098-1109 | dismissing everybody from a destroyed room keeps the room invariant |
| RoomInvariants.OwnerSetKeeps | src/room/room.c:1096-1130 | an owner query, configuration or destruction, keeps the room invariant |
| RoomInvariants.FinishKeeps | src/room/room.c:1142-1175 | the final loop keeps the room invariant while it removes occupants from the list it walks |
| RoomInvariants.SetQueryKeeps | src/room/room.c:1004-1132 | every set query keeps the room invariant up to its reply, bounced or accepted |
| RoomInvariants.RouteIqKeeps | src/room/room.c:881-1176 | every IQ keeps the room invariant |
| RoomInvariants.RouteKeeps | src/room/room.c:1178-1205 | every stanza keeps the room invariant: keyed occupants, coherent cached affiliations, privileges, clean-up, partial map, life cycle |
| Roster.BroadcastReceived | src/room/room.c:300-346 | of the packets of a broadcast a client gets exactly the one addressed to it, if its place is among the receivers, and otherwise none |
| Roster.BroadcastTeaches | src/room/room.c:300-346 | a client learns from a broadcast exactly the one packet addressed to it, if it is in the room |
| Roster.AnnouncedStays | src/room/room.c:1165-1174 | announcing an occupant who stays settles what clients know about it and unsettles nothing; one left without a role by an aborted set is announced as gone |
| Roster.AnnouncedLeaves | src/room/room.c:1165-1171 | announcing an occupant who goes and removing it settles every remaining client, with the pending positions shifted |
| Roster.JoinIntroduces | src/room/room.c:520-542 | after the introductions the newcomer, like everybody without a mark, knows all occupants without one but the newcomer |
| Roster.FirstAnnouncement | src/room/room.c:633-650 | the broadcast of a newcomer then makes every client know the newcomer too |
| Roster.RenameInforms | src/room/room.c:572-574 | the unavailable presence for the old nick and the available one for the new nick carry every client from the old roster to the new |
| Roster.QuietlyInformed | src/room/room.c:1142-1175 | where nobody is marked, what stays true in any case is exact agreement: the room's nicks, affiliations and roles, and nothing for outsiders |
| RosterLaws.ApplyItemsTracks | src/room/room.c:1021-1077 | whatever the items changed got a mark, those who got it now are the affected list, and everybody without a mark is as clients know them |
| RosterLaws.OwnerSetTracks | src/room/room.c:1096-1130 | whatever an owner query changed got a mark, and a destruction marks everybody |
| SetRules.FinishAnnouncesOnly | src/room/room.c:1142-1175 | whatever the final loop sends announces one of those on its list as it was before the loop: gone if the room is destroyed, or with the code for banned, no member or kicked, in this order; otherwise with its role |
| SetRules.FinishAnnounces | src/room/room.c:1142-1175 | each of those on the list is so announced to everybody who is not on the list before it, itself included, with its own code only to itself and its real address only to moderators who stay |
| RosterLaws.FinishInforms | src/room/room.c:1142-1175 | after the final loop every remaining client knows everybody whom no earlier set left with a mark |
| RosterLaws.RouteErrorInforms | src/room/room.c:1180-1192 | an error stanza keeps every client informed: whoever has no mark knows all others without one, nobody knows a nick that is not in the room, and outsiders know nothing |
| RosterLaws.DepartInforms | src/room/room.c:641-679 | the same for a departure |
| RosterLaws.UpdateInforms | src/room/room.c:641-679 | the same for an update |
| RosterLaws.ChangeOfNickInforms | src/room/room.c:563-575 | the same for a change of nick |
| RosterLaws.InsideInforms | src/room/room.c:558-581 | the same for any presence from an occupant, also one without a role |
| RosterLaws.JoinInforms | src/room/room.c:633-660 | the same for a join, the newcomer included |
| RosterLaws.OutsideInforms | src/room/room.c:582-680 | the same for any presence from outside |
| RosterLaws.AdminSetInforms | src/room/room.c:1005-1080 | the same for every admin set, also one that is bounced midway |
| RosterLaws.OwnerSetInforms | src/room/room.c:1081-1131 | the same for an owner set |
| RosterLaws.RouteIqInforms | src/room/room.c:881-1176 | the same for any IQ |
| RosterLaws.RouteInforms | src/room/room.c:1178-1205 | every step keeps every client informed: whoever has no mark knows exactly the affiliation and role of all others without one, no client, marked or not, knows a nick that is not in the room, and whoever is not in the room knows nothing of it |
| RosterLaws.FinishRests | src/room/room.c:1142-1175 | when the marks are those on the list, the final loop clears them all and empties a destroyed room |
| RosterLaws.RouteRests | src/room/room.c:1178-1205 | every step but an admin set bounced midway leaves no mark behind |
| RosterLaws.RouteSyncs | src/room/room.c:1178-1205 | every step but an admin set bounced midway keeps exact agreement, and leaves the room at rest |
| RosterLaws.MarksOutlastTheRoom | src/room/room.c:1098-1109 | the destruction of a room passes over everybody left with a mark: it stays, and its client keeps its nick |
| RosterLaws.EmptyIfDestroyedIff | src/room/room.c:1178-1205 | a room that a step destroys is empty afterwards if and only if the step is not the destruction of a room with a mark in it |
| RoomLaws.RecomputeResult | src/room/room.c:1064-1075 | the loop sets each cached affiliation to the one looked up on the current lists and touches no nick, address or list |
| RoomLaws.NoSelfPromotion | src/room/room.c:1021-1077 | through any list of items from a sender below owner the admin and owner lists stay, and its recomputed affiliation is never owner |
| RoomLaws.ModeratorItems | src/room/room.c:1033-1056 | the items of a moderator below admin change no list, no flag, no affiliation and no moderator |
| RoomLaws.ModeratorSetKeepsPrivileges | src/room/room.c:1005-1080 | a whole admin set from a moderator below admin, final loop included, leaves lists, cached affiliations and the moderators as they are |
| RoomLaws.FirstOccupantOwnsTheRoom | src/room/room.c:601-639 | the first presence in a room just created makes its sender the only occupant, listed owner and moderator, and ends the room's youth |
| RoomLaws.MidwayBounceAgreesIffNothingChanged | src/room/room.c:1021-1062 | after an admin set bounced midway a client knows the room if and only if no affiliation and no role changed; nobody enters or leaves |
| RoomLaws.BouncedRoleChangeIsSilent | src/room/room.c:1021-1050 | in every room at rest: after an admin set that gives anybody below admin another role and then has a malformed item, no client in the room knows it any more |
| RoomLaws.RolesBounceMidwayIff | src/room/room.c:1021-1050 | a set of role items is bounced midway if and only if a moderator sent it and some, but not all, of its items come before the first that the room as it was refuses |
| RoomLaws.MidwayRolesAgreeIff | src/room/room.c:1021-1050 | after such a set a client still knows the room if and only if, of the items before the first refused one, the last that asks for a nick asks for the role it held |
| MixedSets.BouncedMidwayIff | src/room/room.c:1021-1077 | any admin set is bounced midway if and only if a moderator sent it, some item is refused, and one before the first refused one gives a role or changes the affiliation of an occupant, all told from the room and the set before it is handled |
| MixedSets.BouncedSetAgreesIff | src/room/room.c:1021-1077 | after any bounced admin set a client knows the room if and only if the items before the first refused one leave every occupant with the affiliation that the lists give it and with the role that it had |
| MixedSets.RecomputeRoles | src/room/room.c:1064-1075 | after the loop over the occupants from a position on, a role is the old one if the occupant is before that position or its affiliation is what it was; otherwise none for outcasts, participant for members and those on no list, moderator for admins and owners |
| QueryRules.WellFormedIff | src/room/room.c:1026-1031 | an item is well formed if and only if it gives either a role to a non-empty nick or an affiliation to an address |
| QueryRules.PassesIff | src/room/room.c:1033-1062 | when an item passes: for a role, nobody who is admin or owner by then, and for a sender who is neither, no moderator and not the role of one; for an affiliation, an owner who is not the only listed one and means itself, or an admin who moves nobody from or to the top lists |
| MixedSets.ItemsStand | src/room/room.c:1021-1077 | the item loop ends at the first item that the sender may not have applied, and every occupant then has the affiliation that the moved lists give it and the role last given to its nick or gone with a new affiliation: none for outcasts, participant for members and those on no list, moderator for admins and owners |
| SetRules.ItemsAreMarked | src/participant/participant.c:48-66 | whoever the items touched is marked, with the reason of the first item that did; a mark from before keeps its reason |
| SetRules.AcceptedSetIsTold | src/room/room.c:1021-1175 | an admin set without a refused item is answered with an empty list, everybody whom it touched hears what became of it, and nothing else is announced |
| QueryRules.BounceIsExplained | src/room/room.c:1021-1062 | any other set is bounced with what its first refused item deserves: it says both or neither or lacks nick or address; nobody has the nick; or the sender may not |
| RoomLaws.OneSetEmptiesOwners | src/room/room.c:1052-1076 | in every room with one listed owner, any other occupant who is an owner can empty the owner list in one accepted set; then only service administrators own the room |
| RoomsModel.FindRoom | src/room/rooms.c:89 | the room with this node: the one found has it and none before it does |
| RunRules.RoomHandles | src/room/rooms.c:83-123 | a stanza to a room that is there is handled by it, and the room goes if it is marked destroyed then |
| RunRules.RoomIsMadeIff | src/room/rooms.c:92-112 | a room is made if and only if a presence that is no farewell comes from somebody with the right to make rooms; it then has the default flags, participants by default, 100 places and empty lists |
| RunRules.NoRoomAnswers | src/room/rooms.c:92-112 | any other stanza to a room that is not there is bounced with its reason, errors excepted |
| RunRules.MakerOwnsTheRoom | src/room/rooms.c:92-123 | who makes a room with a nick is in it, its only listed owner and a moderator, and is told so |
| RoomsLaws.RouteSpeaks | src/room/room.c:1178-1205 | a room keeps its node and every presence it sends is in its own name |
| RunRules.EveryStepIsDiscreet | src/room/room.c:1178-1205 | in any step of a room that is semi-anonymous before and after it, a real address goes only to somebody who is a moderator before, after, or by the items of an accepted set in between |
| RunRules.RealAddressesStayHidden | src/room/room.c:331-336 | in every run a client that is never a moderator of a room which stays semi-anonymous gets no real address from it |
| RunRules.BannedModeratorIsShown | src/room/room.c:1142-1175 | "in between" is needed: an owner who demotes one person, bans another and makes that one a moderator in one set has the banned person shown the address of the first |
| RoomsLaws.ProcessKeeps | src/room/rooms.c:83-123 | one step keeps one room per node, none marked destroyed, every room invariant |
| RoomsLaws.EveryRunKeeps | src/room/rooms.c:83-123 | the table invariant holds after every run from the empty table |
| RoomsLaws.EveryReachableRoom | src/room/rooms.c:83-123 | in every reachable room nicks and addresses are distinct, cached affiliations are those looked up, admins and owners are moderators, whoever must go is there only with the mark of an aborted set, lists are a partial map, and a room is empty and not persistent only while just created |
| RoomsLaws.OtherRoomsUntouched | src/room/rooms.c:117-122 | a stanza to one room changes no other room, also when its room is removed |
| RoomsLaws.ProcessInforms | src/room/rooms.c:83-123 | one step keeps every client of every room informed unless it destroys a room with a mark in it |
| RoomsLaws.EveryClientIsInformed | src/room/room.c:300-346 | after every run, sets bounced midway included, in which no room with a mark in it is destroyed, a client that folds what was sent to it since the start knows no nick that is not in the room, marked or not, and, if it has no mark, everybody without one exactly; nothing if it is not in the room |
| RoomsLaws.EveryClientAgrees | src/room/room.c:300-346 | after every run without a set bounced midway each occupant's client, folding what was sent to it since the start, holds exactly the room's nicks, affiliations and roles |
| RoomsLaws.NobodyUnwelcomeStays | src/room/room.c:1142-1175 | after such a run nobody with role none, outcast, or below member in a members-only room, is in any room |
| ShortRuns.HostMateTakesTheRoom | src/room/rooms.c:83-123 | in every run of three stanzas in which two people of one host enter a new room and the second removes the owner entry of the first, the set is accepted, and the room has no owner but service administrators |
| ShortRuns.SetLeavesClientsBehind | src/room/room.c:1021-1062 | in every run of three stanzas in which two people of different hosts enter a new room and the first sends a role change followed by a malformed item, neither client knows the room any more |
| ShortRuns.DestructionLeavesClientBehind | src/room/room.c:1098-1109 | if the first then destroys the room, no room is left and the second one's client still knows its own nick in it |
| Rooms.Participant.constructor | src/participant/participant.c:10-14 | a new occupant is zeroed apart from its address and nick and is on no affected list |
| Rooms.AffectedList.Add | src/participant/participant.c:48-65 | an occupant not yet marked is linked at the end, marked with its reason, and no other changes; a marked one is left alone; the chain stays acyclic |
| Rooms.Room.constructor | src/room/room.c:139-147 | a new room has the default flags, limit and role, no occupants and empty lists |
| Rooms.Room.FindByNick | src/participant/participants.c:9-20 | the cursor loop returns the first occupant with the nick or null |
| Rooms.Room.FindByJid | src/participant/participants.c:22-41 | the cursor loop returns the first matching occupant or null |
| Rooms.Room.BroadcastPresence | src/room/room.c:300-346 | the loop sends exactly the broadcast of the specification |
| Rooms.Room.SendPresences | src/room/room.c:520-542 | the loop sends the receiver exactly the introductions of all others |
| Rooms.Room.Join | src/room/room.c:178-196 | a new occupant object in front of the list, with the role its affiliation gives |
| Rooms.Room.Leave | src/room/room.c:198-212 | the occupant is unlinked, the size counts it off, and the last one of a room that is not persistent marks it destroyed |
| Rooms.Room.AddAffiliation | src/affiliation/affiliations.c:64-116 | refused exactly when the rules say so, and then nothing changed; otherwise the lists are the moved ones |
| Rooms.Room.Relist | src/affiliation/affiliations.c:94-109 | unlinking and appending in place gives the moved lists |
| Rooms.Room.RouteError | src/room/room.c:1180-1192 | state and packets after an error stanza are those of the specification |
| Rooms.Room.Show | src/room/room.c:642-646 | the presence is replaced only for those who may show it |
| Rooms.Room.KeepPresence | src/room/room.c:662-676 | a presence that is blank or over 2^20 bytes is dropped, any other kept |
| Rooms.Room.ClearYouth | src/room/room.c:679 | the room is no longer just created and nothing else changed |
| Rooms.Room.DepartWith | src/room/room.c:641-679 | state and packets of a departure; the object is gone from the list |
| Rooms.Room.AnnounceWith | src/room/room.c:641-679 | state and packets of an announcement; the list of objects stays |
| Rooms.Room.CheckEntry | src/room/room.c:605-631 | the checks at the door in the order of the code, and the affiliation of whoever passes |
| Rooms.Room.Enter | src/room/room.c:582-639 | state and packets of a presence from outside, bounces included |
| Rooms.Room.Admit | src/room/room.c:633-660 | joining, introductions and announcement in one step |
| Rooms.Room.ChangeNick | src/room/room.c:559-578 | own nick: nothing; taken nick: bounce; silent visitor: ignored; otherwise the old nick is announced away and replaced |
| Rooms.Room.Update | src/room/room.c:558-581 | state and packets of a presence from an occupant |
| Rooms.Room.RoutePresence | src/room/room.c:544-680 | state and packets of any presence |
| Rooms.Room.MarkAffected | src/participant/participant.c:48-65 | marking on the heap is marking in the specification, and the chain still lists the same occupants in the same order |
| Rooms.Room.ChangeRole | src/room/room.c:1033-1050 | room, chain and error after a role item are those of the specification |
| Rooms.Room.RecomputeFor | src/room/room.c:1065-1074 | one turn of the loop, role rule and mark included |
| Rooms.Room.RecomputeAll | src/room/room.c:1064-1075 | the whole loop over the occupants |
| Rooms.Room.ChangeAffiliation | src/room/room.c:1052-1076 | room, chain and error after an affiliation item are those of the specification |
| Rooms.Room.ApplyAll | src/room/room.c:1021-1077 | the item loop stops at the first refused item and keeps what earlier items did |
| Rooms.Room.Configure | src/room/room.c:857-879 | a form is applied option by option |
| Rooms.Room.DestroyRoom | src/room/room.c:1098-1109 | everybody loses role and affiliation and is on the chain |
| Rooms.Room.Purge | src/room/room.c:1117-1126 | exactly those below member lose their role and are on the chain |
| Rooms.Room.OwnerAct | src/room/room.c:1096-1130 | room and chain after an owner query are those of the specification |
| Rooms.Room.AnnounceVerdict | src/room/room.c:1144-1166 | the verdict on one occupant with its status codes, announced to all, its mark and reason cleared |
| Rooms.Room.FinishOne | src/room/room.c:1142-1175 | one turn of the final loop: the next link is read before the occupant is removed, and the rest of the chain is still there |
| Rooms.Room.FinishAll | src/room/room.c:1142-1175 | the final loop ends, treats each linked occupant once, and sends and removes exactly as the specification |
| Rooms.Room.RouteIqToOccupant | src/room/room.c:895-933 | a query to an occupant is passed on or bounced exactly as the specification |
| Rooms.Room.RouteGet | src/room/room.c:954-1003 | the reply to a get query in every case |
| Rooms.Room.ApplySet | src/room/room.c:1004-1132 | what a set query did before the reply: the error and the room as it left it, or the reply and the chain |
| Rooms.Room.RouteSet | src/room/room.c:1004-1176 | state and packets of a set query to the room, reply before broadcasts |
| Rooms.Room.RouteIq | src/room/room.c:881-1176 | state and packets of any IQ |
| Rooms.Room.Route | src/room/room.c:1178-1205 | state and packets of any stanza; occupants afterwards are old ones or new objects |
| RoomTables.RoomTable.FindRoom | src/room/rooms.c:88-90 | the room with this node or null |
| RoomTables.RoomTable.CreateRoom | src/room/rooms.c:31-42 | a fresh initialised room at the end of the table |
| RoomTables.RoomTable.RouteTo | src/room/rooms.c:117 | only this room changes, as the room step says |
| RoomTables.RoomTable.DestroyRoom | src/room/rooms.c:44-52 | the room is gone from the table, the others in order |
| RoomTables.RoomTable.MayCreate | src/room/rooms.c:94-113 | exactly when a stanza may create its room, and the bounce when it may not |
| RoomTables.RoomTable.ProcessUnknown | src/room/rooms.c:92-115 | a stanza to a missing room creates it and is routed, is bounced, or is ignored |
| RoomTables.RoomTable.RouteAndSweep | src/room/rooms.c:117-122 | a destroyed room is swept right after the step that destroyed it |
| RoomTables.RoomTable.Process | src/room/rooms.c:83-123 | table and packets after any stanza are those of the specification whose runs are the theorems above |
| Fips180.PadHolds | xmcomp/sha1/sha1.c:326-371 | a padded message is the message, one octet 80, octets 00 and the length in bits |
| Fips180.LengthHasDigits | xmcomp/sha1/sha1.c:361-368 | the length is eight digits to the base 256, most significant first |
| Fips180Example.DigestOfAbc | xmcomp/sha1/sha1.c:196-307 | the digest of "abc" is A9993E36 4706816A BA3E2571 7850C26C 9CD0D89D, as in appendix A of the standard, worked out through its 80 words and turns |
| Fips180.PadIsBlocks | xmcomp/sha1/sha1.c:326-371 | a padded message is a whole number of 64-octet blocks |
| Fips180.PaddedLength | xmcomp/sha1/sha1.c:334-356 | how many zero octets section 4 asks for, in the two cases of the code |
| Sha1.LengthBytes | xmcomp/sha1/sha1.c:361-368 | the eight octets taken from the two 32-bit words are the 64-bit length of section 4 |
| Sha1.Context.Reset | xmcomp/sha1/sha1.c:71-85 | an empty message, neither computed nor corrupted |
| Sha1.Context.ExpandBlock | xmcomp/sha1/sha1.c:221-235 | the array filled by the two loops is the sequence of words of section 7, steps a and b |
| Sha1.Context.TurnAll | xmcomp/sha1/sha1.c:237-287 | eighty turns of the five words as in section 7, step d |
| Sha1.Context.ProcessMessageBlock | xmcomp/sha1/sha1.c:207-301 | the digest words become the compression of the block, and the block is empty |
| Sha1.Context.Accept | xmcomp/sha1/sha1.c:160-181 | one octet: corrupted exactly when the length reaches 2^64 bits, otherwise the message is one octet longer |
| Sha1.Context.Input | xmcomp/sha1/sha1.c:143-185 | corrupted exactly when it was, or octets come after a result, or the length reaches 2^64 bits; otherwise the octets are appended; empty input changes nothing |
| Sha1.Context.PadMessage | xmcomp/sha1/sha1.c:326-371 | the message hashed is the padded message of section 4, in the one-block and the two-block case |
| Sha1.Context.Result | xmcomp/sha1/sha1.c:104-119 | succeeds exactly when not corrupted, and then the digest is that of FIPS PUB 180-1 on everything put in, also on repeated calls |
| Sha1.HashParts | xmcomp/sha1/sha1.c:71-185 | for every split into inputs, empty ones included: success if and only if the whole is under 2^64 bits, and then its digest |
| Sha1.InputAfterResult | xmcomp/sha1/sha1.c:104-156 | for every message in every split and its result: octets put in after the result make every later result fail, whatever follows |
| Rings.CopyAppends | xmcomp/src/ringbuffer.c:54-61 | one copy appends a prefix of the bytes to what is pending and overwrites no pending byte |
| Rings.ReleaseDrops | xmcomp/src/ringbuffer.c:108-112 | a release drops exactly the released bytes from the front |
| Rings.ChunkIsOldest | xmcomp/src/ringbuffer.c:96-100 | a chunk is a prefix of what is pending, lies in one piece, and is empty only if nothing is pending |
| RingBuffers.RingBuffer.constructor | xmcomp/src/ringbuffer.c:8-25 | an empty ring |
| RingBuffers.RingBuffer.CopyOnce | xmcomp/src/ringbuffer.c:41-61 | one round of the inner loop on the array, border included |
| RingBuffers.RingBuffer.CopyTurn | xmcomp/src/ringbuffer.c:41-67 | one turn appends what it copied, touches no pending byte, and copies nothing only when the ring is full |
| RingBuffers.RingBuffer.Write | xmcomp/src/ringbuffer.c:34-70 | as many bytes as there is room for are appended in order and every pending byte keeps its place |
| RingBuffers.RingBuffer.GetChunk | xmcomp/src/ringbuffer.c:80-101 | the length of the oldest contiguous piece |
| RingBuffers.RingBuffer.ReleaseChunk | xmcomp/src/ringbuffer.c:103-116 | positions and size after a release, border included |
| RingBuffers.RingBuffer.SendChunk | xmcomp/src/writer.c:16-21 | what is sent followed by what is still pending is what was pending |
| RingBuffers.RingBuffer.Drain | xmcomp/src/writer.c:15-26 | over any number of rounds and partial sends, what left followed by what is pending is what was pending, and it does not stand still |
| RingSystem.StepKeeps | xmcomp/src/ringbuffer.c:34-116 | every step of every writer and of the consumer, its two or three unlocked readings of the size included, keeps the system invariant if and only if it does not take the size while the pending bytes go past the end of the buffer |
| RingSystem.ByteStream | xmcomp/src/ringbuffer.c:34-116 | after every interleaving in which no chunk is taken so, the bytes released followed by those pending are an order-preserving merge of what the writers asked to write, and the wire carries a prefix |
| RingSystem.SteadyIff | xmcomp/src/ringbuffer.c:80-101 | the chunks and the read position stay in the buffer throughout a run if and only if no chunk is taken while the pending bytes go past the end |
| RingSystem.LookIsChunkIff | xmcomp/src/ringbuffer.c:84-100 | whatever writers do between the two readings of the size, the size returned is that of the chunk if and only if the first already reached the end of the buffer or the second does not go past it |
| RingSystem.UnsteadyLookLeaves | xmcomp/src/ringbuffer.c:96-115 | otherwise what is sent goes on behind the buffer, and the release takes the read position there |
| RingSystem.RunPastTheBorder | xmcomp/src/writer.c:15-21 | a run of two writes through a ring of four bytes that does so |
| RingSystem.NothingIsLost | xmcomp/src/ringbuffer.c:40-67 | after every interleaving, up to a release outside the buffer, a writer that is done has put all its bytes in, in order |
| RingSystem.WriteWithoutWaitIsContiguous | xmcomp/src/ringbuffer.c:39-69 | after every interleaving, up to a release outside the buffer, a write that never waited was put in in one piece |
| RingSystem.ChunkIsStable | xmcomp/src/writer.c:16-21 | in the runs of ByteStream the bytes sent are those the consumer saw when it got the chunk, whatever writers did in between |
| StanzaQueues.StanzaQueue.constructor | xmcomp/src/queue.c:84-104 | all entries are free, none queued, none held |
| StanzaQueues.StanzaQueue.PopFree | xmcomp/src/queue.c:9-25 | the first free entry changes to the caller's hands, and nobody held it |
| StanzaQueues.StanzaQueue.PushData | xmcomp/src/queue.c:54-68 | the entry is linked behind the last one; what was pushed so far grows by its contents |
| StanzaQueues.StanzaQueue.PopData | xmcomp/src/queue.c:30-49 | the oldest queued entry changes to the caller's hands with the contents it was pushed with; the end is null when the list is empty |
| StanzaQueues.StanzaQueue.PushFree | xmcomp/src/queue.c:73-82 | the entry is in front of the free list again |
| StanzaQueues.StanzaQueue.EveryEntryHasItsPlace | xmcomp/src/queue.c:9-104 | every entry is in exactly one of the free list, the data list and somebody's hands |
| StanzaQueues.Interleave | xmcomp/src/queue.c:9-104 | under every schedule of whole operations of any number of threads no entry is lost or doubled, contents popped are a prefix of contents pushed, and the counters agree with the lists |
| QueueSystem.StepKeeps | xmcomp/src/queue.c:9-82 | every statement of every thread, under either mutex, keeps the invariant of the queue |
| QueueSystem.StepIsOneOperation | xmcomp/src/queue.c:9-82 | every statement moves one entry, as the whole operation does (free list: from and to the front; data list: from the front, to the end), or none |
| QueueSystem.EveryEntryHasItsPlace | xmcomp/src/queue.c:9-104 | after every interleaving of statements each entry is once in the free list, once in the data list, or in the hands of one thread |
| QueueSystem.QueueIsInOrder | xmcomp/src/queue.c:30-68 | after every interleaving of statements what was pushed is what was popped followed by the contents of the data list |
| QueueSystem.UnlockedListsAreWhole | xmcomp/src/queue.c:9-82 | whenever nobody has the mutex of a list, its pointers link exactly its entries and its counters agree with it |
| QueueSystem.OwnerGoesOn | xmcomp/src/queue.c:9-82 | a thread that has a mutex is never stopped by the other one |
| Scanner.RunInParts | xmcomp/src/xmlfsm.c:27-80 | scanning a text in two parts is scanning the whole |
| Scanner.StopIsStable | xmcomp/src/xmlfsm.c:27-84 | where the scan stops does not depend on what follows, and no shorter prefix stops it |
| Scanner.RingScanIsLinear | xmcomp/src/xmlfsm.c:21-36 | with a non-empty low segment the ring scan finds what the linear scan finds on the unwrapped text, if and only if the border does not split an empty tag, or neither scan finds anything |
| XmlFsm.ScanCharacter | xmcomp/src/xmlfsm.c:48-78 | one character outside quotes moves level, tag and closing position as the machine does |
| XmlFsm.ScanTurn | xmcomp/src/xmlfsm.c:38-79 | one turn, with its jump over a quoted stretch, is the machine over those characters |
| XmlFsm.ScanSegment | xmcomp/src/xmlfsm.c:27-80 | the loop over one contiguous segment is the machine over it |
| XmlFsm.SkipNode | xmcomp/src/xmlfsm.c:16-84 | in linear mode the cursor is moved exactly to where the machine stops, or restored |
| XmlFsm.SkipNodeInRing | xmcomp/src/xmlfsm.c:16-84 | in ring mode the cursor is moved, across the border if need be, to where the machine stops, or restored |
| Framing.OverElement | xmcomp/src/xmlfsm.c:27-80 | at every nesting level the machine ends a printed element exactly at its end |
| Framing.ElementIsFramed | xmcomp/src/xmlfsm.c:16-84 | a printed element followed by anything is found with exactly its length, and no proper prefix of it is |
| Framing.SplitElementIsMissed | xmcomp/src/xmlfsm.c:58-64 | every printed empty element whose `/` and `>` lie on the two sides of the border is found by the linear scan and not by the ring scan, whatever follows |
| Framing.ExtractInParts | xmcomp/src/reader.c:111-171 | scanning what was left over together with what arrives equals scanning everything at once |
| Framing.ChunksDoNotMatter | xmcomp/src/reader.c:98-196 | however the bytes arrive, the stanzas are those of the whole text |
| Framing.ExtractPrinted | xmcomp/src/reader.c:111-171 | printed elements followed by an unfinished one are taken apart into exactly these elements |
| Framing.StreamIsFramed | xmcomp/src/reader.c:98-196 | for every split of a printed stream into arrivals the stanzas are exactly the printed elements, and the unfinished one waits |
| Reader.TakeStanza | xmcomp/src/reader.c:110-171 | one rescan takes the next stanza off the front or leaves everything |
| Reader.TakeStanzas | xmcomp/src/reader.c:111-171 | the loop takes every complete stanza |
| Reader.ReadAll | xmcomp/src/reader.c:98-196 | over any sequence of arrivals the loop delivers the stanzas of the whole text |
| XmlWalk.AttrIsRead | xmcomp/src/xmlfsm.c:92-128 | a printed attribute is read back with its name and value in place and the cursor behind it |
| XmlWalk.AttrsAreWalked | xmcomp/src/xmlfsm.c:92-149 | over a printed opening the attributes are read in order with their spelling, then exactly the right kind of end |
| XmlWalk.AttrsAreLocated | xmcomp/src/xmlfsm.c:92-128 | and each of them exactly where it was printed |
| XmlWalk.FoundNodeHasBrackets | xmcomp/src/xmlfsm.c:47-72 | a found node contains `<` and ends with `>`, so its name can be read |
| XmlWalk.NameIsInside | xmcomp/src/xmlfsm.c:130-140 | in any found node, printed or not, the name is read inside its bounds, right behind the first `<` and up to the first character that ends it |
| XmlWalk.ForestIsWalked | xmcomp/src/xmlfsm.c:161-170 | over a printed forest the siblings are exactly its elements in order, with slices and names |
| XmlWalk.PieceIsWalked | xmcomp/src/xmlfsm.c:92-170 | from a sibling's name on, its attributes are read exactly, then empty, or no more attributes and the children |
| XmlWalk.FindAttrIsFirst | xmcomp/src/xmlfsm.c:151-159 | the attribute found is the first with that name; when none is found there is none |
| XmlWalk.FindSiblingIsFirst | xmcomp/src/xmlfsm.c:172-184 | the node found is the first sibling with that name; when none is found there is none |
| XmlWalker.SkipUntil | xmcomp/src/xmlfsm.c:89-90 | the skipping loop stops at the first character that ends it |
| XmlWalker.ReadAttr | xmcomp/src/xmlfsm.c:92-128 | the cursor loop reads exactly the attribute or the end of the tag |
| XmlWalker.ReadName | xmcomp/src/xmlfsm.c:130-140 | the name and the cursor behind it |
| XmlWalker.SkipAttrs | xmcomp/src/xmlfsm.c:142-149 | the cursor behind the tag, and whether the node is open |
| XmlWalker.SkipToAttr | xmcomp/src/xmlfsm.c:151-159 | the first attribute with the name, or the end of the tag |
| XmlWalker.XmlNodeTraverser.NextSibling | xmcomp/src/xmlfsm.c:161-170 | slice, name and cursor of the next sibling, or nothing moved |
| XmlWalker.SkipToNode | xmcomp/src/xmlfsm.c:172-184 | the first sibling with the name and the cursor behind it, or nothing moved |
| Headers.ShownAreValid | src/packet.c:20-38 | what a rewritten header shows is a valid list of attributes: the originals in order without the blanked ones, `from` renamed in switch mode |
| Headers.RewrittenIsPrinted | src/packet.c:20-38 | the rewritten characters are a printing of that list, the blanks having become its white space |
| Headers.FaithfulOne | src/packet.c:20-38 | what a mode leaves of one attribute: a type never stays, the identifier, the addressee and the sender as its bits say, a switch makes the sender the addressee, anything else stays |
| Headers.FaithfulInParts | src/packet.c:20-38 | and of a header what it leaves of its parts, in order |
| Headers.NamesStayDistinct | src/packet.c:28-38 | distinct names stay distinct if and only if it is not the case that `from` becomes `to` beside a kept `to` |
| Packets.IncomingPacket.TakeOne | src/packet.c:150-171 | what one attribute sets, or that it is refused |
| Packets.IncomingPacket.TakeHeader | src/packet.c:145-172 | the attribute loop sets the fields and the bounds of the header, or refuses |
| Packets.IncomingPacket.TakeChild | src/packet.c:46-70 | one child is taken as muc or muc#user, ignored, or refused as a duplicate |
| Packets.IncomingPacket.TakeInner | src/packet.c:41-74 | the loop over the children of a presence |
| Packets.IncomingPacket.ReadHead | src/packet.c:129-172 | stanza name, fields, header and the kind of end of the opening tag |
| Packets.IncomingPacket.FinishFrom | src/packet.c:174-208 | the inner part, and the checks that make a stanza routable |
| Packets.IncomingPacket.ParseFrom | src/packet.c:122-209 | the whole parse accepts, and fills, exactly as the specification |
| Packets.IncomingPacket.FillAlways | src/packet.c:12-23 | the two children and `type` become blanks and no other byte changes |
| Packets.IncomingPacket.FillAsked | src/packet.c:24-38 | the attributes asked for become blanks, `from` becomes `to` behind two blanks, and no other byte changes |
| Packets.IncomingPacket.Cleanup | src/packet.c:11-39 | every byte after the clean-up: blank, part of the new name, or as before |
| PacketLaws.StanzaIsNamed | src/packet.c:134-143 | the three tags, each with its word |
| PacketLaws.TypeIsSpelled | src/packet.c:76-120 | a value is a type if and only if it spells it and the stanza may have it: error any, get, set and result a query, chat and groupchat a message, unavailable a presence |
| PacketLaws.AttrIsNamed | src/packet.c:150-171 | the four attributes that are looked at, each by its name |
| PacketLaws.AllAreTaken | src/packet.c:147-172 | over printed attributes the loop refuses exactly when one of them is unacceptable, and otherwise sets the fields they say |
| PacketLaws.PlacesSay | src/packet.c:150-171 | with distinct names the remembered places are where the four attributes stand |
| PacketLaws.ValuesSay | src/packet.c:150-171 | with distinct names the addresses are those of the attribute values, and the type is one that the stanza may have and that its attribute spells |
| PacketLaws.KidsAreTaken | src/packet.c:41-74 | the children are accepted if and only if there is at most one muc and one muc#user child |
| PacketLaws.StanzaIsAccepted | src/packet.c:122-209 | a printed stanza is accepted if and only if its name is known, its attributes are acceptable, it is routable and, as a presence, has no duplicate child |
| PacketLaws.AcceptedIff | src/packet.c:122-209 | when that is, in the words of the protocol: a known tag, two addresses, a type that suits, a room unless it is a query, groupchat for a message to the room, and at most one muc and one muc#user child in a presence |
| PacketLaws.PacketSays | src/packet.c:122-209 | an accepted packet has the tag of the stanza, its two addresses, and the type that its attribute spells, or none without one |
| PacketLaws.StanzaIsDescribed | src/packet.c:122-209 | an accepted packet describes exactly the printed stanza: fields, header and inner part |
| PacketLaws.PrintedIsReadable | src/packet.c:129-172 | over a printed stanza no reading loop runs past the end |
| CleanUpLaws.HeaderIsCleaned | src/packet.c:20-38 | the bytes of a printed header after the clean-up are its rewritten form, same length |
| CleanUpLaws.CleanUpIsFaithful | src/packet.c:11-39 | reading the header of a parsed stanza again after the clean-up gives the original attributes in order without `type` and the blanked ones, `from` renamed to `to` with its value in switch mode, and the same end of the tag |
| CleanUpLaws.OnlyABareSwitchRepeats | src/packet.h:30-33 | names stay distinct for every accepted stanza if and only if the mode does not switch without blanking `to` |
| CleanUpLaws.QueryRepeatsTo | src/room/room.c:1135 | an ordinary query is a valid accepted stanza, and the clean-up of that line leaves two `to` in its header |
| CleanUpLaws.QueryIsParsed | src/packet.c:122-209 | printed, that query is a stanza in the sense of the theorems above and is parsed |
| CleanedStanza.PacketIsKnown | src/packet.c:122-209 | the packet parsed from a printed stanza, child by child: the spans of the muc and muc#user children are those of the one child with that namespace, together with the text before it |
| CleanedStanza.CleanedIsPrinted | src/packet.c:11-39 | after the clean-up the memory holds the printing of a whole stanza: the same name, the rewritten attributes, the children without the blanked ones, the same closing tag |
| CleanedStanza.ChildrenSurvive | src/packet.c:11-23 | walking the cleaned inner part finds exactly the children that are neither muc nor muc#user, in order, with their attributes |
| CleanedStanza.PacketFits | src/packet.c:11-39 | whatever the clean-up of a parsed stanza may write lies inside the stanza, and from and to are there |
| CleanedStanza.ParseAndClean | src/packet.c:11-209 | parsing a printed stanza and cleaning it in place: accepted exactly when it should be, and then the memory reads again as above; refused, nothing has changed |
| Codec.IntRoundTrip | src/serializer.h:4-8 | an integer that fits is read back and the following bytes are left |
| Codec.BytesAreDigits | src/serializer.h:4-8 | the bytes of a number are its digits to the base 256, least significant first |
| Codec.MarksArePointers | src/utss.h:52-75 | a mark is a pointer of eight bytes, one or null |
| Codec.MarkRoundTrip | src/utss.h:65-75 | a presence mark is read back as present or not |
| Codec.TextRoundTrip | xmcomp/src/buffer.c:8-45 | a text within the limit is read back, empty as absent, and the rest left; a longer one is refused |
| Codec.JidRoundTrip | src/jid.c:190-203 | decoding an encoded address gives what reading its text gives, or fails as that does |
| Codec.JidComesBack | src/jid.c:190-203 | an address is read back as itself if and only if it can be expressed within the limits |
| Codec.ItemsRoundTrip | src/utss.h:98-110 | the loop over the items with its doubled counter reads them all back, or fails at the first unreadable one or over the limit |
| Codec.FirstAreKept | src/utss.h:52-76 | what is written of a container is its first items, up to the limit |
| Codec.ContainerRoundTrip | src/utss.h:52-113 | a container is read back as its first items up to the limit it was written with, in order, the rest left; refused if and only if these exceed the reader's limit or one is unreadable |
| RoomCodec.OccupantRoundTrip | src/participant/participant.c:22-38 | decoding an encoded occupant gives its reading and leaves the rest |
| RoomCodec.OccupantComesBack | src/participant/participant.c:22-38 | an occupant is read back, up to empty and absent texts, if and only if its parts fit |
| RoomCodec.EntryRoundTrip | src/affiliation/affiliation.c:10-20 | the same for an affiliation entry |
| RoomCodec.EntryComesBack | src/affiliation/affiliation.c:10-20 | an entry is read back, up to an empty reason, if and only if its parts fit |
| RoomCodec.HistoryEntryRoundTrip | src/history_entry/history_entry.c:12-26 | the same for a history entry |
| RoomCodec.TextsRoundTrip | src/room/room.c:217-223 | node, title, description, password and subject are read back or refused by their limits |
| RoomCodec.NumbersRoundTrip | src/room/room.c:225-229 | flags, default role, limits and the unused words are read back |
| RoomCodec.RollRoundTrip | src/room/room.c:234-237 | the four affiliation lists in the order they are written |
| RoomCodec.ListsRoundTrip | src/room/room.c:231-237 | history, occupants and affiliation lists |
| RoomCodec.RoomIsLaidOut | src/room/room.c:214-238 | a saved room is its six texts, its numbers, history, occupants, owners, admins, members and outcasts in this order, with nothing in between |
| RoomCodec.OccupantIsLaidOut | src/participant/participant.c:31-38 | a saved occupant is address, nick, presence, affiliation and role in this order |
| RoomCodec.HistoryEntryIsLaidOut | src/history_entry/history_entry.c:12-18 | a saved history entry is nick, header, inner part and delay in this order |
| RoomCodec.RoomRoundTrip | src/room/room.c:214-267 | decoding an encoded room gives its reading, or fails as that does, and leaves the following bytes |
| RoomCodec.EntriesComeBack | src/utss.h:52-113 | a list comes back whole if and only if it is within both limits and every entry fits |
| RoomCodec.OccupantsComeBack | src/utss.h:52-113 | the occupants come back whole if and only if they are within the limit and each fits |
| RoomCodec.HistoryComesBack | src/history_entry/history_entry.c:12-26 | the history comes back whole if and only if it is within its limit and each entry fits |
| RoomCodec.RollComesBack | src/room/room.c:234-266 | the four lists come back whole if and only if all of them fit |
| RoomCodec.ListsComeBack | src/room/room.c:231-266 | history, occupants and lists come back whole if and only if all of them fit |
| RoomCodec.RoomComesBack | src/room/room.c:214-267 | a room loads with the same texts (empty as absent), numbers, history, occupants and lists if and only if every one of them fits |
| RoomCodec.FittingRoomRoundTrip | src/room/room.c:214-267 | the encoding of a room that fits, followed by anything, is decoded as that room and leaves the rest |
| RoomCodec.RoomLoadsIff | src/room/room.c:240-267 | a room loads at all if and only if its texts are within their limits and everything written of its history, occupants and lists can be read: one bad item fails the whole room |
| RoomCodec.PeopleComeBack | src/room/room.c:231-266 | a room loads with all its occupants and all four lists if and only if these fit, its texts are within their limits and its history can be read |
| RoomCodec.CreatedRoomLosesAffiliations | src/room/room.c:139-147 | a room whose lists have limit zero loads whatever they hold, if the rest of it can be read, and then all four lists are empty |
| RoomCodec.KeptPresenceMayNotLoad | src/room/room.c:662-676 | an occupant with a cached presence loads if and only if the presence is at most 65000 bytes |
| Persistence.Output.Write | src/serializer.h:4-5 | the bytes are appended |
| Persistence.Input.Read | src/serializer.h:7-8 | exactly the asked number of bytes is taken off the front, or the read fails |
| Persistence.WriteBuffer | xmcomp/src/buffer.c:8-11 | appends the encoding of the text |
| Persistence.ReadBuffer | xmcomp/src/buffer.c:13-30 | reads as the decoder says |
| Persistence.WriteJid | src/jid.c:190-195 | appends the encoding of the address |
| Persistence.ReadJidFrom | src/jid.c:197-203 | reads as the decoder says |
| Persistence.WriteContainer | src/utss.h:52-76 | the loop with its break at the limit appends the encoding of the container |
| Persistence.ReadContainerFrom | src/utss.h:84-113 | the do-while loop with its counter reads as the decoder says |
| Persistence.WriteRoom | src/room/room.c:214-238 | appends the encoding of the room |
| Persistence.ReadRoomFrom | src/room/room.c:240-267 | reads as the decoder says |
| Persistence.SaveAndLoad | src/room/room.c:214-267 | writing a room and loading it succeeds exactly when everything written can be read, and gives the same room exactly when the room fits |

## Left out

Contracts that are narrower than the source in a way a reader should know:

- RoomsLaws.EveryClientAgrees: runs with a set bounced midway are excluded, because the property is false of them; `RoomLaws.MidwayBounceAgreesIffNothingChanged` says exactly when it still holds after one, and `RoomsLaws.EveryClientIsInformed` what holds of the runs that have one.
- RoomsLaws.EveryClientIsInformed: runs in which a room with a mark in it is destroyed are excluded, because it is false of `ShortRuns.DestructionLeavesClientBehind`; `RosterLaws.RouteInforms` is about every step without exception.
- AffiliationLaws.OwnersSurvive: is about a sender that is listed as owner; `AffiliationLaws.OwnersAreEmptiedIff` says for every sender exactly when the owner list is emptied.
- RingBuffers.RingBuffer.Write: returns when the ring is full instead of waiting; the wait for room, and other writers in between, are steps of `RingSystem`.
- RingBuffers.RingBuffer.GetChunk: returns 0 when the ring is empty instead of waiting for data, and reads a size that nobody changes meanwhile; the readings are steps of their own in `RingSystem`.
- RingSystem.ByteStream: leaves out the runs that `RingSystem.SteadyIff` describes, because it is false of `RingSystem.RunPastTheBorder`.
- RingSystem.StepKeeps: a run ends where a release has taken the read position out of the buffer; what writers overwrite from then on is not modelled.
- StanzaQueues.Interleave: takes whole operations; operations that overlap are `QueueSystem`.
- StanzaQueues.StanzaQueue.PopFree: returns null when no entry is free instead of waiting; a thread that waits is one that tries again later.
- StanzaQueues.StanzaQueue.PopData: returns null when nothing is queued instead of waiting, as above.
- Scanner.RingScanIsLinear: asks for a non-empty low segment; with an empty one the source goes on past the end of the data, because after the wrap it does not look at the new end first.
- XmlFsm.SkipNodeInRing: asks for wrapped data with a non-empty low segment, as above; data that is not wrapped is `XmlFsm.SkipNode`.
- XmlWalker.ReadAttr: asks that the reading ends inside the memory, because the source never looks at the end of the buffer; `PacketLaws.PrintedIsReadable` and `XmlWalk.PieceIsWalked` show that it does over printed text.
- XmlWalker.ReadName: asks for a `<` in the buffer and for a character that ends the name, as above; `XmlWalk.NameIsInside` shows both for every found node.
- XmlWalker.SkipAttrs: asks that the tag ends inside the memory, as above.
- XmlWalker.SkipToAttr: asks that the attribute or the end of the tag is inside the memory, as above.
- Packets.IncomingPacket.ParseFrom: asks that the reading loops end inside the memory, as above.
- Packets.IncomingPacket.Cleanup: asks that what it writes to is in the memory, and that attributes to be blanked or renamed were parsed, which the source assumes; `CleanedStanza.PacketFits` derives both for every parsed stanza, but for an `id` that is asked for and not there.
- Rooms.Room.Configure: takes the options ready made; reading them out of the form's XML is not modelled.
- Reader.TakeStanza: works on contiguous text; the ring arithmetic of the loop is not modelled.
- Reader.TakeStanzas: works on contiguous text, as above.
- Reader.ReadAll: works on contiguous text, as above, and the buffer has no limit and does not grow.

Not modelled:

- Messages: `route_message`, subject changes, the message history and its limits (src/room/room.c, src/history_entry/history_entries.c). A room's subject is a field that no step changes.
- The text of outgoing stanzas (`src/builder.c`) and the failure of `worker_send`: sending appends an abstract packet. `route_iq` sets neither the name nor the room of the packets it sends, and no addressee in its replies (src/room/room.c:882, 910-935, 1134-1136); the packets of the model name the addressee that is meant.
- Reading `<item/>` nodes and configuration forms out of the XML of a query (src/room/room.c:692-736, 857-879): a query carries its items or options; title and description are options without effect, and `btoi` is not modelled.
- Registered nicks and the container of all rooms in the stored file; both use the container code of `src/utss.h` that is modelled.
- Addresses with a part that is present but empty (`@host`, `host/`) as occupants: `jid_set` drops such a part; the room keeps addresses as they came. `JidText` does cover them.
- Addresses, reasons and presences that lie in the stanza buffer are values here, so a clean-up that overwrites the buffer they lie in, or a reason kept after its buffer is reused, is not seen.
- Concurrent access to one room, the locks of `src/room/rooms.c`, a change of the ACL during a run, and a run that starts from loaded rooms (whose size counters are doubled).
- Weak memory: a thread's reads and writes take effect at once and in program order. A memcpy into the ring is one step.
- Liveness and wake-ups of the ring and the queue, statistics other than the push and pop counters, `ringbuffer_clear`, `ringbuffer_offline`, and the release after a failed send.
- The ring arithmetic of `xmcomp/src/reader.c`; only its loop that rescans what is left over is modelled, on contiguous text.
- CDATA sections and comments, which the scanner does not know either. Bytes are characters; there is no Unicode.
- Failing writes, `errno`, and the byte order of the stored integers, taken as little-endian two's complement of four bytes, with an eight-byte presence mark.
- Allocation: memory that is freed is an object that is no longer reachable. The lists and tables of utlist and uthash are sequences, except the affected list and the two queues, which are linked.
- `src/component.c`, `src/mewcat.c`, configuration, start-up, signals, network, timers and logging.
