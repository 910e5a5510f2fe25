/** How a room is saved and loaded (src/room/room.c, src/participant/participant.c,
 *  src/affiliation/affiliation.c, src/history_entry/history_entry.c).
 */
module RoomCodec {
  import opened Common
  import opened Jids
  import opened JidText
  import opened Codec
  import RoomModel

  const USER_STRING_OPTION_LIMIT := 8192
  const MAX_PRESENCE_SIZE := 65000
  const MAX_AFFILIATION_REASON_SIZE := 65000
  const MAX_HISTORY_HEADER_SIZE := 65000
  const MAX_HISTORY_INNER_SIZE := 65000

  /** The limit that a loaded room has for its affiliation lists. */
  const LIST_LIMIT := 10240

  const TIME_SIZE := 8

  type time = n: int | FitsBytes(n, TIME_SIZE)

  datatype Occupant = Occupant(jid: Jid, nick: Buffer, presence: Buffer, affiliation: int32, role: int32)

  datatype Entry = Entry(jid: Jid, reason: Buffer)

  datatype HistoryEntry = HistoryEntry(nick: Buffer, header: Buffer, inner: Buffer, delay: time)

  lemma {:induction false} Regroup(a: string, b: string, c: string)
    ensures a + b + c == a + (b + c)
  {
  }

  // ----- Items of the containers -----

  function EncodeOccupant(o: Occupant): string {
    EncodeJid(o.jid) + (EncodeChars(Chars(o.nick)) + (EncodeChars(Chars(o.presence)) +
    (EncodeInt32(o.affiliation) + EncodeInt32(o.role))))
  }

  function DecodeOccupant(s: string): Decoded<Occupant> {
    var (jid, s) :- DecodeJid(s);
    var (nick, s) :- DecodeText(s, MAX_JID_PART_SIZE);
    var (presence, s) :- DecodeText(s, MAX_PRESENCE_SIZE);
    var (affiliation, s) :- DecodeInt32(s);
    var (role, s) :- DecodeInt32(s);
    Got(Occupant(jid, nick, presence, affiliation, role), s)
  }

  /** The occupant that a saved one is read as. */
  function ReadOccupant(o: Occupant): Option<Occupant> {
    var jid := ReadJid(o.jid);
    if jid.Some? && |Chars(o.nick)| <= MAX_JID_PART_SIZE && |Chars(o.presence)| <= MAX_PRESENCE_SIZE
    then Some(Occupant(jid.value, Normal(o.nick), Normal(o.presence), o.affiliation, o.role))
    else None
  }

  predicate OccupantSized(o: Occupant) {
    Sized(Written(o.jid)) && Sized(Chars(o.nick)) && Sized(Chars(o.presence))
  }

  lemma {:induction false} OccupantRoundTrip(o: Occupant, rest: string)
    requires OccupantSized(o)
    ensures DecodeOccupant(EncodeOccupant(o) + rest) == AsDecoded(ReadOccupant(o), rest)
  {
    var e := EncodeInt32(o.role) + rest;
    var d := EncodeInt32(o.affiliation) + e;
    var c := EncodeChars(Chars(o.presence)) + d;
    OccupantParts(o, rest);
    JidRoundTrip(o.jid, EncodeChars(Chars(o.nick)) + c);
    TextRoundTrip(o.nick, MAX_JID_PART_SIZE, c);
    TextRoundTrip(o.presence, MAX_PRESENCE_SIZE, d);
    Int32RoundTrip(o.affiliation, e);
    Int32RoundTrip(o.role, rest);
  }

  function NormalOccupant(o: Occupant): Occupant {
    o.(nick := Normal(o.nick), presence := Normal(o.presence))
  }

  /** An occupant comes back if and only if its address has a text of its own and its nick and
   *  presence fit. */
  lemma {:induction false} OccupantComesBack(o: Occupant)
    ensures ReadOccupant(o) == Some(NormalOccupant(o)) <==>
            Storable(o.jid) && |Chars(o.nick)| <= 1023 && |Chars(o.presence)| <= 65000
  {
    JidComesBack(o.jid);
  }

  lemma {:induction false} OccupantParts(o: Occupant, rest: string)
    ensures EncodeOccupant(o) + rest ==
            EncodeJid(o.jid) + (EncodeChars(Chars(o.nick)) + (EncodeChars(Chars(o.presence)) +
            (EncodeInt32(o.affiliation) + (EncodeInt32(o.role) + rest))))
  {
    var d := EncodeInt32(o.affiliation) + EncodeInt32(o.role);
    var c := EncodeChars(Chars(o.presence)) + d;
    var b := EncodeChars(Chars(o.nick)) + c;
    Regroup(EncodeJid(o.jid), b, rest);
    Regroup(EncodeChars(Chars(o.nick)), c, rest);
    Regroup(EncodeChars(Chars(o.presence)), d, rest);
    Regroup(EncodeInt32(o.affiliation), EncodeInt32(o.role), rest);
  }

  function EncodeEntry(e: Entry): string {
    EncodeJid(e.jid) + EncodeChars(Chars(e.reason))
  }

  function DecodeEntry(s: string): Decoded<Entry> {
    var (jid, s) :- DecodeJid(s);
    var (reason, s) :- DecodeText(s, MAX_AFFILIATION_REASON_SIZE);
    Got(Entry(jid, reason), s)
  }

  function ReadEntry(e: Entry): Option<Entry> {
    var jid := ReadJid(e.jid);
    if jid.Some? && |Chars(e.reason)| <= MAX_AFFILIATION_REASON_SIZE
    then Some(Entry(jid.value, Normal(e.reason)))
    else None
  }

  predicate EntrySized(e: Entry) {
    Sized(Written(e.jid)) && Sized(Chars(e.reason))
  }

  lemma {:induction false} EntryRoundTrip(e: Entry, rest: string)
    requires EntrySized(e)
    ensures DecodeEntry(EncodeEntry(e) + rest) == AsDecoded(ReadEntry(e), rest)
  {
    Regroup(EncodeJid(e.jid), EncodeChars(Chars(e.reason)), rest);
    JidRoundTrip(e.jid, EncodeChars(Chars(e.reason)) + rest);
    TextRoundTrip(e.reason, MAX_AFFILIATION_REASON_SIZE, rest);
  }

  lemma {:induction false} EntryComesBack(e: Entry)
    ensures ReadEntry(e) == Some(e.(reason := Normal(e.reason))) <==>
            Storable(e.jid) && |Chars(e.reason)| <= 65000
  {
    JidComesBack(e.jid);
  }

  function EncodeHistoryEntry(h: HistoryEntry): string {
    EncodeChars(Chars(h.nick)) + (EncodeChars(Chars(h.header)) +
    (EncodeChars(Chars(h.inner)) + EncodeInt(h.delay, TIME_SIZE)))
  }

  function DecodeHistoryEntry(s: string): Decoded<HistoryEntry> {
    var (nick, s) :- DecodeText(s, MAX_JID_PART_SIZE);
    var (header, s) :- DecodeText(s, MAX_HISTORY_HEADER_SIZE);
    var (inner, s) :- DecodeText(s, MAX_HISTORY_INNER_SIZE);
    var (delay, s) :- DecodeInt(s, TIME_SIZE);
    if !FitsBytes(delay, TIME_SIZE) then Fail else Got(HistoryEntry(nick, header, inner, delay), s)
  }

  function ReadHistoryEntry(h: HistoryEntry): Option<HistoryEntry> {
    if |Chars(h.nick)| <= MAX_JID_PART_SIZE && |Chars(h.header)| <= MAX_HISTORY_HEADER_SIZE &&
       |Chars(h.inner)| <= MAX_HISTORY_INNER_SIZE
    then Some(HistoryEntry(Normal(h.nick), Normal(h.header), Normal(h.inner), h.delay))
    else None
  }

  predicate HistoryEntrySized(h: HistoryEntry) {
    Sized(Chars(h.nick)) && Sized(Chars(h.header)) && Sized(Chars(h.inner))
  }

  lemma {:induction false} HistoryEntryRoundTrip(h: HistoryEntry, rest: string)
    requires HistoryEntrySized(h)
    ensures DecodeHistoryEntry(EncodeHistoryEntry(h) + rest) == AsDecoded(ReadHistoryEntry(h), rest)
  {
    var d := EncodeInt(h.delay, TIME_SIZE);
    var c := EncodeChars(Chars(h.inner)) + d;
    var b := EncodeChars(Chars(h.header)) + c;
    Regroup(EncodeChars(Chars(h.nick)), b, rest);
    Regroup(EncodeChars(Chars(h.header)), c, rest);
    Regroup(EncodeChars(Chars(h.inner)), d, rest);
    TextRoundTrip(h.nick, MAX_JID_PART_SIZE, b + rest);
    TextRoundTrip(h.header, MAX_HISTORY_HEADER_SIZE, c + rest);
    TextRoundTrip(h.inner, MAX_HISTORY_INNER_SIZE, d + rest);
    IntRoundTrip(h.delay, TIME_SIZE, rest);
  }

  // ----- The room -----

  datatype Texts = Texts(node: Buffer, title: Buffer, description: Buffer, password: Buffer,
                         subject: Buffer, subjectNick: Buffer)

  /** `unused` is an array of twelve ints, kept as its bytes. */
  datatype Numbers = Numbers(flags: int32, defaultRole: int32, maxSize: int32, maxHistory: int32, unused: string)

  const UNUSED_SIZE := 48

  /** The affiliation lists in the order in which they are saved. */
  datatype Roll = Roll(owners: seq<Entry>, admins: seq<Entry>, members: seq<Entry>, outcasts: seq<Entry>)

  datatype Lists = Lists(history: seq<HistoryEntry>, occupants: seq<Occupant>, roll: Roll)

  function EncodeTexts(t: Texts): string {
    EncodeChars(Chars(t.node)) + (EncodeChars(Chars(t.title)) + (EncodeChars(Chars(t.description)) +
    (EncodeChars(Chars(t.password)) + (EncodeChars(Chars(t.subject)) + EncodeChars(Chars(t.subjectNick))))))
  }

  function DecodeTexts(s: string): Decoded<Texts> {
    var (node, s) :- DecodeText(s, MAX_JID_PART_SIZE);
    var (title, s) :- DecodeText(s, USER_STRING_OPTION_LIMIT);
    var (description, s) :- DecodeText(s, USER_STRING_OPTION_LIMIT);
    var (password, s) :- DecodeText(s, USER_STRING_OPTION_LIMIT);
    var (subject, s) :- DecodeText(s, USER_STRING_OPTION_LIMIT);
    var (subjectNick, s) :- DecodeText(s, USER_STRING_OPTION_LIMIT);
    Got(Texts(node, title, description, password, subject, subjectNick), s)
  }

  function ReadTexts(t: Texts): Option<Texts> {
    if |Chars(t.node)| <= MAX_JID_PART_SIZE && |Chars(t.title)| <= USER_STRING_OPTION_LIMIT &&
       |Chars(t.description)| <= USER_STRING_OPTION_LIMIT && |Chars(t.password)| <= USER_STRING_OPTION_LIMIT &&
       |Chars(t.subject)| <= USER_STRING_OPTION_LIMIT && |Chars(t.subjectNick)| <= USER_STRING_OPTION_LIMIT
    then Some(Texts(Normal(t.node), Normal(t.title), Normal(t.description), Normal(t.password),
                    Normal(t.subject), Normal(t.subjectNick)))
    else None
  }

  predicate TextsSized(t: Texts) {
    && Sized(Chars(t.node)) && Sized(Chars(t.title)) && Sized(Chars(t.description))
    && Sized(Chars(t.password)) && Sized(Chars(t.subject)) && Sized(Chars(t.subjectNick))
  }

  lemma {:induction false} TextsRoundTrip(t: Texts, rest: string)
    requires TextsSized(t)
    ensures DecodeTexts(EncodeTexts(t) + rest) == AsDecoded(ReadTexts(t), rest)
  {
    var e := EncodeChars(Chars(t.subject)) + EncodeChars(Chars(t.subjectNick));
    var d := EncodeChars(Chars(t.password)) + e;
    var c := EncodeChars(Chars(t.description)) + d;
    var b := EncodeChars(Chars(t.title)) + c;
    Regroup(EncodeChars(Chars(t.node)), b, rest);
    Regroup(EncodeChars(Chars(t.title)), c, rest);
    Regroup(EncodeChars(Chars(t.description)), d, rest);
    Regroup(EncodeChars(Chars(t.password)), e, rest);
    Regroup(EncodeChars(Chars(t.subject)), EncodeChars(Chars(t.subjectNick)), rest);
    TextRoundTrip(t.node, MAX_JID_PART_SIZE, b + rest);
    TextRoundTrip(t.title, USER_STRING_OPTION_LIMIT, c + rest);
    TextRoundTrip(t.description, USER_STRING_OPTION_LIMIT, d + rest);
    TextRoundTrip(t.password, USER_STRING_OPTION_LIMIT, e + rest);
    TextRoundTrip(t.subject, USER_STRING_OPTION_LIMIT, EncodeChars(Chars(t.subjectNick)) + rest);
    TextRoundTrip(t.subjectNick, USER_STRING_OPTION_LIMIT, rest);
  }

  function EncodeNumbers(n: Numbers): string {
    EncodeInt32(n.flags) + (EncodeInt32(n.defaultRole) + (EncodeInt32(n.maxSize) +
    (EncodeInt32(n.maxHistory) + n.unused)))
  }

  function DecodeNumbers(s: string): Decoded<Numbers> {
    var (flags, s) :- DecodeInt32(s);
    var (defaultRole, s) :- DecodeInt32(s);
    var (maxSize, s) :- DecodeInt32(s);
    var (maxHistory, s) :- DecodeInt32(s);
    if |s| < UNUSED_SIZE then Fail
    else Got(Numbers(flags, defaultRole, maxSize, maxHistory, s[..UNUSED_SIZE]), s[UNUSED_SIZE..])
  }

  lemma {:induction false} NumbersRoundTrip(n: Numbers, rest: string)
    requires |n.unused| == UNUSED_SIZE
    ensures DecodeNumbers(EncodeNumbers(n) + rest) == Got(n, rest)
  {
    var d := EncodeInt32(n.maxHistory) + n.unused;
    var c := EncodeInt32(n.maxSize) + d;
    var b := EncodeInt32(n.defaultRole) + c;
    Regroup(EncodeInt32(n.flags), b, rest);
    Regroup(EncodeInt32(n.defaultRole), c, rest);
    Regroup(EncodeInt32(n.maxSize), d, rest);
    Regroup(EncodeInt32(n.maxHistory), n.unused, rest);
    Int32RoundTrip(n.flags, b + rest);
    Int32RoundTrip(n.defaultRole, c + rest);
    Int32RoundTrip(n.maxSize, d + rest);
    Int32RoundTrip(n.maxHistory, n.unused + rest);
    assert (n.unused + rest)[..UNUSED_SIZE] == n.unused && (n.unused + rest)[UNUSED_SIZE..] == rest;
  }

  // ----- The lists -----

  function EncodeEntries(entries: seq<Entry>, limit: int): string {
    EncodeContainer(entries, limit, EncodeEntry)
  }

  function DecodeEntries(s: string): Decoded<Container<Entry>> {
    DecodeContainer(s, LIST_LIMIT, DecodeEntry)
  }

  /** The items of a list as they are read: the counter is dropped. */
  function ItemsRead<T>(items: seq<T>, written: int, limit: int, back: T -> Option<T>): Option<seq<T>> {
    var c := ReadContainer(items, written, limit, back);
    if c.None? then None else Some(c.value.items)
  }

  predicate EntriesSized(entries: seq<Entry>) {
    forall i :: 0 <= i < |entries| ==> EntrySized(entries[i])
  }

  lemma {:induction false} EntriesRoundTrip(entries: seq<Entry>, limit: int, rest: string)
    requires EntriesSized(entries)
    ensures DecodeEntries(EncodeEntries(entries, limit) + rest) ==
            AsDecoded(ReadContainer(entries, limit, LIST_LIMIT, ReadEntry), rest)
  {
    var kept := Kept(entries, limit);
    forall i, tail: string | 0 <= i < |kept|
      ensures DecodeEntry(EncodeEntry(kept[i]) + tail) == AsDecoded(ReadEntry(kept[i]), tail)
    {
      EntryRoundTrip(kept[i], tail);
    }
    ContainerRoundTrip(entries, limit, LIST_LIMIT, rest, ReadEntry, EncodeEntry, DecodeEntry);
  }

  /** The reader's limit is the writer's: it was read before. */
  lemma {:induction false} OccupantsRoundTrip(occupants: seq<Occupant>, limit: int, rest: string)
    requires forall i :: 0 <= i < |occupants| ==> OccupantSized(occupants[i])
    ensures DecodeContainer(EncodeContainer(occupants, limit, EncodeOccupant) + rest, limit, DecodeOccupant) ==
            AsDecoded(ReadContainer(occupants, limit, limit, ReadOccupant), rest)
  {
    var kept := Kept(occupants, limit);
    forall i, tail: string | 0 <= i < |kept|
      ensures DecodeOccupant(EncodeOccupant(kept[i]) + tail) == AsDecoded(ReadOccupant(kept[i]), tail)
    {
      OccupantRoundTrip(kept[i], tail);
    }
    ContainerRoundTrip(occupants, limit, limit, rest, ReadOccupant, EncodeOccupant, DecodeOccupant);
  }

  lemma {:induction false} HistoryRoundTrip(history: seq<HistoryEntry>, limit: int, rest: string)
    requires forall i :: 0 <= i < |history| ==> HistoryEntrySized(history[i])
    ensures DecodeContainer(EncodeContainer(history, limit, EncodeHistoryEntry) + rest, limit, DecodeHistoryEntry) ==
            AsDecoded(ReadContainer(history, limit, limit, ReadHistoryEntry), rest)
  {
    var kept := Kept(history, limit);
    forall i, tail: string | 0 <= i < |kept|
      ensures DecodeHistoryEntry(EncodeHistoryEntry(kept[i]) + tail) == AsDecoded(ReadHistoryEntry(kept[i]), tail)
    {
      HistoryEntryRoundTrip(kept[i], tail);
    }
    ContainerRoundTrip(history, limit, limit, rest, ReadHistoryEntry, EncodeHistoryEntry, DecodeHistoryEntry);
  }

  ghost predicate GotItems<T>(d: Decoded<Container<T>>, items: Option<seq<T>>, rest: string) {
    if items.None? then d.Fail? else d.Got? && d.value.items == items.value && d.rest == rest
  }

  lemma {:induction false} EntriesRead(entries: seq<Entry>, limit: int, rest: string, d: Decoded<Container<Entry>>)
    requires EntriesSized(entries) && d == DecodeEntries(EncodeEntries(entries, limit) + rest)
    ensures GotItems(d, ItemsRead(entries, limit, LIST_LIMIT, ReadEntry), rest)
  {
    EntriesRoundTrip(entries, limit, rest);
  }

  function EncodeRoll(l: Roll, limit: int): string {
    EncodeEntries(l.owners, limit) + (EncodeEntries(l.admins, limit) +
    (EncodeEntries(l.members, limit) + EncodeEntries(l.outcasts, limit)))
  }

  function DecodeRoll(s: string): Decoded<Roll> {
    var (owners, s) :- DecodeEntries(s);
    var (admins, s) :- DecodeEntries(s);
    var (members, s) :- DecodeEntries(s);
    var (outcasts, s) :- DecodeEntries(s);
    Got(Roll(owners.items, admins.items, members.items, outcasts.items), s)
  }

  function ReadRoll(l: Roll, limit: int): Option<Roll> {
    var owners := ItemsRead(l.owners, limit, LIST_LIMIT, ReadEntry);
    var admins := ItemsRead(l.admins, limit, LIST_LIMIT, ReadEntry);
    var members := ItemsRead(l.members, limit, LIST_LIMIT, ReadEntry);
    var outcasts := ItemsRead(l.outcasts, limit, LIST_LIMIT, ReadEntry);
    if owners.Some? && admins.Some? && members.Some? && outcasts.Some?
    then Some(Roll(owners.value, admins.value, members.value, outcasts.value))
    else None
  }

  predicate RollSized(l: Roll) {
    EntriesSized(l.owners) && EntriesSized(l.admins) && EntriesSized(l.members) && EntriesSized(l.outcasts)
  }

  lemma {:induction false} RollRoundTrip(l: Roll, limit: int, rest: string)
    requires RollSized(l)
    ensures DecodeRoll(EncodeRoll(l, limit) + rest) == AsDecoded(ReadRoll(l, limit), rest)
  {
    var c := EncodeEntries(l.members, limit) + EncodeEntries(l.outcasts, limit);
    var b := EncodeEntries(l.admins, limit) + c;
    Regroup(EncodeEntries(l.owners, limit), b, rest);
    Regroup(EncodeEntries(l.admins, limit), c, rest);
    Regroup(EncodeEntries(l.members, limit), EncodeEntries(l.outcasts, limit), rest);
    EntriesRead(l.owners, limit, b + rest, DecodeEntries(EncodeEntries(l.owners, limit) + (b + rest)));
    EntriesRead(l.admins, limit, c + rest, DecodeEntries(EncodeEntries(l.admins, limit) + (c + rest)));
    var last := EncodeEntries(l.outcasts, limit) + rest;
    EntriesRead(l.members, limit, last, DecodeEntries(EncodeEntries(l.members, limit) + last));
    EntriesRead(l.outcasts, limit, rest, DecodeEntries(last));
  }

  function EncodeLists(l: Lists, n: Numbers, listLimit: int): string {
    EncodeContainer(l.history, n.maxHistory, EncodeHistoryEntry) +
    (EncodeContainer(l.occupants, n.maxSize, EncodeOccupant) + EncodeRoll(l.roll, listLimit))
  }

  function DecodeLists(s: string, n: Numbers): Decoded<Lists> {
    var (history, s) :- DecodeContainer(s, n.maxHistory, DecodeHistoryEntry);
    var (occupants, s) :- DecodeContainer(s, n.maxSize, DecodeOccupant);
    var (roll, s) :- DecodeRoll(s);
    Got(Lists(history.items, occupants.items, roll), s)
  }

  /** The lists that saved ones are read as. */
  function ReadLists(l: Lists, n: Numbers, listLimit: int): Option<Lists> {
    var history := ItemsRead(l.history, n.maxHistory, n.maxHistory, ReadHistoryEntry);
    var occupants := ItemsRead(l.occupants, n.maxSize, n.maxSize, ReadOccupant);
    var roll := ReadRoll(l.roll, listLimit);
    if history.Some? && occupants.Some? && roll.Some? then Some(Lists(history.value, occupants.value, roll.value))
    else None
  }

  predicate ListsSized(l: Lists) {
    && (forall i :: 0 <= i < |l.history| ==> HistoryEntrySized(l.history[i]))
    && (forall i :: 0 <= i < |l.occupants| ==> OccupantSized(l.occupants[i]))
    && RollSized(l.roll)
  }

  lemma {:induction false} ListsRoundTrip(l: Lists, n: Numbers, listLimit: int, rest: string)
    requires ListsSized(l)
    ensures DecodeLists(EncodeLists(l, n, listLimit) + rest, n) == AsDecoded(ReadLists(l, n, listLimit), rest)
  {
    var c := EncodeRoll(l.roll, listLimit);
    var b := EncodeContainer(l.occupants, n.maxSize, EncodeOccupant) + c;
    Regroup(EncodeContainer(l.history, n.maxHistory, EncodeHistoryEntry), b, rest);
    Regroup(EncodeContainer(l.occupants, n.maxSize, EncodeOccupant), c, rest);
    HistoryRoundTrip(l.history, n.maxHistory, b + rest);
    OccupantsRoundTrip(l.occupants, n.maxSize, c + rest);
    RollRoundTrip(l.roll, listLimit, rest);
  }

  /** A room as it is saved. The limit of its affiliation lists is not saved with it. */
  datatype Room = Room(texts: Texts, numbers: Numbers, lists: Lists, listLimit: int)

  /** room_serialize. */
  function EncodeRoom(r: Room): string {
    EncodeTexts(r.texts) + (EncodeNumbers(r.numbers) + EncodeLists(r.lists, r.numbers, r.listLimit))
  }

  // ----- The order on the stream -----

  function Joined(parts: seq<string>): string {
    if parts == [] then "" else parts[0] + Joined(parts[1..])
  }

  lemma {:induction false} JoinedFirst(part: string, parts: seq<string>)
    ensures Joined([part] + parts) == part + Joined(parts)
  {
    assert ([part] + parts)[1..] == parts;
  }

  lemma {:induction false} JoinedInParts(a: seq<string>, b: seq<string>)
    ensures Joined(a + b) == Joined(a) + Joined(b)
    decreases |a|
  {
    if a == [] {
      assert a + b == b;
    } else {
      assert (a + b)[1..] == a[1..] + b;
      JoinedInParts(a[1..], b);
    }
  }

  lemma {:induction false} JoinedFour(a: string, b: string, c: string, d: string)
    ensures Joined([a, b, c, d]) == a + (b + (c + d))
  {
    JoinedFirst(d, []);
    JoinedFirst(c, [d]);
    JoinedFirst(b, [c, d]);
    JoinedFirst(a, [b, c, d]);
    assert [d] + [] == [d] && [c] + [d] == [c, d] && [b] + [c, d] == [b, c, d] && [a] + [b, c, d] == [a, b, c, d];
  }

  lemma {:induction false} OccupantIsLaidOut(o: Occupant)
    ensures EncodeOccupant(o) ==
            Joined([EncodeChars(Written(o.jid)), EncodeChars(Chars(o.nick)), EncodeChars(Chars(o.presence)),
                    EncodeInt32(o.affiliation) + EncodeInt32(o.role)])
  {
    JoinedFour(EncodeChars(Written(o.jid)), EncodeChars(Chars(o.nick)), EncodeChars(Chars(o.presence)),
               EncodeInt32(o.affiliation) + EncodeInt32(o.role));
  }

  lemma {:induction false} HistoryEntryIsLaidOut(h: HistoryEntry)
    ensures EncodeHistoryEntry(h) ==
            Joined([EncodeChars(Chars(h.nick)), EncodeChars(Chars(h.header)), EncodeChars(Chars(h.inner)),
                    EncodeInt(h.delay, TIME_SIZE)])
  {
    JoinedFour(EncodeChars(Chars(h.nick)), EncodeChars(Chars(h.header)), EncodeChars(Chars(h.inner)),
               EncodeInt(h.delay, TIME_SIZE));
  }

  /** The texts of a saved room, its numbers and its lists. */
  function TextParts(t: Texts): seq<string> {
    [EncodeChars(Chars(t.node)), EncodeChars(Chars(t.title)), EncodeChars(Chars(t.description)),
     EncodeChars(Chars(t.password)), EncodeChars(Chars(t.subject)), EncodeChars(Chars(t.subjectNick))]
  }

  function NumberParts(n: Numbers): seq<string> {
    [EncodeInt32(n.flags), EncodeInt32(n.defaultRole), EncodeInt32(n.maxSize), EncodeInt32(n.maxHistory), n.unused]
  }

  function ListParts(r: Room): seq<string> {
    [EncodeContainer(r.lists.history, r.numbers.maxHistory, EncodeHistoryEntry),
     EncodeContainer(r.lists.occupants, r.numbers.maxSize, EncodeOccupant),
     EncodeContainer(r.lists.roll.owners, r.listLimit, EncodeEntry),
     EncodeContainer(r.lists.roll.admins, r.listLimit, EncodeEntry),
     EncodeContainer(r.lists.roll.members, r.listLimit, EncodeEntry),
     EncodeContainer(r.lists.roll.outcasts, r.listLimit, EncodeEntry)]
  }

  lemma {:induction false} JoinedSix(a: string, b: string, c: string, d: string, e: string, f: string)
    ensures Joined([a, b, c, d, e, f]) == a + (b + (c + (d + (e + f))))
  {
    JoinedFour(c, d, e, f);
    JoinedFirst(b, [c, d, e, f]);
    JoinedFirst(a, [b, c, d, e, f]);
    assert [b] + [c, d, e, f] == [b, c, d, e, f] && [a] + [b, c, d, e, f] == [a, b, c, d, e, f];
  }

  lemma {:induction false} TextsAreLaidOut(t: Texts)
    ensures EncodeTexts(t) == Joined(TextParts(t))
  {
    JoinedSix(EncodeChars(Chars(t.node)), EncodeChars(Chars(t.title)), EncodeChars(Chars(t.description)),
              EncodeChars(Chars(t.password)), EncodeChars(Chars(t.subject)), EncodeChars(Chars(t.subjectNick)));
  }

  lemma {:induction false} NumbersAreLaidOut(n: Numbers)
    ensures EncodeNumbers(n) == Joined(NumberParts(n))
  {
    var a, b := EncodeInt32(n.flags), EncodeInt32(n.defaultRole);
    var c, d := EncodeInt32(n.maxSize), EncodeInt32(n.maxHistory);
    JoinedFour(b, c, d, n.unused);
    JoinedFirst(a, [b, c, d, n.unused]);
    assert [a] + [b, c, d, n.unused] == NumberParts(n);
  }

  lemma {:induction false} ListsAreLaidOut(r: Room)
    ensures EncodeLists(r.lists, r.numbers, r.listLimit) == Joined(ListParts(r))
  {
    var p := ListParts(r);
    JoinedSix(p[0], p[1], p[2], p[3], p[4], p[5]);
    assert p == [p[0], p[1], p[2], p[3], p[4], p[5]];
  }

  /** A saved room is its texts, numbers and lists in this order, with nothing in between. */
  lemma {:induction false} RoomIsLaidOut(r: Room)
    ensures EncodeRoom(r) == Joined(TextParts(r.texts) + NumberParts(r.numbers) + ListParts(r))
  {
    TextsAreLaidOut(r.texts);
    NumbersAreLaidOut(r.numbers);
    ListsAreLaidOut(r);
    JoinedInParts(TextParts(r.texts), NumberParts(r.numbers));
    JoinedInParts(TextParts(r.texts) + NumberParts(r.numbers), ListParts(r));
    Regroup(EncodeTexts(r.texts), EncodeNumbers(r.numbers), EncodeLists(r.lists, r.numbers, r.listLimit));
  }

  // ----- What is read -----

  /** room_deserialize. */
  function DecodeRoom(s: string): Decoded<Room> {
    var (texts, s) :- DecodeTexts(s);
    var (numbers, s) :- DecodeNumbers(s);
    var (lists, s) :- DecodeLists(s, numbers);
    Got(Room(texts, numbers, lists, LIST_LIMIT), s)
  }

  /** The room that a saved one is read as. */
  function ReadRoom(r: Room): Option<Room> {
    var texts, lists := ReadTexts(r.texts), ReadLists(r.lists, r.numbers, r.listLimit);
    if texts.Some? && lists.Some? then Some(Room(texts.value, r.numbers, lists.value, LIST_LIMIT)) else None
  }

  /** Sizes are C ints. */
  predicate RoomSized(r: Room) {
    TextsSized(r.texts) && |r.numbers.unused| == UNUSED_SIZE && ListsSized(r.lists)
  }

  /** What becomes of a saved room, whatever it holds; what follows on the stream is left. */
  lemma {:induction false} RoomRoundTrip(r: Room, rest: string)
    requires RoomSized(r)
    ensures DecodeRoom(EncodeRoom(r) + rest) == AsDecoded(ReadRoom(r), rest)
  {
    var lists := EncodeLists(r.lists, r.numbers, r.listLimit);
    Regroup(EncodeTexts(r.texts), EncodeNumbers(r.numbers) + lists, rest);
    Regroup(EncodeNumbers(r.numbers), lists, rest);
    TextsRoundTrip(r.texts, EncodeNumbers(r.numbers) + lists + rest);
    NumbersRoundTrip(r.numbers, lists + rest);
    ListsRoundTrip(r.lists, r.numbers, r.listLimit, rest);
  }

  // ----- What is recovered, and what is lost -----

  /** Everything is as before, up to empty versus null. */
  predicate SameEntries(a: seq<Entry>, b: seq<Entry>) {
    |a| == |b| && forall i :: 0 <= i < |a| ==> b[i] == a[i].(reason := Normal(a[i].reason))
  }

  predicate SameOccupants(a: seq<Occupant>, b: seq<Occupant>) {
    |a| == |b| && forall i :: 0 <= i < |a| ==> b[i] == NormalOccupant(a[i])
  }

  predicate EntriesFit(entries: seq<Entry>, limit: int) {
    && (entries == [] || (|entries| <= limit && |entries| <= 10240))
    && forall i :: 0 <= i < |entries| ==>
         Storable(entries[i].jid) && |Chars(entries[i].reason)| <= 65000
  }

  predicate OccupantsFit(o: seq<Occupant>, limit: int) {
    && (o == [] || |o| <= limit)
    && forall i :: 0 <= i < |o| ==>
         Storable(o[i].jid) && |Chars(o[i].nick)| <= 1023 && |Chars(o[i].presence)| <= 65000
  }

  /** An affiliation list is recovered if and only if it fits both limits, its reasons fit, and
   *  its addresses have texts of their own. */
  lemma {:induction false} EntriesComeBack(entries: seq<Entry>, limit: int, r: Option<seq<Entry>>)
    requires r == ItemsRead(entries, limit, LIST_LIMIT, ReadEntry)
    ensures r.Some? && SameEntries(entries, r.value) <==> EntriesFit(entries, limit)
  {
    var kept := Kept(entries, limit);
    forall i | 0 <= i < |kept|
      ensures ReadEntry(kept[i]) == Some(kept[i].(reason := Normal(kept[i].reason))) <==>
              Storable(kept[i].jid) && |Chars(kept[i].reason)| <= 65000
    {
      EntryComesBack(kept[i]);
    }
  }

  lemma {:induction false} OccupantsComeBack(o: seq<Occupant>, limit: int, r: Option<seq<Occupant>>)
    requires r == ItemsRead(o, limit, limit, ReadOccupant)
    ensures r.Some? && SameOccupants(o, r.value) <==> OccupantsFit(o, limit)
  {
    var kept := Kept(o, limit);
    forall i | 0 <= i < |kept|
      ensures ReadOccupant(kept[i]) == Some(NormalOccupant(kept[i])) <==>
              Storable(kept[i].jid) && |Chars(kept[i].nick)| <= 1023 &&
              |Chars(kept[i].presence)| <= 65000
    {
      OccupantComesBack(kept[i]);
    }
  }

  predicate HistoryEntryFits(h: HistoryEntry) {
    && |Chars(h.nick)| <= 1023 && |Chars(h.header)| <= 65000
    && |Chars(h.inner)| <= 65000
  }

  predicate HistoryFit(h: seq<HistoryEntry>, limit: int) {
    && (h == [] || |h| <= limit)
    && forall i :: 0 <= i < |h| ==> HistoryEntryFits(h[i])
  }

  function NormalHistoryEntry(h: HistoryEntry): HistoryEntry {
    HistoryEntry(Normal(h.nick), Normal(h.header), Normal(h.inner), h.delay)
  }

  predicate SameHistory(a: seq<HistoryEntry>, b: seq<HistoryEntry>) {
    |a| == |b| && forall i :: 0 <= i < |a| ==> b[i] == NormalHistoryEntry(a[i])
  }

  lemma {:induction false} HistoryComesBack(h: seq<HistoryEntry>, limit: int, r: Option<seq<HistoryEntry>>)
    requires r == ItemsRead(h, limit, limit, ReadHistoryEntry)
    ensures r.Some? && SameHistory(h, r.value) <==> HistoryFit(h, limit)
  {
    var kept := Kept(h, limit);
    forall i | 0 <= i < |kept|
      ensures ReadHistoryEntry(kept[i]) == if HistoryEntryFits(kept[i]) then Some(NormalHistoryEntry(kept[i])) else None
    {
    }
  }

  predicate TextsFit(t: Texts) {
    && |Chars(t.node)| <= 1023 && |Chars(t.title)| <= 8192
    && |Chars(t.description)| <= 8192 && |Chars(t.password)| <= 8192
    && |Chars(t.subject)| <= 8192 && |Chars(t.subjectNick)| <= 8192
  }

  predicate SameTexts(a: Texts, b: Texts) {
    && b.node == Normal(a.node) && b.title == Normal(a.title) && b.description == Normal(a.description)
    && b.password == Normal(a.password) && b.subject == Normal(a.subject) && b.subjectNick == Normal(a.subjectNick)
  }

  predicate SameRoll(a: Roll, b: Roll) {
    && SameEntries(a.owners, b.owners) && SameEntries(a.admins, b.admins)
    && SameEntries(a.members, b.members) && SameEntries(a.outcasts, b.outcasts)
  }

  predicate RollFits(l: Roll, limit: int) {
    && EntriesFit(l.owners, limit) && EntriesFit(l.admins, limit)
    && EntriesFit(l.members, limit) && EntriesFit(l.outcasts, limit)
  }

  lemma {:induction false} RollComesBack(l: Roll, limit: int, r: Option<Roll>)
    requires r == ReadRoll(l, limit)
    ensures r.Some? && SameRoll(l, r.value) <==> RollFits(l, limit)
  {
    EntriesComeBack(l.owners, limit, ItemsRead(l.owners, limit, LIST_LIMIT, ReadEntry));
    EntriesComeBack(l.admins, limit, ItemsRead(l.admins, limit, LIST_LIMIT, ReadEntry));
    EntriesComeBack(l.members, limit, ItemsRead(l.members, limit, LIST_LIMIT, ReadEntry));
    EntriesComeBack(l.outcasts, limit, ItemsRead(l.outcasts, limit, LIST_LIMIT, ReadEntry));
  }

  predicate SameLists(a: Lists, b: Lists) {
    SameHistory(a.history, b.history) && SameOccupants(a.occupants, b.occupants) && SameRoll(a.roll, b.roll)
  }

  predicate ListsFit(l: Lists, n: Numbers, listLimit: int) {
    HistoryFit(l.history, n.maxHistory) && OccupantsFit(l.occupants, n.maxSize) && RollFits(l.roll, listLimit)
  }

  lemma {:induction false} ListsComeBack(l: Lists, n: Numbers, listLimit: int, r: Option<Lists>)
    requires r == ReadLists(l, n, listLimit)
    ensures r.Some? && SameLists(l, r.value) <==> ListsFit(l, n, listLimit)
  {
    HistoryComesBack(l.history, n.maxHistory, ItemsRead(l.history, n.maxHistory, n.maxHistory, ReadHistoryEntry));
    OccupantsComeBack(l.occupants, n.maxSize, ItemsRead(l.occupants, n.maxSize, n.maxSize, ReadOccupant));
    RollComesBack(l.roll, listLimit, ReadRoll(l.roll, listLimit));
  }

  /** A room is the same as before, up to empty versus null and the limit that is not saved. */
  predicate SameRoom(a: Room, b: Room) {
    SameTexts(a.texts, b.texts) && b.numbers == a.numbers && SameLists(a.lists, b.lists)
  }

  /** Every text is within its limit, every list within its own and the reader's, and every
   *  address has a text of its own. */
  predicate RoomFits(r: Room) {
    TextsFit(r.texts) && ListsFit(r.lists, r.numbers, r.listLimit)
  }

  /** A room loads, and is as it was saved, if and only if it fits. */
  lemma {:induction false} RoomComesBack(r: Room, loaded: Option<Room>)
    requires loaded == ReadRoom(r)
    ensures loaded.Some? && SameRoom(r, loaded.value) <==> RoomFits(r)
  {
    ListsComeBack(r.lists, r.numbers, r.listLimit, ReadLists(r.lists, r.numbers, r.listLimit));
  }

  lemma {:induction false} StorableIsShort(j: Jid)
    requires Storable(j)
    ensures Sized(Written(j))
  {
    ExpressibleIsShort(j);
  }

  /** What fits has sizes that are C ints. */
  lemma {:induction false} FittingIsSized(r: Room)
    requires RoomFits(r)
    ensures TextsSized(r.texts) && ListsSized(r.lists)
  {
    forall i | 0 <= i < |r.lists.occupants|
      ensures OccupantSized(r.lists.occupants[i])
    {
      StorableIsShort(r.lists.occupants[i].jid);
    }
    FittingEntriesAreSized(r.lists.roll.owners, r.listLimit);
    FittingEntriesAreSized(r.lists.roll.admins, r.listLimit);
    FittingEntriesAreSized(r.lists.roll.members, r.listLimit);
    FittingEntriesAreSized(r.lists.roll.outcasts, r.listLimit);
  }

  lemma {:induction false} FittingEntriesAreSized(entries: seq<Entry>, limit: int)
    requires EntriesFit(entries, limit)
    ensures EntriesSized(entries)
  {
    forall i | 0 <= i < |entries|
      ensures EntrySized(entries[i])
    {
      StorableIsShort(entries[i].jid);
    }
  }

  /** The round trip of a whole room: what fits is decoded as itself, whatever follows. */
  lemma {:induction false} FittingRoomRoundTrip(r: Room, rest: string, d: Decoded<Room>)
    requires RoomFits(r) && |r.numbers.unused| == UNUSED_SIZE
    requires d == DecodeRoom(EncodeRoom(r) + rest)
    ensures d.Got? && d.rest == rest && SameRoom(r, d.value)
  {
    FittingIsSized(r);
    RoomRoundTrip(r, rest);
    RoomComesBack(r, ReadRoom(r));
  }

  // ----- What loads at all -----

  /** The text of the address is the text of one that can be expressed. */
  ghost predicate Legible(j: Jid) {
    exists k: Jid :: Expressible(k) && Text(k) == Written(j)
  }

  lemma {:induction false} LegibleIsRead(j: Jid)
    ensures ReadJid(j).Some? <==> Legible(j)
  {
    if ReadJid(j).Some? {
      StructUndoesText(Written(j), ReadJid(j).value);
    }
    if k: Jid :| Expressible(k) && Text(k) == Written(j) {
      StructUndoesText(Written(j), k);
      ExpressibleIsShort(k);
    }
  }

  ghost predicate EntriesLoad(kept: seq<Entry>) {
    && |kept| <= 10240
    && forall i :: 0 <= i < |kept| ==> Legible(kept[i].jid) && |Chars(kept[i].reason)| <= 65000
  }

  ghost predicate OccupantsLoad(kept: seq<Occupant>) {
    forall i :: 0 <= i < |kept| ==>
      Legible(kept[i].jid) && |Chars(kept[i].nick)| <= 1023 &&
      |Chars(kept[i].presence)| <= 65000
  }

  predicate HistoryLoads(kept: seq<HistoryEntry>) {
    forall i :: 0 <= i < |kept| ==> HistoryEntryFits(kept[i])
  }

  ghost predicate RollLoads(l: Roll, limit: int) {
    && EntriesLoad(Kept(l.owners, limit)) && EntriesLoad(Kept(l.admins, limit))
    && EntriesLoad(Kept(l.members, limit)) && EntriesLoad(Kept(l.outcasts, limit))
  }

  /** What is written of the room is within the reader's limits and has legible addresses. */
  ghost predicate RoomLoads(r: Room) {
    && TextsFit(r.texts)
    && HistoryLoads(Kept(r.lists.history, r.numbers.maxHistory))
    && OccupantsLoad(Kept(r.lists.occupants, r.numbers.maxSize))
    && RollLoads(r.lists.roll, r.listLimit)
  }

  lemma {:induction false} EntriesLoadIff(entries: seq<Entry>, limit: int)
    ensures ItemsRead(entries, limit, LIST_LIMIT, ReadEntry).Some? <==> EntriesLoad(Kept(entries, limit))
  {
    var kept := Kept(entries, limit);
    forall i | 0 <= i < |kept|
      ensures ReadEntry(kept[i]).Some? <==>
              Legible(kept[i].jid) && |Chars(kept[i].reason)| <= 65000
    {
      LegibleIsRead(kept[i].jid);
    }
  }

  lemma {:induction false} OccupantsLoadIff(o: seq<Occupant>, limit: int)
    ensures ItemsRead(o, limit, limit, ReadOccupant).Some? <==> OccupantsLoad(Kept(o, limit))
  {
    var kept := Kept(o, limit);
    forall i | 0 <= i < |kept|
      ensures ReadOccupant(kept[i]).Some? <==>
              Legible(kept[i].jid) && |Chars(kept[i].nick)| <= 1023 &&
              |Chars(kept[i].presence)| <= 65000
    {
      LegibleIsRead(kept[i].jid);
    }
  }

  lemma {:induction false} HistoryLoadsIff(h: seq<HistoryEntry>, limit: int)
    ensures ItemsRead(h, limit, limit, ReadHistoryEntry).Some? <==> HistoryLoads(Kept(h, limit))
  {
    var kept := Kept(h, limit);
    forall i | 0 <= i < |kept|
      ensures ReadHistoryEntry(kept[i]).Some? <==> HistoryEntryFits(kept[i])
    {
    }
  }

  /** A room loads if and only if everything that is written of it can be read: one bad item
   *  keeps the whole room from loading. */
  lemma {:induction false} RoomLoadsIff(r: Room)
    ensures ReadRoom(r).Some? <==> RoomLoads(r)
  {
    HistoryLoadsIff(r.lists.history, r.numbers.maxHistory);
    OccupantsLoadIff(r.lists.occupants, r.numbers.maxSize);
    EntriesLoadIff(r.lists.roll.owners, r.listLimit);
    EntriesLoadIff(r.lists.roll.admins, r.listLimit);
    EntriesLoadIff(r.lists.roll.members, r.listLimit);
    EntriesLoadIff(r.lists.roll.outcasts, r.listLimit);
  }

  predicate SamePeople(a: Lists, b: Lists) {
    SameOccupants(a.occupants, b.occupants) && SameRoll(a.roll, b.roll)
  }

  predicate PeopleFit(r: Room) {
    OccupantsFit(r.lists.occupants, r.numbers.maxSize) && RollFits(r.lists.roll, r.listLimit)
  }

  /** A room loads with the occupants and affiliations it was saved with if and only if these
   *  fit and its texts and what is written of its history can be read. */
  lemma {:induction false} PeopleComeBack(r: Room)
    ensures ReadRoom(r).Some? && SamePeople(r.lists, ReadRoom(r).value.lists) <==>
            TextsFit(r.texts) && HistoryLoads(Kept(r.lists.history, r.numbers.maxHistory)) && PeopleFit(r)
  {
    var l, n := r.lists, r.numbers;
    HistoryLoadsIff(l.history, n.maxHistory);
    OccupantsComeBack(l.occupants, n.maxSize, ItemsRead(l.occupants, n.maxSize, n.maxSize, ReadOccupant));
    RollComesBack(l.roll, r.listLimit, ReadRoll(l.roll, r.listLimit));
  }

  /** A room that was created, and not loaded, has no limit set for its affiliation lists: it
   *  loads whatever they hold, and loses them all, the founding owner's entry too. */
  lemma {:induction false} CreatedRoomLosesAffiliations(r: Room)
    requires r.listLimit == 0
    ensures ReadRoom(r).Some? <==>
            && TextsFit(r.texts)
            && HistoryLoads(Kept(r.lists.history, r.numbers.maxHistory))
            && OccupantsLoad(Kept(r.lists.occupants, r.numbers.maxSize))
    ensures ReadRoom(r).Some? ==> ReadRoom(r).value.lists.roll == Roll([], [], [], [])
  {
    RoomLoadsIff(r);
  }

  /** An occupant of the room, as it is saved. */
  function Saved(o: RoomModel.Occupant): Occupant {
    Occupant(o.jid, Some(o.nick), o.presence, o.affiliation, o.role)
  }

  /** The presence that the room keeps for newcomers may be too long for the reader: with it the
   *  occupant is read if and only if it is no longer than the reader's limit. */
  lemma {:induction false} KeptPresenceMayNotLoad(o: RoomModel.Occupant)
    requires Storable(o.jid) && |o.nick| <= 1023 && RoomModel.Cached(o.presence) == o.presence
    ensures ReadOccupant(Saved(o)).Some? <==> o.presence.None? || |o.presence.value| <= 65000
  {
    OccupantComesBack(Saved(o));
    JidComesBack(o.jid);
  }
}
