/** What sets that are accepted do: whom the final loop tells what, what a form leaves of the
 *  configuration, and how a room is purged or ends.
 */
module SetRules {
  import opened Common
  import opened Jids
  import opened Affiliations
  import opened AffiliationLaws
  import opened RoomModel
  import opened RoomInvariants
  import opened Roster
  import opened RosterLaws
  import opened RoomLaws
  import opened MixedSets
  import opened RoomRules
  import RoomsLaws

  // ----- Who must go, and why -----

  /** Why somebody must go, with the status code that says so; the end of the room needs none. */
  datatype Ground = TheEnd | BannedOne | NoMember | KickedOut | Stays

  function GroundOf(flags: set<Flag>, o: Occupant): Ground {
    if Destroyed in flags then TheEnd
    else if o.affiliation == OUTCAST then BannedOne
    else if o.affiliation == NONE && MembersOnly in flags then NoMember
    else if o.role == ROLE_NONE then KickedOut
    else Stays
  }

  /** The presence in which everybody is told what becomes of the occupant `o`. */
  predicate Announces(p: Packet, s: RoomState, o: Occupant) {
    var ground := GroundOf(s.flags, o);
    && p.Presence? && p.fromNode == s.node && p.fromNick == o.nick && p.newNick == None
    && p.affiliation == o.affiliation && p.reason == o.reason
    && (if ground == Stays then !p.unavailable && p.role == o.role && p.content == o.presence
        else p.unavailable && p.role == ROLE_NONE && p.content == None)
    && (Banned in p.codes <==> ground == BannedOne)
    && (NonMemberRemoved in p.codes <==> ground == NoMember)
    && (Kicked in p.codes <==> ground == KickedOut)
    && NicknameChanged !in p.codes
    && (SelfPresence !in p.codes ==> p.codes <= {Banned, NonMemberRemoved, Kicked})
  }

  /** As it is for the occupant at `k`: only its own carries the code that says so, and real
   *  addresses are for moderators where the room is semi-anonymous, but not for one who goes. */
  predicate Reaches(p: Packet, s: RoomState, i: nat, k: nat)
    requires p.Presence? && i < |s.occupants| && k < |s.occupants|
  {
    && p.to == s.occupants[k].jid && (SelfPresence in p.codes <==> k == i)
    && var shown := s.occupants[k].role == MODERATOR && (k == i ==> GroundOf(s.flags, s.occupants[i]) == Stays);
       p.realJid == if SemiAnonymous in s.flags && !shown then None else Some(s.occupants[i].jid)
  }

  lemma {:induction false} VerdictIsAnnounced(s: RoomState, i: nat, o: Occupant, codes: set<Status>, sent: seq<Packet>)
    requires i < |s.occupants| && o == Settled(s.flags, s.occupants[i]) && codes == Verdict(s.flags, s.occupants[i]).1
    requires sent == Broadcast(WithOccupant(s, i, o), i, None, codes)
    ensures AreAnnounced(sent, s, i)
  {
    var settled := WithOccupant(s, i, o);
    BroadcastShows(settled, i, None, codes);
    forall k | 0 <= k < |sent|
      ensures Announces(sent[k], s, s.occupants[i]) && Reaches(sent[k], s, i, k)
    {
      ShownIsAnnounced(sent[k], settled, s, i, codes, k);
    }
  }

  lemma {:induction false} ShownIsAnnounced(
      p: Packet, settled: RoomState, s: RoomState, i: nat, codes: set<Status>, k: nat)
    requires i < |s.occupants| && settled == WithOccupant(s, i, Settled(s.flags, s.occupants[i])) && k < |s.occupants|
    requires codes == Verdict(s.flags, s.occupants[i]).1
    requires Shows(p, settled, settled.occupants[i], settled.occupants[k]) && CodesAre(p, s.flags, k == i, codes)
    requires p.unavailable == (settled.occupants[i].role == ROLE_NONE)
    requires p.newNick == None && p.reason == settled.occupants[i].reason
    ensures Announces(p, s, s.occupants[i]) && Reaches(p, s, i, k)
  {
  }

  /** Everybody in turn gets the announcement of the occupant at `i`. */
  predicate AreAnnounced(sent: seq<Packet>, s: RoomState, i: nat)
    requires i < |s.occupants|
  {
    && |sent| == |s.occupants|
    && forall k :: 0 <= k < |sent| ==>
         Announces(sent[k], s, s.occupants[i]) && Reaches(sent[k], s, i, k)
  }

  /** Where the occupant at `k` is after the turn of the one at `i`. */
  function PlaceLeft(s: RoomState, i: nat, k: nat): nat
    requires i < |s.occupants|
  {
    if GroundOf(s.flags, s.occupants[i]) != Stays && k > i then k - 1 else k
  }

  /** After the turn of the first one the others are where they were or one place before, as
   *  they were; those still to come are the others of the list. */
  ghost predicate GoesOn(s: RoomState, affected: seq<nat>, next: RoomState, left: seq<nat>)
    requires Positions(s, affected) && affected != []
  {
    && Positions(next, left) && |left| == |affected| - 1 && next.node == s.node
    && (left != [] ==> next.flags == s.flags)
    && (forall k :: 0 <= k < |s.occupants| && k != affected[0] ==>
          && PlaceLeft(s, affected[0], k) < |next.occupants|
          && next.occupants[PlaceLeft(s, affected[0], k)] == s.occupants[k])
    && (forall j :: 0 <= j < |left| ==> left[j] == PlaceLeft(s, affected[0], affected[j + 1]))
  }

  lemma {:induction false} FirstOneLeaves(
      s: RoomState, affected: seq<nat>, settled: RoomState, next: RoomState, left: seq<nat>)
    requires Positions(s, affected) && affected != [] && GroundOf(s.flags, s.occupants[affected[0]]) != Stays
    requires |settled.occupants| == |s.occupants| && settled.node == s.node && settled.flags == s.flags
    requires forall k :: 0 <= k < |s.occupants| && k != affected[0] ==> settled.occupants[k] == s.occupants[k]
    requires next == Leave(settled, affected[0]) && left == Shifted(affected[1..], affected[0])
    ensures GoesOn(s, affected, next, left)
  {
    PositionsAfterLeave(settled, affected, affected[1..], left);
    RoomGoesOn(s, affected, settled, next);
    OthersMoveUp(s, affected[0], settled, next);
    forall j | 0 <= j < |left|
      ensures left[j] == PlaceLeft(s, affected[0], affected[j + 1])
    {
      assert affected[1..][j] == affected[j + 1];
    }
  }

  lemma {:induction false} RoomGoesOn(s: RoomState, affected: seq<nat>, settled: RoomState, next: RoomState)
    requires Positions(s, affected) && affected != [] && |settled.occupants| == |s.occupants|
    requires settled.flags == s.flags && next == Leave(settled, affected[0])
    ensures |affected| > 1 ==> next.flags == s.flags
  {
    if |affected| > 1 {
      assert affected[1] != affected[0] && affected[1] < |s.occupants|;
    }
  }

  lemma {:induction false} OthersMoveUp(s: RoomState, i: nat, settled: RoomState, next: RoomState)
    requires i < |s.occupants| == |settled.occupants| && GroundOf(s.flags, s.occupants[i]) != Stays
    requires forall k :: 0 <= k < |s.occupants| && k != i ==> settled.occupants[k] == s.occupants[k]
    requires next == Leave(settled, i)
    ensures |next.occupants| == |s.occupants| - 1
    ensures forall k :: 0 <= k < |s.occupants| && k != i ==>
              PlaceLeft(s, i, k) < |next.occupants| && next.occupants[PlaceLeft(s, i, k)] == s.occupants[k]
  {
  }

  /** A turn of the final loop announces the first one and leaves the others to later turns. */
  lemma {:induction false} FirstTurnAnnounces(s: RoomState, affected: seq<nat>)
      returns (announced: seq<Packet>, next: RoomState, left: seq<nat>)
    requires Positions(s, affected) && affected != []
    ensures AreAnnounced(announced, s, affected[0]) && GoesOn(s, affected, next, left)
    ensures Finish(s, affected) == Outcome(Finish(next, left).state, announced + Finish(next, left).sent)
  {
    var i := affected[0];
    var o, codes := Settled(s.flags, s.occupants[i]), Verdict(s.flags, s.occupants[i]).1;
    var settled := WithOccupant(s, i, o);
    announced := Broadcast(settled, i, None, codes);
    VerdictIsAnnounced(s, i, o, codes, announced);
    if o.role == ROLE_NONE {
      next, left := Leave(settled, i), Shifted(affected[1..], i);
      FirstOneLeaves(s, affected, settled, next, left);
    } else {
      next, left := WithOccupant(settled, i, settled.occupants[i].(reason := None)), affected[1..];
    }
  }

  /** Whatever the final loop sends announces one of those on the list, as it was before the loop. */
  lemma {:induction false} FinishAnnouncesOnly(s: RoomState, affected: seq<nat>, p: Packet)
    requires Positions(s, affected) && p in Finish(s, affected).sent
    ensures exists j :: 0 <= j < |affected| && Announces(p, s, s.occupants[affected[j]])
    decreases |affected|
  {
    if affected != [] {
      var announced, next, left := FirstTurnAnnounces(s, affected);
      if p !in announced {
        FinishAnnouncesOnly(next, left, p);
        var j :| 0 <= j < |left| && Announces(p, next, next.occupants[left[j]]);
        assert next.occupants[left[j]] == s.occupants[affected[j + 1]];
      }
    }
  }

  /** Among these packets is the announcement of the occupant at `i` for the one at `k`. */
  ghost predicate Hears(sent: seq<Packet>, s: RoomState, i: nat, k: nat)
    requires i < |s.occupants| && k < |s.occupants|
  {
    exists p :: p in sent && p.Presence? && Announces(p, s, s.occupants[i]) && Reaches(p, s, i, k)
  }

  /** Each of those on the list is announced to everybody who is not on the list before it, and
   *  so also to itself. */
  lemma {:induction false} FinishAnnounces(s: RoomState, affected: seq<nat>, j: nat, k: nat)
    requires Positions(s, affected) && j < |affected| && k < |s.occupants| && k !in affected[..j]
    ensures Hears(Finish(s, affected).sent, s, affected[j], k)
    decreases |affected|
  {
    var announced, next, left := FirstTurnAnnounces(s, affected);
    if j == 0 {
      assert announced[k] in Finish(s, affected).sent;
    } else {
      NotListedYet(s, affected, left, j, k);
      FinishAnnounces(next, left, j - 1, PlaceLeft(s, affected[0], k));
      HearsLater(s, affected[0], affected[j], k, next, left[j - 1], announced, Finish(next, left).sent);
    }
  }

  lemma {:induction false} HearsLater(
      s: RoomState, first: nat, i: nat, k: nat, next: RoomState, i': nat, announced: seq<Packet>, later: seq<Packet>)
    requires first < |s.occupants| && i < |s.occupants| && k < |s.occupants| && i' < |next.occupants|
    requires next.node == s.node && next.flags == s.flags && PlaceLeft(s, first, k) < |next.occupants|
    requires next.occupants[i'] == s.occupants[i] && next.occupants[PlaceLeft(s, first, k)] == s.occupants[k]
    requires i' == PlaceLeft(s, first, k) <==> i == k
    requires Hears(later, next, i', PlaceLeft(s, first, k))
    ensures Hears(announced + later, s, i, k)
  {
    var p :| p in later && p.Presence? && Announces(p, next, next.occupants[i'])
             && Reaches(p, next, i', PlaceLeft(s, first, k));
    assert p in announced + later && Announces(p, s, s.occupants[i]) && Reaches(p, s, i, k);
  }

  lemma {:induction false} NotListedYet(s: RoomState, affected: seq<nat>, left: seq<nat>, j: nat, k: nat)
    requires Positions(s, affected) && 0 < j < |affected| == |left| + 1 && k < |s.occupants| && k !in affected[..j]
    requires forall n :: 0 <= n < |left| ==> left[n] == PlaceLeft(s, affected[0], affected[n + 1])
    ensures k != affected[0] && PlaceLeft(s, affected[0], k) !in left[..j - 1]
    ensures left[j - 1] == PlaceLeft(s, affected[0], k) <==> affected[j] == k
  {
    assert affected[0] in affected[..j];
    forall n | 0 <= n < j - 1
      ensures left[n] != PlaceLeft(s, affected[0], k)
    {
      assert affected[n + 1] in affected[..j] && affected[n + 1] != affected[0];
    }
  }

  // ----- What a form leaves -----

  datatype Topic = OnFlag(flag: Flag) | OnSize | OnEntryRole | OnSecret

  /** The option says something of the topic. Only who has the right may speak of persistence. */
  predicate About(o: ConfigOption, t: Topic, aclRole: int) {
    match t
    case OnFlag(f) =>
      (o.SetFlag? && o.flag == f) || (o.SetPersistent? && f == Persistent && aclRole >= ACL_MUC_PERSIST)
    case OnSize => o.SetMaxUsers?
    case OnEntryRole => o.SetDefaultRole?
    case OnSecret => o.SetSecret?
  }

  /** What it says holds. The size is one up to 1024, which stands for anything else. */
  predicate Holds(s: RoomState, o: ConfigOption, t: Topic) {
    match t
    case OnFlag(f) => (o.SetFlag? || o.SetPersistent?) && (o.on <==> f in s.flags)
    case OnSize => o.SetMaxUsers? && s.maxSize == if 1 <= o.n <= 1024 then o.n else 1024
    case OnEntryRole => o.SetDefaultRole? && s.defaultRole == if o.member then PARTICIPANT else VISITOR
    case OnSecret => o.SetSecret? && s.password == Some(o.secret)
  }

  predicate Alike(s: RoomState, r: RoomState, t: Topic) {
    match t
    case OnFlag(f) => f in s.flags <==> f in r.flags
    case OnSize => s.maxSize == r.maxSize
    case OnEntryRole => s.defaultRole == r.defaultRole
    case OnSecret => s.password == r.password
  }

  ghost predicate LastWord(options: seq<ConfigOption>, i: int, t: Topic, aclRole: int) {
    && 0 <= i < |options| && About(options[i], t, aclRole)
    && forall j :: i < j < |options| ==> !About(options[j], t, aclRole)
  }

  lemma {:induction false} OptionSays(s: RoomState, o: ConfigOption, t: Topic, aclRole: int)
    ensures if About(o, t, aclRole) then Holds(SetOption(s, aclRole, o), o, t)
            else Alike(s, SetOption(s, aclRole, o), t)
    ensures SetOption(s, aclRole, o).subject == s.subject
  {
  }

  /** Of each topic the last word of the form counts, and what is not spoken of stays. */
  lemma {:induction false} LastWordCounts(
      s: RoomState, aclRole: int, options: seq<ConfigOption>, t: Topic, r: RoomState)
    requires r == SetOptions(s, aclRole, options)
    ensures forall i :: LastWord(options, i, t, aclRole) ==> Holds(r, options[i], t)
    ensures (forall i :: 0 <= i < |options| ==> !About(options[i], t, aclRole)) ==> Alike(s, r, t)
    ensures r.subject == s.subject
    decreases |options|
  {
    if options != [] {
      var rest, next := options[1..], SetOption(s, aclRole, options[0]);
      OptionSays(s, options[0], t, aclRole);
      LastWordCounts(next, aclRole, rest, t, r);
      forall i | LastWord(options, i, t, aclRole)
        ensures Holds(r, options[i], t)
      {
        assert forall j :: 0 <= j < |rest| ==> rest[j] == options[j + 1];
        if i > 0 {
          assert LastWord(rest, i - 1, t, aclRole);
        }
      }
    }
  }

  // ----- Whom an admin set marks, with which reason -----

  /** After these items, one more gives the occupant at `k` a role or another affiliation. */
  predicate TouchesAt(s: RoomState, acl: Acl, items: seq<Item>, item: Item, k: nat)
    requires k < |s.occupants|
  {
    if MovesSomebody(item) then
      AffiliationAfter(s, acl, items + [item], k) != AffiliationAfter(s, acl, items, k)
    else item.Item? && item.role.Some? && item.nick == Some(s.occupants[k].nick)
  }

  /** The position of the first item that does, or the number of items. */
  function FirstTouch(s: RoomState, acl: Acl, items: seq<Item>, k: nat): (i: nat)
    requires k < |s.occupants|
    ensures i <= |items|
    decreases |items|
  {
    if items == [] then 0
    else
      var before := items[..|items| - 1];
      var i := FirstTouch(s, acl, before, k);
      if i < |before| || TouchesAt(s, acl, before, items[|items| - 1], k) then i else |items|
  }

  lemma {:induction false} OneMoreTouch(s: RoomState, acl: Acl, items: seq<Item>, item: Item, k: nat)
    requires k < |s.occupants|
    ensures var i := FirstTouch(s, acl, items, k);
            FirstTouch(s, acl, items + [item], k) ==
            if i < |items| || TouchesAt(s, acl, items, item, k) then i else |items| + 1
    ensures forall n :: 0 <= n < |items| ==> (items + [item])[n] == items[n]
  {
    assert (items + [item])[..|items|] == items;
  }

  /** Whoever was touched is marked, with the reason of the first item that did; a mark that was
   *  there before keeps its reason. */
  ghost predicate MarkedBy(s: RoomState, acl: Acl, items: seq<Item>, t: RoomState) {
    && |t.occupants| == |s.occupants|
    && forall k :: 0 <= k < |s.occupants| ==> IsMarkedBy(s, acl, items, k, t.occupants[k])
  }

  predicate IsMarkedBy(s: RoomState, acl: Acl, items: seq<Item>, k: nat, now: Occupant)
    requires k < |s.occupants|
  {
    var i := FirstTouch(s, acl, items, k);
    if s.occupants[k].included || i == |items| then
      now.included == s.occupants[k].included && now.reason == s.occupants[k].reason
    else now.included && items[i].Item? && now.reason == items[i].reason
  }

  /** The loop over the occupants marks those whose affiliation is no longer what it was. */
  lemma {:induction false} RecomputeMarksEach(m: Marked, acl: Acl, i: nat, reason: Option<string>, r: Marked, k: nat)
    requires m.Valid() && i <= |m.state.occupants| && r == Recompute(m, acl, i, reason) && k < |m.state.occupants|
    ensures var o, now := m.state.occupants[k], r.state.occupants[k];
            if o.included || k < i || GetByJid(m.state.lists, acl, o.jid) == o.affiliation then
              now.included == o.included && now.reason == o.reason
            else now.included && now.reason == reason
    decreases |m.state.occupants| - i
  {
    if i < |m.state.occupants| {
      RecomputeMarksEach(RecomputeOne(m, acl, i, reason), acl, i + 1, reason, r, k);
    }
  }

  /** One more item marks those it touches. */
  lemma {:induction false} OneMoreMark(
      s: RoomState, acl: Acl, items: seq<Item>, item: Item, k: nat, o: Occupant, now: Occupant)
    requires k < |s.occupants| && IsMarkedBy(s, acl, items, k, o) && item.Item?
    requires if o.included || !TouchesAt(s, acl, items, item, k)
             then now.included == o.included && now.reason == o.reason
             else now.included && now.reason == item.reason
    ensures IsMarkedBy(s, acl, items + [item], k, now)
  {
    OneMoreTouch(s, acl, items, item, k);
  }

  lemma {:induction false} ItemIsMarked(
      s: RoomState, m: Marked, acl: Acl, sender: nat, items: seq<Item>, item: Item, r: AdminResult)
    requires DistinctNicks(s) && m.Valid() && sender < |s.occupants|
    requires Standing(s, acl, items, m.state) && MarkedBy(s, acl, items, m.state)
    requires r == ApplyItem(m, acl, sender, item) && r.error.None?
    ensures MarkedBy(s, acl, items + [item], r.marked.state)
  {
    OneMoreItem(s.lists, items, item);
    forall k | 0 <= k < |s.occupants|
      ensures IsMarkedBy(s, acl, items + [item], k, r.marked.state.occupants[k])
    {
      if item.affiliation.Some? {
        var moved := m.(state := m.state.(lists := ListsAfter(s.lists, items + [item])));
        RecomputeMarksEach(moved, acl, 0, item.reason, r.marked, k);
      }
      OneMoreMark(s, acl, items, item, k, m.state.occupants[k], r.marked.state.occupants[k]);
    }
  }

  lemma {:induction false} FirstIsMarked(
      s: RoomState, m: Marked, acl: Acl, sender: nat, items: seq<Item>, n: nat, r: AdminResult) returns (next: Marked)
    requires DistinctNicks(s) && m.Valid() && sender < |s.occupants| && n < |items|
    requires Standing(s, acl, items[..n], m.state) && MarkedBy(s, acl, items[..n], m.state)
    requires r == ApplyItems(m, acl, sender, items[n..]) && r.error.None?
    ensures next.Valid() && Standing(s, acl, items[..n + 1], next.state) && MarkedBy(s, acl, items[..n + 1], next.state)
    ensures r == ApplyItems(next, acl, sender, items[n + 1..])
  {
    var first := ApplyItem(m, acl, sender, items[n]);
    assert items[n..][0] == items[n] && items[n..][1..] == items[n + 1..];
    assert items[..n] + [items[n]] == items[..n + 1];
    ItemStands(s, m, acl, sender, items[..n], items[n], first);
    ItemIsMarked(s, m, acl, sender, items[..n], items[n], first);
    next := first.marked;
  }

  lemma {:induction false} ItemsAreMarked(
      s: RoomState, m: Marked, acl: Acl, sender: nat, items: seq<Item>, n: nat, r: AdminResult)
    requires DistinctNicks(s) && m.Valid() && sender < |s.occupants| && n <= |items|
    requires Standing(s, acl, items[..n], m.state) && MarkedBy(s, acl, items[..n], m.state)
    requires r == ApplyItems(m, acl, sender, items[n..]) && r.error.None?
    ensures MarkedBy(s, acl, items, r.marked.state)
    decreases |items| - n
  {
    if n < |items| {
      var next := FirstIsMarked(s, m, acl, sender, items, n, r);
      ItemsAreMarked(s, next, acl, sender, items, n + 1, r);
    } else {
      assert items[..n] == items;
    }
  }

  // ----- Accepted sets -----

  /** `t` is the room `s` after these items and before anybody is told. */
  ghost predicate Changed(s: RoomState, acl: Acl, items: seq<Item>, t: RoomState) {
    Standing(s, acl, items, t) && MarkedBy(s, acl, items, t) && t.flags == s.flags && t.node == s.node
  }

  lemma {:induction false} AllItemsChange(s: RoomState, acl: Acl, sender: nat, items: seq<Item>, r: AdminResult)
    requires Inv(s, acl) && Destroyed !in s.flags && sender < |s.occupants|
    requires FirstRefused(s, acl, sender, items, 0) == |items| && r == ApplyItems(Marked(s, []), acl, sender, items)
    ensures r.error.None? && Changed(s, acl, items, r.marked.state) && Tracks(s, r.marked)
  {
    assert items[..0] == [] && items[0..] == items && items[..|items|] == items;
    StandsAsItIs(s, acl);
    WholeSetStands(s, acl, sender, items, |items|, r);
    ItemsAreMarked(s, Marked(s, []), acl, sender, items, 0, r);
    ApplyItemsTracks(s, Marked(s, []), acl, sender, items);
    ApplyItemsKeepFlags(Marked(s, []), acl, sender, items);
    RoomsLaws.ApplyItemsKeepNode(Marked(s, []), acl, sender, items);
  }

  /** A set without a refused item is answered, and everybody whom it touched is announced as the
   *  items left it, to itself at least; nothing else is announced. */
  lemma {:induction false} AcceptedSetIsTold(
      s: RoomState, acl: Acl, st: Stanza, sender: nat, items: seq<Item>, after: Outcome) returns (t: RoomState)
    requires Inv(s, acl) && Quiet(s) && Destroyed !in s.flags
    requires sender == FindByJid(s.occupants, st.from) < |s.occupants| && s.occupants[sender].role == MODERATOR
    requires st == Iq(st.from, None, Set, Admin(Some(items)), false) && after == Route(s, acl, st)
    requires FirstRefused(s, acl, sender, items, 0) == |items|
    ensures Changed(s, acl, items, t)
    ensures after.sent != [] && after.sent[0] == IqResult(st.from, AffiliationItems(OUTCAST, []))
    ensures forall p :: p in after.sent[1..] ==>
              exists k :: 0 <= k < |s.occupants| && FirstTouch(s, acl, items, k) < |items|
                          && Announces(p, t, t.occupants[k])
    ensures forall k :: 0 <= k < |s.occupants| && FirstTouch(s, acl, items, k) < |items| ==>
              Hears(after.sent[1..], t, k, k)
  {
    var r := ApplyItems(Marked(s, []), acl, sender, items);
    AllItemsChange(s, acl, sender, items, r);
    SetIsAccepted(s, acl, st, sender, r, after);
    t := r.marked.state;
    var f := Finish(t, r.marked.affected);
    assert after.sent[1..] == f.sent;
    forall p | p in f.sent
      ensures exists k :: 0 <= k < |s.occupants| && FirstTouch(s, acl, items, k) < |items|
                          && Announces(p, t, t.occupants[k])
    {
      FinishAnnouncesOnly(t, r.marked.affected, p);
      var j :| 0 <= j < |r.marked.affected| && Announces(p, t, t.occupants[r.marked.affected[j]]);
      assert r.marked.affected[j] in r.marked.affected;
    }
    forall k | 0 <= k < |s.occupants| && FirstTouch(s, acl, items, k) < |items|
      ensures Hears(f.sent, t, k, k)
    {
      AffectedIsTold(t, r.marked.affected, k, f);
    }
  }

  lemma {:induction false} AffectedIsTold(t: RoomState, affected: seq<nat>, k: nat, f: Outcome)
    requires Positions(t, affected) && k < |t.occupants| && k in affected && f == Finish(t, affected)
    ensures Hears(f.sent, t, k, k)
  {
    var j :| 0 <= j < |affected| && affected[j] == k;
    FinishAnnounces(t, affected, j, k);
  }

  // ----- The end of a room, and the purge -----

  /** Everybody from `i` on is without role and affiliation, and whoever was not marked is now,
   *  without a reason. */
  lemma {:induction false} AllAreDismissed(m: Marked, i: nat, r: Marked)
    requires m.Valid() && i <= |m.state.occupants| && r == DismissAll(m, i)
    ensures r.state == m.state.(occupants := r.state.occupants) && |r.state.occupants| == |m.state.occupants|
    ensures forall k :: 0 <= k < |m.state.occupants| ==>
              var o, now := m.state.occupants[k], r.state.occupants[k];
              && now.jid == o.jid && now.nick == o.nick
              && (k >= i ==> now.role == ROLE_NONE && now.affiliation == NONE && (!o.included ==> now.reason == None))
              && (k < i ==> now == o)
    decreases |m.state.occupants| - i
  {
    if i < |m.state.occupants| {
      var o := m.state.occupants[i];
      var dismissed := WithOccupant(m.state, i, o.(role := ROLE_NONE, affiliation := NONE));
      AllAreDismissed(Mark(m.(state := dismissed), i, None), i + 1, r);
    }
  }

  /** The final loop changes no flag but the mark of a destroyed room. */
  lemma {:induction false} FinishKeepsFlags(s: RoomState, affected: seq<nat>)
    requires Positions(s, affected)
    ensures s.flags <= Finish(s, affected).state.flags <= s.flags + {Destroyed}
    decreases |affected|
  {
    if affected != [] {
      var i := affected[0];
      var settled := WithOccupant(s, i, Settled(s.flags, s.occupants[i]));
      if settled.occupants[i].role == ROLE_NONE {
        FinishKeepsFlags(Leave(settled, i), Shifted(affected[1..], i));
      } else {
        FinishKeepsFlags(WithOccupant(settled, i, settled.occupants[i].(reason := None)), affected[1..]);
      }
    }
  }

  /** The query of an owner in the room. */
  predicate FromOwner(s: RoomState, st: Stanza, sender: nat, action: OwnerAction) {
    && st.Iq? && st.nick == None && st.kind == Set && st.query == Owner(Some(Some(action)))
    && sender == FindByJid(s.occupants, st.from) < |s.occupants| && s.occupants[sender].affiliation == OWNER
  }

  lemma {:induction false} OwnerIsAnswered(
      s: RoomState, acl: Acl, st: Stanza, sender: nat, action: OwnerAction, m: Marked, after: Outcome)
    requires FromOwner(s, st, sender, action) && after == Route(s, acl, st)
    requires m == OwnerSet(s, AclRole(acl, s.occupants[sender].jid), action)
    ensures var f := Finish(m.state, m.affected);
            after.state == f.state && after.sent == [IqResult(st.from, Empty)] + f.sent
  {
    assert SetQuery(s, acl, sender, st) == Accept(m, Empty);
  }

  /** The presence that tells of the end of the room, in so far as it is about this occupant. */
  predicate TellsOfTheEnd(p: Packet, node: string, o: Occupant) {
    && p.Presence? && p.fromNode == node && p.fromNick == o.nick && p.unavailable
    && p.role == ROLE_NONE && p.affiliation == NONE && p.content == None && p.reason == None
    && Banned !in p.codes && NonMemberRemoved !in p.codes && Kicked !in p.codes
  }

  /** The room `s` before its end, with everybody dismissed and on the list. */
  ghost predicate Dismissed(s: RoomState, m: Marked) {
    && m.Valid() && m.state.node == s.node && Destroyed in m.state.flags && |m.state.occupants| == |s.occupants|
    && forall k :: 0 <= k < |s.occupants| ==>
         var o := m.state.occupants[k];
         && k in m.affected && o.jid == s.occupants[k].jid && o.nick == s.occupants[k].nick
         && o.role == ROLE_NONE && o.affiliation == NONE && o.reason == None
  }

  lemma {:induction false} RoomIsDismissed(s: RoomState, aclRole: int, m: Marked)
    requires Quiet(s) && s.defaultRole != ROLE_NONE && s.maxSize > 0 && m == OwnerSet(s, aclRole, Destroy)
    ensures Dismissed(s, m)
  {
    AllAreDismissed(Marked(s.(flags := s.flags + {Destroyed}), []), 0, m);
    OwnerSetTracks(s, aclRole, Destroy);
  }

  lemma {:induction false} EndIsTold(s: RoomState, m: Marked, f: Outcome)
    requires Dismissed(s, m) && f == Finish(m.state, m.affected)
    ensures Destroyed in f.state.flags
    ensures forall p :: p in f.sent ==> exists k :: 0 <= k < |s.occupants| && TellsOfTheEnd(p, s.node, s.occupants[k])
    ensures forall k :: 0 <= k < |s.occupants| ==> HearsOfTheEnd(f.sent, s, k)
  {
    FinishKeepsFlags(m.state, m.affected);
    forall p | p in f.sent
      ensures exists k :: 0 <= k < |s.occupants| && TellsOfTheEnd(p, s.node, s.occupants[k])
    {
      FinishAnnouncesOnly(m.state, m.affected, p);
      var j :| 0 <= j < |m.affected| && Announces(p, m.state, m.state.occupants[m.affected[j]]);
      assert TellsOfTheEnd(p, s.node, s.occupants[m.affected[j]]);
    }
    forall k | 0 <= k < |s.occupants|
      ensures HearsOfTheEnd(f.sent, s, k)
    {
      AffectedIsTold(m.state, m.affected, k, f);
      var p :| p in f.sent && p.Presence? && Announces(p, m.state, m.state.occupants[k]) && Reaches(p, m.state, k, k);
      assert TellsOfTheEnd(p, s.node, s.occupants[k]);
    }
  }

  ghost predicate HearsOfTheEnd(sent: seq<Packet>, s: RoomState, k: nat)
    requires k < |s.occupants|
  {
    exists p :: p in sent && p.Presence? && TellsOfTheEnd(p, s.node, s.occupants[k])
                && p.to == s.occupants[k].jid && SelfPresence in p.codes
  }

  /** When an owner destroys a room, it is left empty and marked so; the owner gets an empty
   *  answer, and everybody is told to have lost its place, without a code. */
  lemma {:induction false} RoomEnds(s: RoomState, acl: Acl, st: Stanza, sender: nat, after: Outcome)
    requires Inv(s, acl) && Quiet(s) && Destroyed !in s.flags
    requires FromOwner(s, st, sender, Destroy) && after == Route(s, acl, st)
    ensures after.state.occupants == [] && Destroyed in after.state.flags
    ensures after.sent != [] && after.sent[0] == IqResult(st.from, Empty)
    ensures forall p :: p in after.sent[1..] ==>
              exists k :: 0 <= k < |s.occupants| && TellsOfTheEnd(p, s.node, s.occupants[k])
    ensures forall k :: 0 <= k < |s.occupants| ==> HearsOfTheEnd(after.sent[1..], s, k)
  {
    var aclRole := AclRole(acl, s.occupants[sender].jid);
    var m := OwnerSet(s, aclRole, Destroy);
    OwnerIsAnswered(s, acl, st, sender, Destroy, m, after);
    RoomIsDismissed(s, aclRole, m);
    EndIsTold(s, m, Finish(m.state, m.affected));
    assert after.sent[1..] == Finish(m.state, m.affected).sent;
    DestroyedRests(s, acl, st, sender, after);
  }

  lemma {:induction false} DestroyedRests(s: RoomState, acl: Acl, st: Stanza, sender: nat, after: Outcome)
    requires Inv(s, acl) && Quiet(s) && Destroyed !in s.flags
    requires FromOwner(s, st, sender, Destroy) && after == Route(s, acl, st)
    ensures AtRest(after.state)
  {
    OwnerSetRests(s, acl, st, sender);
  }

  /** From `i` on those below member are without role, and marked with the reason for it. */
  lemma {:induction false} NonMembersAreMarked(m: Marked, i: nat, r: Marked, k: nat)
    requires m.Valid() && i <= |m.state.occupants| && r == PurgeNonMembers(m, i) && k < |m.state.occupants|
    ensures r.state == m.state.(occupants := r.state.occupants) && |r.state.occupants| == |m.state.occupants|
    ensures var o, now := m.state.occupants[k], r.state.occupants[k];
            var reason := Some("<reason>Room policy switched to members-only</reason>");
            if k < i || o.affiliation >= MEMBER then now == o
            else now == o.(role := ROLE_NONE, included := true, reason := if o.included then o.reason else reason)
    decreases |m.state.occupants| - i
  {
    if i < |m.state.occupants| {
      var o := m.state.occupants[i];
      if o.affiliation < MEMBER {
        var purged := WithOccupant(m.state, i, o.(role := ROLE_NONE));
        NonMembersAreMarked(Mark(m.(state := purged), i, Some(MEMBERS_ONLY_REASON)), i + 1, r, k);
      } else {
        NonMembersAreMarked(m, i + 1, r, k);
      }
    }
  }

  /** The presence that tells of the removal of this occupant, who is no member. */
  predicate TellsOfThePurge(p: Packet, node: string, o: Occupant) {
    && p.Presence? && p.fromNode == node && p.fromNick == o.nick && p.unavailable
    && p.role == ROLE_NONE && p.affiliation == NONE && p.content == None
    && p.reason == Some("<reason>Room policy switched to members-only</reason>")
    && NonMemberRemoved in p.codes && Banned !in p.codes && Kicked !in p.codes
  }

  ghost predicate HearsOfThePurge(sent: seq<Packet>, s: RoomState, k: nat)
    requires k < |s.occupants|
  {
    exists p :: p in sent && p.Presence? && TellsOfThePurge(p, s.node, s.occupants[k])
                && p.to == s.occupants[k].jid && SelfPresence in p.codes
  }

  /** The room `s` before the purge, with exactly its non-members on the list. */
  ghost predicate ReadyToPurge(s: RoomState, m: Marked) {
    && m.Valid() && m.state == s.(occupants := m.state.occupants) && |m.state.occupants| == |s.occupants|
    && forall k :: 0 <= k < |s.occupants| ==>
         && (k in m.affected <==> s.occupants[k].affiliation == NONE)
         && (s.occupants[k].affiliation == NONE ==>
               m.state.occupants[k] ==
               s.occupants[k].(role := ROLE_NONE, included := true,
                               reason := Some("<reason>Room policy switched to members-only</reason>")))
  }

  lemma {:induction false} RoomIsReadyToPurge(s: RoomState, m: Marked)
    requires Quiet(s) && m == PurgeNonMembers(Marked(s, []), 0)
    requires forall k :: 0 <= k < |s.occupants| ==> s.occupants[k].affiliation != OUTCAST
    ensures ReadyToPurge(s, m)
  {
    PurgeTracks(s, Marked(s, []), 0);
    if s.occupants == [] {
      assert m == Marked(s, []);
    }
    forall k | 0 <= k < |s.occupants|
      ensures m.state == s.(occupants := m.state.occupants) && |m.state.occupants| == |s.occupants|
      ensures k in m.affected <==> s.occupants[k].affiliation == NONE
      ensures s.occupants[k].affiliation == NONE ==>
                m.state.occupants[k] ==
                s.occupants[k].(role := ROLE_NONE, included := true,
                                reason := Some("<reason>Room policy switched to members-only</reason>"))
    {
      NonMembersAreMarked(Marked(s, []), 0, m, k);
    }
  }

  lemma {:induction false} PurgeIsTold(s: RoomState, m: Marked, f: Outcome)
    requires ReadyToPurge(s, m) && MembersOnly in s.flags && Destroyed !in s.flags && f == Finish(m.state, m.affected)
    ensures MembersOnly in f.state.flags
    ensures forall p :: p in f.sent ==> exists k :: 0 <= k < |s.occupants| && TellsOfThePurge(p, s.node, s.occupants[k])
    ensures forall k :: 0 <= k < |s.occupants| && s.occupants[k].affiliation == NONE ==> HearsOfThePurge(f.sent, s, k)
  {
    FinishKeepsFlags(m.state, m.affected);
    forall p | p in f.sent
      ensures exists k :: 0 <= k < |s.occupants| && TellsOfThePurge(p, s.node, s.occupants[k])
    {
      FinishAnnouncesOnly(m.state, m.affected, p);
      var j :| 0 <= j < |m.affected| && Announces(p, m.state, m.state.occupants[m.affected[j]]);
      assert m.affected[j] in m.affected && TellsOfThePurge(p, s.node, s.occupants[m.affected[j]]);
    }
    forall k | 0 <= k < |s.occupants| && s.occupants[k].affiliation == NONE
      ensures HearsOfThePurge(f.sent, s, k)
    {
      AffectedIsTold(m.state, m.affected, k, f);
      var p :| p in f.sent && p.Presence? && Announces(p, m.state, m.state.occupants[k]) && Reaches(p, m.state, k, k);
      assert TellsOfThePurge(p, s.node, s.occupants[k]);
    }
  }

  /** An owner's form configures the room as said above. If the room is for members only then,
   *  also if it was before, exactly its non-members are told that they are removed, and nobody
   *  but members is left; if not, nobody is told anything. */
  lemma {:induction false} FormIsApplied(
      s: RoomState, acl: Acl, st: Stanza, sender: nat, options: seq<ConfigOption>, c: RoomState, after: Outcome)
    requires Inv(s, acl) && Quiet(s) && Destroyed !in s.flags
    requires FromOwner(s, st, sender, Configure(options)) && after == Route(s, acl, st)
    requires c == SetOptions(s, AclRole(acl, s.occupants[sender].jid), options)
    ensures after.sent != [] && after.sent[0] == IqResult(st.from, Empty)
    ensures MembersOnly !in c.flags ==> after.state == c && after.sent[1..] == []
    ensures MembersOnly in c.flags ==>
              && (forall p :: p in after.sent[1..] ==>
                    exists k :: 0 <= k < |s.occupants| && TellsOfThePurge(p, s.node, s.occupants[k]))
              && (forall k :: 0 <= k < |s.occupants| && s.occupants[k].affiliation == NONE ==>
                    HearsOfThePurge(after.sent[1..], s, k))
              && (forall o :: o in after.state.occupants ==> o.affiliation >= MEMBER)
  {
    var aclRole := AclRole(acl, s.occupants[sender].jid);
    var m := OwnerSet(s, aclRole, Configure(options));
    OwnerIsAnswered(s, acl, st, sender, Configure(options), m, after);
    SetOptionsKeeps(s, aclRole, options);
    assert after.sent[1..] == Finish(m.state, m.affected).sent;
    if MembersOnly in c.flags {
      NoOutcasts(s, acl);
      RoomIsReadyToPurge(c, m);
      PurgeIsTold(c, m, Finish(m.state, m.affected));
      MembersAreLeft(s, acl, st, sender, options, after);
    }
  }

  lemma {:induction false} NoOutcasts(s: RoomState, acl: Acl)
    requires Inv(s, acl) && Quiet(s)
    ensures forall k :: 0 <= k < |s.occupants| ==> s.occupants[k].affiliation != OUTCAST
  {
  }

  lemma {:induction false} MembersAreLeft(
      s: RoomState, acl: Acl, st: Stanza, sender: nat, options: seq<ConfigOption>, after: Outcome)
    requires Inv(s, acl) && Quiet(s) && Destroyed !in s.flags
    requires FromOwner(s, st, sender, Configure(options)) && after == Route(s, acl, st)
    requires MembersOnly in after.state.flags
    ensures forall o :: o in after.state.occupants ==> o.affiliation >= MEMBER
  {
    RouteIqKeeps(s, acl, st);
    OwnerSetRests(s, acl, st, sender);
  }
}
