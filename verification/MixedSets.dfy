/** Admin sets with items of both kinds, told from the room and the set before it is handled:
 *  which items come before the first refused one, and what they make of everybody.
 */
module MixedSets {
  import opened Common
  import opened Jids
  import opened Affiliations
  import opened AffiliationLaws
  import opened RoomModel
  import opened RoomInvariants
  import opened Roster
  import opened RosterLaws
  import opened RoomLaws

  // ----- What items ask for -----

  predicate MovesSomebody(item: Item) {
    WellFormedItem(item) && item.affiliation.Some?
  }

  /** The lists after the affiliation items among these. */
  function ListsAfter(lists: Lists, items: seq<Item>): Lists {
    if items == [] then lists
    else
      var before, item := ListsAfter(lists, items[..|items| - 1]), items[|items| - 1];
      if MovesSomebody(item) then Moved(before, item.affiliation.value, item.jid.value, item.reason) else before
  }

  /** What the occupant at `k` of the room `s` is by those lists. */
  function AffiliationAfter(s: RoomState, acl: Acl, items: seq<Item>, k: nat): Affiliation
    requires k < |s.occupants|
  {
    GetByJid(ListsAfter(s.lists, items), acl, s.occupants[k].jid)
  }

  /** The role that goes with a new affiliation: none for outcasts, that of a moderator for admins
   *  and owners, that of a participant for all others, also in a room with another default. */
  function RoleOf(affiliation: Affiliation): Role {
    if affiliation == OUTCAST then ROLE_NONE
    else if affiliation == NONE || affiliation == MEMBER then PARTICIPANT
    else MODERATOR
  }

  /** Its role: the last one that a role item gave its nick, or that went with a new affiliation. */
  function RoleAfter(s: RoomState, acl: Acl, items: seq<Item>, k: nat): Role
    requires k < |s.occupants|
    decreases |items|
  {
    if items == [] then s.occupants[k].role
    else
      var before, item := items[..|items| - 1], items[|items| - 1];
      if !MovesSomebody(item) then
        if item.Item? && item.role.Some? && item.nick == Some(s.occupants[k].nick) then item.role.value
        else RoleAfter(s, acl, before, k)
      else if AffiliationAfter(s, acl, items, k) == AffiliationAfter(s, acl, before, k) then
        RoleAfter(s, acl, before, k)
      else RoleOf(AffiliationAfter(s, acl, items, k))
  }

  /** After these items the sender may have one more applied. */
  predicate Passes(s: RoomState, acl: Acl, sender: nat, items: seq<Item>, item: Item)
    requires sender < |s.occupants|
  {
    WellFormedItem(item) &&
    var mine := AffiliationAfter(s, acl, items, sender);
    if item.role.Some? then
      var target := FindByNick(s.occupants, item.nick.value);
      && target < |s.occupants| && AffiliationAfter(s, acl, items, target) < ADMIN
      && (mine >= ADMIN || (RoleAfter(s, acl, items, target) < MODERATOR && item.role.value < MODERATOR))
    else
      && mine >= ADMIN
      && !Refused(ListsAfter(s.lists, items), Some(Requester(s.occupants[sender].jid, mine)),
                  item.affiliation.value, item.jid.value)
  }

  /** The position of the first refused item from `n` on, or the number of items. */
  function FirstRefused(s: RoomState, acl: Acl, sender: nat, items: seq<Item>, n: nat): (r: nat)
    requires sender < |s.occupants| && n <= |items|
    ensures n <= r <= |items|
    decreases |items| - n
  {
    if n < |items| && Passes(s, acl, sender, items[..n], items[n]) then FirstRefused(s, acl, sender, items, n + 1)
    else n
  }

  /** Applying the item behind the others gives somebody a mark. */
  ghost predicate Touches(s: RoomState, acl: Acl, items: seq<Item>, item: Item) {
    item.Item? &&
    (item.role.Some? ||
     exists k :: 0 <= k < |s.occupants| &&
                 AffiliationAfter(s, acl, items + [item], k) != AffiliationAfter(s, acl, items, k))
  }

  /** One of the items from `n` up to `stop` does. */
  ghost predicate SomeTouch(s: RoomState, acl: Acl, items: seq<Item>, n: nat, stop: nat)
    requires stop <= |items|
  {
    exists i :: n <= i < stop && Touches(s, acl, items[..i], items[i])
  }

  lemma {:induction false} FirstTouches(s: RoomState, acl: Acl, items: seq<Item>, n: nat, stop: nat)
    requires n < stop <= |items|
    ensures SomeTouch(s, acl, items, n, stop) <==>
            Touches(s, acl, items[..n], items[n]) || SomeTouch(s, acl, items, n + 1, stop)
  {
  }

  // ----- The item loop -----

  /** `t` is the room `s` after these items. */
  ghost predicate Standing(s: RoomState, acl: Acl, items: seq<Item>, t: RoomState) {
    && |t.occupants| == |s.occupants| && t.lists == ListsAfter(s.lists, items)
    && forall k :: 0 <= k < |s.occupants| ==>
         && t.occupants[k].jid == s.occupants[k].jid && t.occupants[k].nick == s.occupants[k].nick
         && t.occupants[k].affiliation == AffiliationAfter(s, acl, items, k)
         && t.occupants[k].role == RoleAfter(s, acl, items, k)
  }

  /** Whoever is marked is on the list, so that an empty list means no marks. */
  ghost predicate MarksListed(m: Marked) {
    m.affected == [] ==> Quiet(m.state)
  }

  lemma {:induction false} OneMoreItem(lists: Lists, items: seq<Item>, item: Item)
    ensures ListsAfter(lists, items + [item]) ==
            if MovesSomebody(item) then
              Moved(ListsAfter(lists, items), item.affiliation.value, item.jid.value, item.reason)
            else ListsAfter(lists, items)
  {
    assert (items + [item])[..|items|] == items;
  }

  lemma {:induction false} OneMoreRole(s: RoomState, acl: Acl, items: seq<Item>, item: Item, k: nat)
    requires k < |s.occupants|
    ensures RoleAfter(s, acl, items + [item], k) ==
            if !MovesSomebody(item) then
              if item.Item? && item.role.Some? && item.nick == Some(s.occupants[k].nick) then item.role.value
              else RoleAfter(s, acl, items, k)
            else if AffiliationAfter(s, acl, items + [item], k) == AffiliationAfter(s, acl, items, k) then
              RoleAfter(s, acl, items, k)
            else RoleOf(AffiliationAfter(s, acl, items + [item], k))
  {
    assert (items + [item])[..|items|] == items;
  }

  /** What the loop over the occupants does to roles and marks. */
  lemma {:induction false} RecomputeRoles(m: Marked, acl: Acl, i: nat, reason: Option<string>, r: Marked)
    requires m.Valid() && i <= |m.state.occupants| && r == Recompute(m, acl, i, reason)
    ensures forall k :: 0 <= k < |m.state.occupants| ==>
              var o, now := m.state.occupants[k], GetByJid(m.state.lists, acl, m.state.occupants[k].jid);
              r.state.occupants[k].role == if k < i || now == o.affiliation then o.role else RoleOf(now)
    decreases |m.state.occupants| - i
  {
    if i < |m.state.occupants| {
      RecomputeRoles(RecomputeOne(m, acl, i, reason), acl, i + 1, reason, r);
    }
  }

  lemma {:induction false} RecomputeMarks(m: Marked, acl: Acl, i: nat, reason: Option<string>, r: Marked)
    requires m.Valid() && MarksListed(m) && i <= |m.state.occupants| && r == Recompute(m, acl, i, reason)
    ensures MarksListed(r)
    ensures r.affected == [] <==>
            && m.affected == []
            && forall k :: i <= k < |m.state.occupants| ==>
                 GetByJid(m.state.lists, acl, m.state.occupants[k].jid) == m.state.occupants[k].affiliation
    decreases |m.state.occupants| - i
  {
    if i < |m.state.occupants| {
      RecomputeMarks(RecomputeOne(m, acl, i, reason), acl, i + 1, reason, r);
    }
  }

  lemma {:induction false} RoleItemStands(
      s: RoomState, m: Marked, acl: Acl, sender: nat, items: seq<Item>, item: Item, r: AdminResult)
    requires DistinctNicks(s) && m.Valid() && sender < |s.occupants| && Standing(s, acl, items, m.state)
    requires WellFormedItem(item) && item.role.Some?
    requires r == RoleItem(m, sender, item.nick.value, item.role.value, item.reason)
    ensures r.error.None? <==> Passes(s, acl, sender, items, item)
    ensures r.error.Some? ==> r.marked == m
    ensures r.error.None? ==> Standing(s, acl, items + [item], r.marked.state)
  {
    SameNicksFound(s.occupants, m.state.occupants, item.nick.value);
    var target := FindByNick(s.occupants, item.nick.value);
    if r.error.None? {
      RoleStands(s, m, acl, items, item, target, r.marked.state);
    }
  }

  /** A role that is given changes nobody but the one with the nick. */
  lemma {:induction false} RoleStands(
      s: RoomState, m: Marked, acl: Acl, items: seq<Item>, item: Item, target: nat, t: RoomState)
    requires DistinctNicks(s) && Standing(s, acl, items, m.state) && WellFormedItem(item) && item.role.Some?
    requires target < |s.occupants| == |t.occupants| && s.occupants[target].nick == item.nick.value
    requires t.lists == m.state.lists
    requires var o, now := m.state.occupants[target], t.occupants[target];
             now.jid == o.jid && now.nick == o.nick && now.affiliation == o.affiliation && now.role == item.role.value
    requires forall k :: 0 <= k < |s.occupants| && k != target ==> t.occupants[k] == m.state.occupants[k]
    ensures Standing(s, acl, items + [item], t)
  {
    OneMoreItem(s.lists, items, item);
    forall k | 0 <= k < |s.occupants|
      ensures RoleAfter(s, acl, items + [item], k) ==
              if k == target then item.role.value else RoleAfter(s, acl, items, k)
    {
      OneMoreRole(s, acl, items, item, k);
    }
  }

  lemma {:induction false} AffiliationItemStands(
      s: RoomState, m: Marked, acl: Acl, sender: nat, items: seq<Item>, item: Item, r: AdminResult)
    requires m.Valid() && sender < |s.occupants| && Standing(s, acl, items, m.state) && MovesSomebody(item)
    requires r == AffiliationItem(m, acl, sender, item.jid.value, item.affiliation.value, item.reason)
    ensures r.error.None? <==> Passes(s, acl, sender, items, item)
    ensures r.error.Some? ==> r.marked == m
    ensures r.error.None? ==> Standing(s, acl, items + [item], r.marked.state)
  {
    OneMoreItem(s.lists, items, item);
    if r.error.None? {
      var moved := m.(state := m.state.(lists := ListsAfter(s.lists, items + [item])));
      RecomputeResult(moved, acl, 0, item.reason);
      RecomputeRoles(moved, acl, 0, item.reason, r.marked);
      forall k | 0 <= k < |s.occupants|
        ensures r.marked.state.occupants[k].role == RoleAfter(s, acl, items + [item], k)
      {
        OneMoreRole(s, acl, items, item, k);
      }
    }
  }

  /** One turn of the item loop. */
  lemma {:induction false} ItemStands(
      s: RoomState, m: Marked, acl: Acl, sender: nat, items: seq<Item>, item: Item, r: AdminResult)
    requires DistinctNicks(s) && m.Valid() && sender < |s.occupants| && Standing(s, acl, items, m.state)
    requires r == ApplyItem(m, acl, sender, item)
    ensures r.error.None? <==> Passes(s, acl, sender, items, item)
    ensures r.error.Some? ==> r.marked == m
    ensures r.error.None? ==> Standing(s, acl, items + [item], r.marked.state)
  {
    if WellFormedItem(item) {
      if item.role.Some? {
        RoleItemStands(s, m, acl, sender, items, item, r);
      } else {
        AffiliationItemStands(s, m, acl, sender, items, item, r);
      }
    }
  }

  /** Its marks. */
  lemma {:induction false} ItemMarks(
      s: RoomState, m: Marked, acl: Acl, sender: nat, items: seq<Item>, item: Item, r: AdminResult)
    requires m.Valid() && MarksListed(m) && sender < |s.occupants| && Standing(s, acl, items, m.state)
    requires r == ApplyItem(m, acl, sender, item) && r.error.None?
    ensures MarksListed(r.marked)
    ensures r.marked.affected == [] <==> m.affected == [] && !Touches(s, acl, items, item)
  {
    OneMoreItem(s.lists, items, item);
    if item.affiliation.Some? {
      var moved := m.(state := m.state.(lists := ListsAfter(s.lists, items + [item])));
      RecomputeMarks(moved, acl, 0, item.reason, r.marked);
    }
  }

  /** The whole loop: it ends at the first refused item, and everybody is what the items
   *  before it made of them. */
  lemma {:induction false} ItemsStand(
      s: RoomState, m: Marked, acl: Acl, sender: nat, items: seq<Item>, n: nat, r: AdminResult)
    requires DistinctNicks(s) && m.Valid() && sender < |s.occupants| && n <= |items|
    requires Standing(s, acl, items[..n], m.state) && r == ApplyItems(m, acl, sender, items[n..])
    ensures var stop := FirstRefused(s, acl, sender, items, n);
            && (r.error.None? <==> stop == |items|)
            && Standing(s, acl, items[..stop], r.marked.state)
    decreases |items| - n
  {
    if n < |items| {
      var first := ApplyItem(m, acl, sender, items[n]);
      assert items[n..][0] == items[n] && items[n..][1..] == items[n + 1..];
      assert items[..n] + [items[n]] == items[..n + 1];
      ItemStands(s, m, acl, sender, items[..n], items[n], first);
      if first.error.None? {
        ItemsStand(s, first.marked, acl, sender, items, n + 1, r);
      }
    }
  }

  /** The first turn of what is left of the loop. */
  lemma {:induction false} FirstTurn(
      s: RoomState, m: Marked, acl: Acl, sender: nat, items: seq<Item>, n: nat, r: AdminResult, first: AdminResult)
    requires DistinctNicks(s) && m.Valid() && MarksListed(m) && sender < |s.occupants| && n < |items|
    requires Standing(s, acl, items[..n], m.state) && r == ApplyItems(m, acl, sender, items[n..])
    requires first == ApplyItem(m, acl, sender, items[n])
    ensures first.error.Some? ==> r.marked == m && FirstRefused(s, acl, sender, items, n) == n
    ensures first.error.None? ==>
              && FirstRefused(s, acl, sender, items, n) == FirstRefused(s, acl, sender, items, n + 1)
              && Standing(s, acl, items[..n + 1], first.marked.state) && MarksListed(first.marked)
              && r == ApplyItems(first.marked, acl, sender, items[n + 1..])
              && (first.marked.affected == [] <==> m.affected == [] && !Touches(s, acl, items[..n], items[n]))
  {
    assert items[n..][0] == items[n] && items[n..][1..] == items[n + 1..];
    assert items[..n] + [items[n]] == items[..n + 1];
    ItemStands(s, m, acl, sender, items[..n], items[n], first);
    if first.error.None? {
      ItemMarks(s, m, acl, sender, items[..n], items[n], first);
    }
  }

  lemma {:induction false} ItemsMark(
      s: RoomState, m: Marked, acl: Acl, sender: nat, items: seq<Item>, n: nat, r: AdminResult, stop: nat)
    requires DistinctNicks(s) && m.Valid() && MarksListed(m) && sender < |s.occupants| && n <= |items|
    requires Standing(s, acl, items[..n], m.state) && r == ApplyItems(m, acl, sender, items[n..])
    requires stop == FirstRefused(s, acl, sender, items, n)
    ensures r.marked.affected != [] <==> m.affected != [] || SomeTouch(s, acl, items, n, stop)
    decreases |items| - n
  {
    if n < |items| {
      var first := ApplyItem(m, acl, sender, items[n]);
      FirstTurn(s, m, acl, sender, items, n, r, first);
      if first.error.None? {
        ItemsMark(s, first.marked, acl, sender, items, n + 1, r, stop);
        FirstTouches(s, acl, items, n, stop);
      }
    }
  }

  // ----- Bounced sets -----

  lemma {:induction false} StandsAsItIs(s: RoomState, acl: Acl)
    requires Inv(s, acl) && Destroyed !in s.flags
    ensures Standing(s, acl, [], s)
  {
  }

  /** An admin set is bounced midway if and only if a moderator sent it, some item is refused,
   *  and one before the first refused one gives a role or changes somebody's affiliation. */
  lemma {:induction false} BouncedMidwayIff(s: RoomState, acl: Acl, st: Stanza, sender: nat, items: seq<Item>)
    requires Inv(s, acl) && Quiet(s) && Destroyed !in s.flags
    requires sender == FindByJid(s.occupants, st.from) < |s.occupants|
    requires st == Iq(st.from, None, Set, Admin(Some(items)), false)
    ensures var stop := FirstRefused(s, acl, sender, items, 0);
            BouncedMidway(s, acl, st) <==>
            s.occupants[sender].role >= MODERATOR && stop < |items| && SomeTouch(s, acl, items, 0, stop)
  {
    var m := Marked(s, []);
    assert items[..0] == [] && items[0..] == items;
    StandsAsItIs(s, acl);
    ItemsStand(s, m, acl, sender, items, 0, ApplyItems(m, acl, sender, items));
    ItemsMark(s, m, acl, sender, items, 0, ApplyItems(m, acl, sender, items), FirstRefused(s, acl, sender, items, 0));
  }

  lemma {:induction false} RefusedSetIsSilent(
      s: RoomState, acl: Acl, st: Stanza, sender: nat, items: seq<Item>, r: AdminResult, after: Outcome)
    requires sender == FindByJid(s.occupants, st.from) < |s.occupants| && s.occupants[sender].role >= MODERATOR
    requires st == Iq(st.from, None, Set, Admin(Some(items)), false) && after == Route(s, acl, st)
    requires r == ApplyItems(Marked(s, []), acl, sender, items) && r.error.Some?
    ensures after == Bounced(r.marked.state, st.from, r.error.value) && SameKeys(s, after.state)
  {
    ApplyItemsTracks(s, Marked(s, []), acl, sender, items);
    assert SetQuery(s, acl, sender, st) == Refuse(r.marked.state, r.error.value);
  }

  /** After any set that is bounced, a client knows the room if and only if the items before
   *  the first refused one leave everybody with the affiliation and the role that it had. */
  lemma {:induction false} BouncedSetAgreesIff(
      s: RoomState, acl: Acl, st: Stanza, sender: nat, items: seq<Item>, stop: nat, who: Jid, r: Known)
    requires Inv(s, acl) && AtRest(s) && Destroyed !in s.flags && Here(s, who) && Synced(s, who, r)
    requires sender == FindByJid(s.occupants, st.from) < |s.occupants| && s.occupants[sender].role >= MODERATOR
    requires st == Iq(st.from, None, Set, Admin(Some(items)), false)
    requires stop == FirstRefused(s, acl, sender, items, 0) < |items|
    ensures var after := Route(s, acl, st);
            Synced(after.state, who, ReceiveAll(r, s.node, who, after.sent)) <==>
            forall k :: 0 <= k < |s.occupants| ==>
              && AffiliationAfter(s, acl, items[..stop], k) == s.occupants[k].affiliation
              && RoleAfter(s, acl, items[..stop], k) == s.occupants[k].role
  {
    var result := ApplyItems(Marked(s, []), acl, sender, items);
    WholeSetStands(s, acl, sender, items, stop, result);
    var after := Route(s, acl, st);
    RefusedSetIsSilent(s, acl, st, sender, items, result, after);
    UnrelatedPackets(r, s.node, who, after.sent);
    AgreementAfterSilentChange(s, after.state, who, r);
  }

  lemma {:induction false} WholeSetStands(
      s: RoomState, acl: Acl, sender: nat, items: seq<Item>, stop: nat, r: AdminResult)
    requires Inv(s, acl) && Destroyed !in s.flags && sender < |s.occupants|
    requires stop == FirstRefused(s, acl, sender, items, 0) && r == ApplyItems(Marked(s, []), acl, sender, items)
    ensures r.error.None? <==> stop == |items|
    ensures Standing(s, acl, items[..stop], r.marked.state)
  {
    assert items[..0] == [] && items[0..] == items;
    StandsAsItIs(s, acl);
    ItemsStand(s, Marked(s, []), acl, sender, items, 0, r);
  }
}
