/** What the members of a room know about it: a client that folds the presences it
 *  receives holds exactly the room's nicks, affiliations and roles.
 */
module Roster {
  import opened Common
  import opened Jids
  import opened Affiliations
  import opened RoomModel
  import opened RoomInvariants

  // ----- The client -----

  datatype Seen = Seen(affiliation: Affiliation, role: Role)
  type Known = map<string, Seen>

  /** A client with address `who` receives a packet that concerns room `node`. Its own
   *  departure, which is not a change of nick, makes it forget the room. */
  function Receive(r: Known, node: string, who: Jid, p: Packet): Known {
    if !p.Presence? || p.fromNode != node || Canonical(p.to) != who then r
    else if !p.unavailable then r[p.fromNick := Seen(p.affiliation, p.role)]
    else if SelfPresence in p.codes && NicknameChanged !in p.codes then map[]
    else r - {p.fromNick}
  }

  function ReceiveAll(r: Known, node: string, who: Jid, sent: seq<Packet>): Known {
    if sent == [] then r
    else Receive(ReceiveAll(r, node, who, sent[..|sent| - 1]), node, who, sent[|sent| - 1])
  }

  lemma {:induction false} ReceiveInParts(r: Known, node: string, who: Jid, a: seq<Packet>, b: seq<Packet>)
    ensures ReceiveAll(r, node, who, a + b) == ReceiveAll(ReceiveAll(r, node, who, a), node, who, b)
    decreases |b|
  {
    if b == [] {
      assert a + b == a;
    } else {
      var b' := b[..|b| - 1];
      ReceiveInParts(r, node, who, a, b');
      assert (a + b)[..|a + b| - 1] == a + b';
    }
  }

  lemma {:induction false} UnrelatedPackets(r: Known, node: string, who: Jid, sent: seq<Packet>)
    requires forall i :: 0 <= i < |sent| ==>
               !sent[i].Presence? || sent[i].fromNode != node || Canonical(sent[i].to) != who
    ensures ReceiveAll(r, node, who, sent) == r
    decreases |sent|
  {
    if sent != [] {
      UnrelatedPackets(r, node, who, sent[..|sent| - 1]);
    }
  }

  // ----- Agreement -----

  /** The position of the occupant with this canonical address, or |occupants|. */
  function Place(occupants: seq<Occupant>, who: Jid): (k: nat)
    ensures k <= |occupants|
    ensures k < |occupants| ==> Canonical(occupants[k].jid) == who
    ensures forall i :: 0 <= i < k ==> Canonical(occupants[i].jid) != who
  {
    if occupants == [] || Canonical(occupants[0].jid) == who then 0 else 1 + Place(occupants[1..], who)
  }

  predicate Here(s: RoomState, who: Jid) {
    Place(s.occupants, who) < |s.occupants|
  }

  ghost predicate HasNick(s: RoomState, nick: string) {
    exists k :: 0 <= k < |s.occupants| && s.occupants[k].nick == nick
  }

  /** The client knows exactly the nicks of the room, each with its affiliation and role. */
  ghost predicate Agrees(r: Known, s: RoomState) {
    && (forall n :: n in r <==> HasNick(s, n))
    && forall k :: 0 <= k < |s.occupants| ==> KnownAs(r, s.occupants[k])
  }

  ghost predicate KnownAs(r: Known, o: Occupant) {
    o.nick in r && r[o.nick] == Seen(o.affiliation, o.role)
  }

  /** Occupants agree with the room, and outsiders know nothing of it. */
  ghost predicate Synced(s: RoomState, who: Jid, r: Known) {
    if Here(s, who) then Agrees(r, s) else r == map[]
  }

  /** Nobody is marked as affected, as it should be between stanzas. */
  ghost predicate Quiet(s: RoomState) {
    forall k :: 0 <= k < |s.occupants| ==> !s.occupants[k].included
  }

  /** The client knows everybody who is neither marked nor pending. Marked are those of an
   *  aborted set, pending those still to be announced. */
  ghost predicate KnowsUnmarked(r: Known, s: RoomState, pending: seq<nat>) {
    forall k :: 0 <= k < |s.occupants| && !s.occupants[k].included && k !in pending ==> KnownAs(r, s.occupants[k])
  }

  ghost predicate NoStrangers(r: Known, s: RoomState) {
    forall n :: n in r ==> HasNick(s, n)
  }

  /** What stays true in any case: occupants know nobody who is not in the room, those without
   *  a mark know all others without one, and outsiders know nothing. */
  ghost predicate Informed(s: RoomState, who: Jid, r: Known, pending: seq<nat>) {
    var place := Place(s.occupants, who);
    if place == |s.occupants| then r == map[]
    else NoStrangers(r, s) && (LeftMarked(s, place, pending) || KnowsUnmarked(r, s, pending))
  }

  ghost predicate LeftMarked(s: RoomState, k: nat, pending: seq<nat>)
    requires k < |s.occupants|
  {
    s.occupants[k].included && k !in pending
  }

  /** Without marks that is agreement. */
  lemma {:induction false} QuietlyInformed(s: RoomState, who: Jid, r: Known)
    requires Quiet(s)
    ensures Informed(s, who, r, []) <==> Synced(s, who, r)
  {
    if KnowsUnmarked(r, s, []) {
      forall n | HasNick(s, n)
        ensures n in r
      {
        var k :| 0 <= k < |s.occupants| && s.occupants[k].nick == n;
        assert KnownAs(r, s.occupants[k]);
      }
    }
  }

  // ----- One broadcast -----

  lemma {:induction false} ReceivedInTurn(
      s: RoomState, i: nat, newNick: Option<string>, codes: set<Status>, n: nat, who: Jid, r: Known)
    requires i < |s.occupants| && 0 < n <= |s.occupants|
    ensures ReceiveAll(r, s.node, who, BroadcastTo(s, i, newNick, codes, n)) ==
            Receive(ReceiveAll(r, s.node, who, BroadcastTo(s, i, newNick, codes, n - 1)), s.node, who,
                    PresenceTo(s, i, n - 1, newNick, codes))
  {
    assert BroadcastTo(s, i, newNick, codes, n)[..n - 1] == BroadcastTo(s, i, newNick, codes, n - 1);
  }

  /** Somebody else's presence teaches nothing. */
  lemma {:induction false} NotForMe(
      s: RoomState, i: nat, k: nat, newNick: Option<string>, codes: set<Status>, who: Jid, r: Known)
    requires i < |s.occupants| && k < |s.occupants|
    ensures Canonical(s.occupants[k].jid) != who ==> Receive(r, s.node, who, PresenceTo(s, i, k, newNick, codes)) == r
  {
  }

  /** Nobody but the occupant at one place has this address. */
  ghost predicate OnlyAt(s: RoomState, place: nat, who: Jid) {
    forall k :: 0 <= k < |s.occupants| && Canonical(s.occupants[k].jid) == who ==> k == place
  }

  lemma {:induction false} OneOfEach(s: RoomState, who: Jid)
    requires Keyed(s)
    ensures OnlyAt(s, Place(s.occupants, who), who)
  {
  }

  lemma {:induction false} ReceivedUpTo(
      s: RoomState, i: nat, newNick: Option<string>, codes: set<Status>, n: nat, who: Jid, r: Known, place: nat)
    requires OnlyAt(s, place, who) && i < |s.occupants| && n <= |s.occupants| && place == Place(s.occupants, who)
    ensures ReceiveAll(r, s.node, who, BroadcastTo(s, i, newNick, codes, n)) ==
            if place < n then Receive(r, s.node, who, PresenceTo(s, i, place, newNick, codes)) else r
    decreases n
  {
    if n > 0 {
      ReceivedUpTo(s, i, newNick, codes, n - 1, who, r, place);
      ReceivedInTurn(s, i, newNick, codes, n, who, r);
      NotForMe(s, i, n - 1, newNick, codes, who, ReceiveAll(r, s.node, who, BroadcastTo(s, i, newNick, codes, n - 1)));
    }
  }

  /** Of a broadcast a client gets the one packet that is for it, if it is in the room. */
  lemma {:induction false} BroadcastReceived(
      s: RoomState, i: nat, newNick: Option<string>, codes: set<Status>, n: nat, who: Jid, r: Known)
    requires Keyed(s) && i < |s.occupants| && n <= |s.occupants|
    ensures ReceiveAll(r, s.node, who, BroadcastTo(s, i, newNick, codes, n)) ==
            var k := Place(s.occupants, who);
            if k < n then Receive(r, s.node, who, PresenceTo(s, i, k, newNick, codes)) else r
  {
    OneOfEach(s, who);
    ReceivedUpTo(s, i, newNick, codes, n, who, r, Place(s.occupants, who));
  }

  /** What one broadcast teaches the client `who`. */
  function Learn(r: Known, s: RoomState, i: nat, codes: set<Status>, who: Jid): Known
    requires i < |s.occupants|
  {
    var o := s.occupants[i];
    if !Here(s, who) then r
    else if NicknameChanged in codes then r - {o.nick}
    else if o.role != ROLE_NONE then r[o.nick := Seen(o.affiliation, o.role)]
    else if Place(s.occupants, who) == i then map[]
    else r - {o.nick}
  }

  lemma {:induction false} BroadcastTeaches(
      s: RoomState, i: nat, newNick: Option<string>, codes: set<Status>, who: Jid, r: Known)
    requires Keyed(s) && i < |s.occupants| && SelfPresence !in codes
    ensures ReceiveAll(r, s.node, who, Broadcast(s, i, newNick, codes)) == Learn(r, s, i, codes, who)
  {
    BroadcastReceived(s, i, newNick, codes, |s.occupants|, who, r);
    if Here(s, who) {
      var p := PresenceTo(s, i, Place(s.occupants, who), newNick, codes);
      assert p.unavailable <==> s.occupants[i].role == ROLE_NONE || NicknameChanged in codes;
      assert SelfPresence in p.codes <==> Place(s.occupants, who) == i;
      assert NicknameChanged in p.codes <==> NicknameChanged in codes;
    }
  }

  /** Announcing an occupant who stays settles what clients know about it. Who was left
   *  without a role by an aborted set is announced as gone. */
  lemma {:induction false} AnnouncedStays(
      s: RoomState, i: nat, codes: set<Status>, who: Jid, r: Known, pending: seq<nat>, rest: seq<nat>)
    requires Keyed(s) && i < |s.occupants| && codes !! {NicknameChanged, SelfPresence}
    requires s.occupants[i].role != ROLE_NONE || LeftMarked(s, i, pending)
    requires Informed(s, who, r, pending)
    requires (forall k :: k in rest ==> k in pending) && forall k :: k in pending ==> k == i || k in rest
    ensures Informed(s, who, ReceiveAll(r, s.node, who, Broadcast(s, i, None, codes)), rest)
  {
    BroadcastTeaches(s, i, None, codes, who, r);
    assert HasNick(s, s.occupants[i].nick);
    if Here(s, who) && KnowsUnmarked(r, s, pending) {
      UnmarkedAfterStay(s, i, r, pending, rest);
    }
  }

  lemma {:induction false} UnmarkedAfterStay(s: RoomState, i: nat, r: Known, pending: seq<nat>, rest: seq<nat>)
    requires Keyed(s) && i < |s.occupants| && KnowsUnmarked(r, s, pending)
    requires s.occupants[i].role != ROLE_NONE || LeftMarked(s, i, pending)
    requires (forall k :: k in rest ==> k in pending) && forall k :: k in pending ==> k == i || k in rest
    ensures var o := s.occupants[i];
            KnowsUnmarked(if o.role != ROLE_NONE then r[o.nick := Seen(o.affiliation, o.role)] else r - {o.nick},
                          s, rest)
  {
    forall k | 0 <= k < |s.occupants| && !s.occupants[k].included && k !in rest && k != i
      ensures KnownAs(r, s.occupants[k]) && s.occupants[k].nick != s.occupants[i].nick
    {
    }
  }

  /** Announcing an occupant without role and removing it makes everybody forget it,
   *  and makes it forget the room. */
  lemma {:induction false} AnnouncedLeaves(
      s: RoomState, i: nat, codes: set<Status>, who: Jid, r: Known, pending: seq<nat>, rest: seq<nat>)
    requires Keyed(s) && i < |s.occupants| && s.occupants[i].role == ROLE_NONE
    requires codes !! {NicknameChanged, SelfPresence}
    requires Informed(s, who, r, pending) && i !in rest
    requires (forall k :: k in rest ==> k in pending) && forall k :: k in pending ==> k == i || k in rest
    ensures Informed(Leave(s, i), who, ReceiveAll(r, s.node, who, Broadcast(s, i, None, codes)), Shifted(rest, i))
  {
    BroadcastTeaches(s, i, None, codes, who, r);
    PlaceAfterLeave(s, i, who);
    if Here(s, who) && Place(s.occupants, who) != i {
      NicksAfterLeave(s, i);
      if LeftMarked(s, Place(s.occupants, who), pending) {
        MarkAfterLeave(s, i, Place(s.occupants, who), Place(Leave(s, i).occupants, who), pending, rest);
      } else {
        UnmarkedAfterLeave(s, i, r, pending, rest);
      }
    }
  }

  lemma {:induction false} MarkAfterLeave(s: RoomState, i: nat, place: nat, now: nat, pending: seq<nat>, rest: seq<nat>)
    requires i < |s.occupants| && now < |Leave(s, i).occupants| && place == if now < i then now else now + 1
    requires i !in rest && (forall k :: k in rest ==> k in pending) && LeftMarked(s, place, pending)
    ensures LeftMarked(Leave(s, i), now, Shifted(rest, i))
  {
    ShiftedBack(rest, i, now);
    assert Leave(s, i).occupants[now] == s.occupants[place];
  }

  lemma {:induction false} UnmarkedAfterLeave(s: RoomState, i: nat, r: Known, pending: seq<nat>, rest: seq<nat>)
    requires Keyed(s) && i < |s.occupants| && KnowsUnmarked(r, s, pending) && i !in rest
    requires forall k :: k in pending ==> k == i || k in rest
    ensures KnowsUnmarked(r - {s.occupants[i].nick}, Leave(s, i), Shifted(rest, i))
  {
    var after := Leave(s, i);
    forall j | 0 <= j < |after.occupants| && !after.occupants[j].included && j !in Shifted(rest, i)
      ensures KnownAs(r - {s.occupants[i].nick}, after.occupants[j])
    {
      ShiftedBack(rest, i, j);
      var k := if j < i then j else j + 1;
      assert k != i && k !in pending && after.occupants[j] == s.occupants[k];
    }
  }

  lemma {:induction false} PlaceAfterLeave(s: RoomState, i: nat, who: Jid)
    requires Keyed(s) && i < |s.occupants|
    ensures var place, now := Place(s.occupants, who), Place(Leave(s, i).occupants, who);
            && (Here(Leave(s, i), who) <==> Here(s, who) && place != i)
            && (Here(Leave(s, i), who) ==> place == if now < i then now else now + 1)
  {
    var after := Leave(s, i);
    var k, k' := Place(s.occupants, who), Place(after.occupants, who);
    if k < |s.occupants| && k != i {
      assert after.occupants[if k < i then k else k - 1] == s.occupants[k];
    }
    if k' < |after.occupants| {
      assert after.occupants[k'] == s.occupants[if k' < i then k' else k' + 1];
    }
  }

  lemma {:induction false} NicksAfterLeave(s: RoomState, i: nat)
    requires Keyed(s) && i < |s.occupants|
    ensures forall n :: HasNick(Leave(s, i), n) <==> HasNick(s, n) && n != s.occupants[i].nick
  {
    var after := Leave(s, i);
    forall n
      ensures HasNick(after, n) <==> HasNick(s, n) && n != s.occupants[i].nick
    {
      if k :| 0 <= k < |s.occupants| && s.occupants[k].nick == n && n != s.occupants[i].nick {
        assert after.occupants[if k < i then k else k - 1].nick == n;
      }
      if k :| 0 <= k < |after.occupants| && after.occupants[k].nick == n {
        assert s.occupants[if k < i then k else k + 1].nick == n;
      }
    }
  }

  lemma {:induction false} ShiftedBack(affected: seq<nat>, i: nat, j: nat)
    requires i !in affected
    ensures j in Shifted(affected, i) <==> (if j < i then j else j + 1) in affected
  {
    var back := if j < i then j else j + 1;
    if back in affected {
      var k :| 0 <= k < |affected| && affected[k] == back;
      assert Shifted(affected, i)[k] == j;
    }
  }

  ghost predicate SameKeys(s: RoomState, t: RoomState) {
    && s.node == t.node && |s.occupants| == |t.occupants|
    && forall k :: 0 <= k < |s.occupants| ==>
         s.occupants[k].nick == t.occupants[k].nick && s.occupants[k].jid == t.occupants[k].jid
  }

  /** Who is left with a mark keeps it, and whoever has neither a mark nor is pending was
   *  that before and has not changed. */
  ghost predicate MarksCover(s: RoomState, t: RoomState, before: seq<nat>, pending: seq<nat>)
    requires |s.occupants| == |t.occupants|
  {
    forall k :: 0 <= k < |s.occupants| ==>
      && (LeftMarked(s, k, before) ==> LeftMarked(t, k, pending))
      && (!t.occupants[k].included && k !in pending ==>
            && !s.occupants[k].included && k !in before
            && t.occupants[k].affiliation == s.occupants[k].affiliation
            && t.occupants[k].role == s.occupants[k].role)
  }

  /** Such a change under the same nicks and addresses needs no announcement but those pending. */
  lemma {:induction false} SameKeysInformed(
      s: RoomState, t: RoomState, who: Jid, r: Known, before: seq<nat>, pending: seq<nat>)
    requires SameKeys(s, t) && MarksCover(s, t, before, pending) && Informed(s, who, r, before)
    ensures Informed(t, who, r, pending)
  {
    SamePlace(s, t, who);
    SameNicks(s, t);
    if Here(s, who) && !LeftMarked(s, Place(s.occupants, who), before) {
      forall k | 0 <= k < |t.occupants| && !t.occupants[k].included && k !in pending
        ensures KnownAs(r, t.occupants[k])
      {
        assert KnownAs(r, s.occupants[k]);
      }
    }
  }

  lemma {:induction false} SameNicks(s: RoomState, t: RoomState)
    requires SameKeys(s, t)
    ensures forall n :: HasNick(s, n) <==> HasNick(t, n)
  {
    forall n
      ensures HasNick(s, n) <==> HasNick(t, n)
    {
      if k :| 0 <= k < |s.occupants| && s.occupants[k].nick == n { assert t.occupants[k].nick == n; }
      if k :| 0 <= k < |t.occupants| && t.occupants[k].nick == n { assert s.occupants[k].nick == n; }
    }
  }

  // ----- Entering -----

  ghost predicate IntroducedBefore(r: Known, s: RoomState, n: nat)
    requires n <= |s.occupants|
  {
    && (forall k :: 0 < k < n ==> KnownAs(r, s.occupants[k]))
    && forall x :: x in r ==> exists k :: 0 < k < n && s.occupants[k].nick == x
  }

  /** The newcomer, who knew nothing, learns about everybody else. */
  lemma {:induction false} IntroductionsReceived(s: RoomState, n: nat)
    requires Keyed(s) && 0 < |s.occupants| && n <= |s.occupants|
    ensures IntroducedBefore(ReceiveAll(map[], s.node, Canonical(s.occupants[0].jid), Introductions(s, 0, n)), s, n)
    decreases n
  {
    if n > 1 {
      IntroductionsReceived(s, n - 1);
      var all := Introductions(s, 0, n);
      assert all[..|all| - 1] == Introductions(s, 0, n - 1);
    } else if n == 1 {
      assert Introductions(s, 0, 1) == [];
    }
  }

  lemma {:induction false} IntroductionsAreForTheNewcomer(s: RoomState, n: nat)
    requires 0 < |s.occupants| && n <= |s.occupants|
    ensures forall i :: 0 <= i < |Introductions(s, 0, n)| ==> Introductions(s, 0, n)[i].to == s.occupants[0].jid
    decreases n
  {
    if n > 0 {
      IntroductionsAreForTheNewcomer(s, n - 1);
    }
  }

  /** What is known after the introductions: everybody but the newcomer at position 0. */
  ghost predicate KnowsBehindFirst(r: Known, s: RoomState) {
    forall k :: 0 < k < |s.occupants| && !s.occupants[k].included ==> KnownAs(r, s.occupants[k])
  }

  ghost predicate AllButFirst(s: RoomState, who: Jid, r: Known) {
    var place := Place(s.occupants, who);
    if place == |s.occupants| then r == map[]
    else NoStrangers(r, s) && (s.occupants[place].included || KnowsBehindFirst(r, s))
  }

  lemma {:induction false} JoinIntroduces(
      s: RoomState, jid: Jid, nick: string, affiliation: Affiliation, who: Jid, r: Known)
    requires Informed(s, who, r, []) && Keyed(Join(s, jid, nick, affiliation))
    ensures var joined := Join(s, jid, nick, affiliation);
            AllButFirst(joined, who, ReceiveAll(r, s.node, who, Introductions(joined, 0, |joined.occupants|)))
  {
    var joined := Join(s, jid, nick, affiliation);
    var n := |joined.occupants|;
    if who == Canonical(jid) {
      NewcomerWasAway(s, jid, nick, affiliation);
      IntroductionsReceived(joined, n);
      NobodyElseIntroduced(joined, ReceiveAll(r, s.node, who, Introductions(joined, 0, n)));
    } else {
      IntroductionsAreForTheNewcomer(joined, n);
      UnrelatedPackets(r, s.node, who, Introductions(joined, 0, n));
      PlaceAfterJoin(s, jid, nick, affiliation, who);
      KnownBeforeJoin(s, joined, r);
    }
  }

  lemma {:induction false} NobodyElseIntroduced(s: RoomState, r: Known)
    requires IntroducedBefore(r, s, |s.occupants|)
    ensures NoStrangers(r, s) && KnowsBehindFirst(r, s)
  {
    forall x | x in r
      ensures HasNick(s, x)
    {
      var k :| 0 < k < |s.occupants| && s.occupants[k].nick == x;
    }
  }

  lemma {:induction false} NewcomerWasAway(s: RoomState, jid: Jid, nick: string, affiliation: Affiliation)
    requires Keyed(Join(s, jid, nick, affiliation))
    ensures !Here(s, Canonical(jid))
  {
    var joined := Join(s, jid, nick, affiliation);
    forall k | 0 <= k < |s.occupants|
      ensures Canonical(s.occupants[k].jid) != Canonical(jid)
    {
      assert joined.occupants[0].jid == jid && joined.occupants[k + 1] == s.occupants[k];
    }
  }

  lemma {:induction false} KnownBeforeJoin(s: RoomState, joined: RoomState, r: Known)
    requires |joined.occupants| == |s.occupants| + 1 && joined.occupants[1..] == s.occupants
    ensures NoStrangers(r, s) ==> NoStrangers(r, joined)
    ensures KnowsUnmarked(r, s, []) ==> KnowsBehindFirst(r, joined)
  {
    forall k | 0 < k < |joined.occupants|
      ensures joined.occupants[k] == s.occupants[k - 1]
    {
    }
    forall x | HasNick(s, x)
      ensures HasNick(joined, x)
    {
      var k :| 0 <= k < |s.occupants| && s.occupants[k].nick == x;
      assert joined.occupants[k + 1].nick == x;
    }
  }

  lemma {:induction false} PlaceAfterJoin(s: RoomState, jid: Jid, nick: string, affiliation: Affiliation, who: Jid)
    requires who != Canonical(jid)
    ensures Place(Join(s, jid, nick, affiliation).occupants, who) == Place(s.occupants, who) + 1
  {
    assert Join(s, jid, nick, affiliation).occupants[1..] == s.occupants;
  }

  /** The first announcement of the newcomer completes the picture. */
  lemma {:induction false} FirstAnnouncement(s: RoomState, who: Jid, r: Known)
    requires Keyed(s) && 0 < |s.occupants| && s.occupants[0].role != ROLE_NONE
    requires AllButFirst(s, who, r)
    ensures Informed(s, who, ReceiveAll(r, s.node, who, Broadcast(s, 0, None, {})), [])
  {
    BroadcastTeaches(s, 0, None, {}, who, r);
    assert HasNick(s, s.occupants[0].nick);
    if Here(s, who) && KnowsBehindFirst(r, s) {
      KnowsFirstToo(s, r);
    }
  }

  lemma {:induction false} KnowsFirstToo(s: RoomState, r: Known)
    requires Keyed(s) && 0 < |s.occupants| && KnowsBehindFirst(r, s)
    ensures var o := s.occupants[0]; KnowsUnmarked(r[o.nick := Seen(o.affiliation, o.role)], s, [])
  {
  }

  // ----- Changing nick -----

  /** The occupant at `i` takes a nick that nobody has. */
  ghost predicate Renamed(s: RoomState, i: nat, nick: string, t: RoomState)
    requires i < |s.occupants|
  {
    && t.node == s.node && |t.occupants| == |s.occupants|
    && !HasNick(s, nick) && t.occupants[i].nick == nick
    && (forall k :: 0 <= k < |s.occupants| && k != i ==> t.occupants[k] == s.occupants[k])
    && t.occupants[i].jid == s.occupants[i].jid && t.occupants[i].included == s.occupants[i].included
    && t.occupants[i].affiliation == s.occupants[i].affiliation && t.occupants[i].role == s.occupants[i].role
  }

  /** The old nick is announced as gone and the new one as present. */
  lemma {:induction false} RenameInforms(s: RoomState, i: nat, nick: string, t: RoomState, who: Jid, r: Known)
    requires Keyed(s) && i < |s.occupants| && Renamed(s, i, nick, t) && Informed(s, who, r, [])
    requires s.occupants[i].role != ROLE_NONE || s.occupants[i].included
    ensures Informed(t, who,
                     ReceiveAll(ReceiveAll(r, s.node, who, Broadcast(s, i, Some(nick), {NicknameChanged})),
                                s.node, who, Broadcast(t, i, None, {})), [])
  {
    var forgot := ReceiveAll(r, s.node, who, Broadcast(s, i, Some(nick), {NicknameChanged}));
    BroadcastTeaches(s, i, Some(nick), {NicknameChanged}, who, r);
    RenamedIsKeyed(s, i, nick, t);
    SamePlace(s, t, who);
    // Whoever changes its nick is pending until its new nick is announced.
    var pending := if s.occupants[i].included then [] else [i];
    if Here(s, who) {
      NoStrangersAfterRename(s, i, nick, t, r);
      if KnowsUnmarked(r, s, []) {
        UnmarkedAfterRename(s, i, nick, t, r, pending);
      }
    }
    assert Informed(t, who, forgot, pending);
    AnnouncedStays(t, i, {}, who, forgot, pending, []);
  }

  lemma {:induction false} RenamedIsKeyed(s: RoomState, i: nat, nick: string, t: RoomState)
    requires Keyed(s) && i < |s.occupants| && Renamed(s, i, nick, t)
    ensures Keyed(t)
  {
    forall k | 0 <= k < |s.occupants|
      ensures s.occupants[k].nick != nick
    {
      assert HasNick(s, s.occupants[k].nick);
    }
  }

  lemma {:induction false} NoStrangersAfterRename(s: RoomState, i: nat, nick: string, t: RoomState, r: Known)
    requires i < |s.occupants| && Renamed(s, i, nick, t) && NoStrangers(r, s)
    ensures NoStrangers(r - {s.occupants[i].nick}, t)
  {
    forall n | n in r && n != s.occupants[i].nick
      ensures HasNick(t, n)
    {
      assert HasNick(s, n);
      var k :| 0 <= k < |s.occupants| && s.occupants[k].nick == n;
      assert t.occupants[k].nick == n;
    }
  }

  lemma {:induction false} UnmarkedAfterRename(
      s: RoomState, i: nat, nick: string, t: RoomState, r: Known, pending: seq<nat>)
    requires Keyed(s) && i < |s.occupants| && Renamed(s, i, nick, t) && KnowsUnmarked(r, s, [])
    requires pending == if s.occupants[i].included then [] else [i]
    ensures KnowsUnmarked(r - {s.occupants[i].nick}, t, pending)
  {
    forall k | 0 <= k < |t.occupants| && !t.occupants[k].included && k !in pending
      ensures KnownAs(r - {s.occupants[i].nick}, t.occupants[k])
    {
      assert k != i && KnownAs(r, s.occupants[k]);
    }
  }

  lemma {:induction false} SamePlace(s: RoomState, t: RoomState, who: Jid)
    requires |s.occupants| == |t.occupants|
    requires forall k :: 0 <= k < |s.occupants| ==> t.occupants[k].jid == s.occupants[k].jid
    ensures Place(s.occupants, who) == Place(t.occupants, who)
  {
    var k, l := Place(s.occupants, who), Place(t.occupants, who);
    if k < |s.occupants| { assert Canonical(t.occupants[k].jid) == who; }
    if l < |t.occupants| { assert Canonical(s.occupants[l].jid) == who; }
  }
}
