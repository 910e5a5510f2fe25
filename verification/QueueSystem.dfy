/** The two-stage queue under threads that overlap (xmcomp/src/queue.c): the free list and
 *  the data list have a mutex each, so that an operation on one and an operation on the
 *  other go on at the same time, statement by statement.
 */
module QueueSystem {
  import opened Common

  /** Where a thread is. Outside an operation it has empty hands or one entry; in between, the
   *  names say what it did last. */
  datatype Pc =
    | Empty | Full(e: nat)
      // queue_pop_free
    | FreeWaits | FreeLocked | FreeRead(e: nat) | FreeTaken(e: nat) | FreeCounted(e: nat)
      // queue_push_free
    | GiveLocked(e: nat) | GiveLinked(e: nat) | Given | GivenCounted
      // queue_pop_data
    | DataWaits | DataLocked | DataRead(e: nat) | DataTaken(e: nat) | DataCut(e: nat) | DataCounted(e: nat)
      // queue_push_data
    | PutLocked(e: nat) | PutCut(e: nat) | PutLinked(e: nat) | PutEnded | PutCounted

  datatype Place = InFree | InData | With(thread: nat)

  /** The fields of the queue and of its entries, the owners of the two mutexes, and the
   *  threads. `free`, `data` and `place` say where the entries are; `pushed` and `popped`
   *  are the contents that went into the data list and came out of it. */
  datatype System = System(
    next: seq<Option<nat>>, buffer: seq<string>,
    freeQueue: Option<nat>, dataStart: Option<nat>, dataEnd: Option<nat>,
    freePushes: nat, freePops: nat, dataPushes: nat, dataPops: nat,
    freeOwner: Option<nat>, dataOwner: Option<nat>, threads: seq<Pc>,
    free: seq<nat>, data: seq<nat>, place: seq<Place>, pushed: seq<string>, popped: seq<string>)

  /** What a thread outside an operation does next. It writes only to an entry it has. */
  datatype Op = TakeFree | GiveFree | TakeData | PutData | Fill(contents: string)

  // ----- The invariant -----

  /** The thread has the free list's mutex. */
  predicate AtFree(pc: Pc) {
    pc.FreeLocked? || pc.FreeRead? || pc.FreeTaken? || pc.FreeCounted?
    || pc.GiveLocked? || pc.GiveLinked? || pc.Given? || pc.GivenCounted?
  }

  predicate AtData(pc: Pc) {
    pc.DataLocked? || pc.DataRead? || pc.DataTaken? || pc.DataCut? || pc.DataCounted?
    || pc.PutLocked? || pc.PutCut? || pc.PutLinked? || pc.PutEnded? || pc.PutCounted?
  }

  /** The entry that is in the hands of the thread and in no list. */
  function Hand(pc: Pc): Option<nat> {
    match pc
    case Full(e) => Some(e)
    case FreeTaken(e) => Some(e)
    case FreeCounted(e) => Some(e)
    case GiveLocked(e) => Some(e)
    case GiveLinked(e) => Some(e)
    case DataTaken(e) => Some(e)
    case DataCut(e) => Some(e)
    case DataCounted(e) => Some(e)
    case PutLocked(e) => Some(e)
    case PutCut(e) => Some(e)
    case _ => None
  }

  ghost predicate Locks(s: System) {
    && (s.freeOwner.Some? ==> s.freeOwner.value < |s.threads|)
    && (s.dataOwner.Some? ==> s.dataOwner.value < |s.threads|)
    && forall t :: 0 <= t < |s.threads| ==>
         && (AtFree(s.threads[t]) <==> s.freeOwner == Some(t))
         && (AtData(s.threads[t]) <==> s.dataOwner == Some(t))
  }

  /** Everything in the list is where the list is, and only once. */
  ghost predicate AllAt(list: seq<nat>, place: seq<Place>, where: Place) {
    && (forall i :: 0 <= i < |list| ==> list[i] < |place| && place[list[i]] == where)
    && (forall i, j :: 0 <= i < j < |list| ==> list[i] != list[j])
    && forall e :: 0 <= e < |place| && place[e] == where ==> e in list
  }

  ghost predicate Hands(s: System) {
    && (forall t :: 0 <= t < |s.threads| && Hand(s.threads[t]).Some? ==>
          Hand(s.threads[t]).value < |s.place| && s.place[Hand(s.threads[t]).value] == With(t))
    && forall e :: 0 <= e < |s.place| && s.place[e].With? ==>
         s.place[e].thread < |s.threads| && Hand(s.threads[s.place[e].thread]) == Some(e)
  }

  ghost predicate Placed(s: System) {
    && |s.next| == |s.buffer| == |s.place|
    && AllAt(s.free, s.place, InFree) && AllAt(s.data, s.place, InData) && Hands(s)
  }

  /** `next` links the list from `head` on, and ends it. */
  ghost predicate Linked(next: seq<Option<nat>>, list: seq<nat>, head: Option<nat>) {
    head == First(list) && forall i :: 0 <= i < |list| ==> Link(next, list, i)
  }

  predicate Link(next: seq<Option<nat>>, list: seq<nat>, i: nat)
    requires i < |list|
  {
    list[i] < |next| && next[list[i]] == if i + 1 < |list| then Some(list[i + 1]) else None
  }

  function First(list: seq<nat>): Option<nat> {
    if list == [] then None else Some(list[0])
  }

  function Last(list: seq<nat>): Option<nat> {
    if list == [] then None else Some(list[|list| - 1])
  }

  function One(b: bool): nat {
    if b then 1 else 0
  }

  function PcOf(s: System, owner: Option<nat>): Pc {
    if owner.Some? && owner.value < |s.threads| then s.threads[owner.value] else Empty
  }

  /** The free list, as far as the owner of its mutex has come. */
  ghost predicate FreeOk(s: System) {
    var pc := PcOf(s, s.freeOwner);
    && Linked(s.next, s.free, s.freeQueue)
    && (pc.FreeRead? ==> First(s.free) == Some(pc.e))
    && (pc.GiveLinked? ==> pc.e < |s.next| && s.next[pc.e] == s.freeQueue)
    && s.freePops + One(pc.FreeTaken?) + |s.free| == s.freePushes + One(pc.Given?) + |s.next|
  }

  /** The data list, as far as the owner of its mutex has come. */
  ghost predicate DataOk(s: System) {
    var pc := PcOf(s, s.dataOwner);
    && Linked(s.next, s.data, s.dataStart)
    && s.dataEnd ==
       (if pc.DataTaken? && s.data == [] then Some(pc.e)
        else if pc.PutLinked? && s.data != [] then Last(s.data[..|s.data| - 1])
        else Last(s.data))
    && (pc.DataRead? ==> First(s.data) == Some(pc.e))
    && (pc.PutCut? ==> pc.e < |s.next| && s.next[pc.e] == None)
    && (pc.PutLinked? ==> Last(s.data) == Some(pc.e))
  }

  function Contents(buffer: seq<string>, list: seq<nat>): (c: seq<string>)
    requires forall i :: 0 <= i < |list| ==> list[i] < |buffer|
    ensures |c| == |list|
  {
    seq(|list|, i requires 0 <= i < |list| => buffer[list[i]])
  }

  /** What was pushed is what was popped and then what is in the data list. */
  ghost predicate Counted(s: System) {
    var pc := PcOf(s, s.dataOwner);
    && (forall i :: 0 <= i < |s.data| ==> s.data[i] < |s.buffer|)
    && s.pushed == s.popped + Contents(s.buffer, s.data)
    && |s.pushed| == s.dataPushes + One(pc.PutLinked? || pc.PutEnded?)
    && |s.popped| == s.dataPops + One(pc.DataTaken? || pc.DataCut?)
  }

  ghost predicate Inv(s: System) {
    Locks(s) && Placed(s) && FreeOk(s) && DataOk(s) && Counted(s)
  }

  // ----- Steps -----

  function Now(s: System, t: nat, pc: Pc): System
    requires t < |s.threads|
  {
    s.(threads := s.threads[t := pc])
  }

  /** queue_pop_free: free_queue = block->next. */
  function FreeTake(s: System, t: nat, e: nat): System
    requires t < |s.threads| && e < |s.next| == |s.place| && s.free != []
  {
    Now(s, t, FreeTaken(e)).(freeQueue := s.next[e], free := s.free[1..], place := s.place[e := With(t)])
  }

  /** queue_push_free: stanza->next = free_queue, and then free_queue = stanza. */
  function FreeLink(s: System, t: nat, e: nat): System
    requires t < |s.threads| && e < |s.next|
  {
    Now(s, t, GiveLinked(e)).(next := s.next[e := s.freeQueue])
  }

  function FreeGive(s: System, t: nat, e: nat): System
    requires t < |s.threads| && e < |s.place|
  {
    Now(s, t, Given).(freeQueue := Some(e), free := [e] + s.free, place := s.place[e := InFree])
  }

  /** The other statements of the two, which move no entry, and the mutex around them. Without
   *  the mutex a thread waits; it gives the mutex back when there is no free entry. */
  function FreeMove(s: System, t: nat): System
    requires t < |s.threads|
  {
    match s.threads[t]
    case FreeWaits => if s.freeOwner.Some? then s else Now(s, t, FreeLocked).(freeOwner := Some(t))
    case FreeLocked =>
      if s.freeQueue.None? then Now(s, t, FreeWaits).(freeOwner := None)
      else Now(s, t, FreeRead(s.freeQueue.value))
    case FreeTaken(e) => Now(s, t, FreeCounted(e)).(freePops := s.freePops + 1)
    case FreeCounted(e) => Now(s, t, Full(e)).(freeOwner := None)
    case Given => Now(s, t, GivenCounted).(freePushes := s.freePushes + 1)
    case GivenCounted => Now(s, t, Empty).(freeOwner := None)
    case _ => s
  }

  /** queue_pop_data: data_start_queue = block->next. */
  function DataTake(s: System, t: nat, e: nat): System
    requires t < |s.threads| && e < |s.next| == |s.place| == |s.buffer| && s.data != []
  {
    Now(s, t, DataTaken(e)).(dataStart := s.next[e], data := s.data[1..], place := s.place[e := With(t)],
                             popped := s.popped + [s.buffer[e]])
  }

  /** queue_push_data: stanza->next = 0, and then the stanza is linked behind the last entry. */
  function DataCutOff(s: System, t: nat, e: nat): System
    requires t < |s.threads| && e < |s.next|
  {
    Now(s, t, PutCut(e)).(next := s.next[e := None])
  }

  function DataPut(s: System, t: nat, e: nat): System
    requires t < |s.threads| && e < |s.place| == |s.buffer| && (s.dataEnd.Some? ==> s.dataEnd.value < |s.next|)
  {
    Now(s, t, PutLinked(e)).(
    next := if s.dataEnd.Some? then s.next[s.dataEnd.value := Some(e)] else s.next,
    dataStart := if s.dataEnd.Some? then s.dataStart else Some(e),
    data := s.data + [e], place := s.place[e := InData], pushed := s.pushed + [s.buffer[e]])
  }

  function DataMove(s: System, t: nat): System
    requires t < |s.threads|
  {
    match s.threads[t]
    case DataWaits => if s.dataOwner.Some? then s else Now(s, t, DataLocked).(dataOwner := Some(t))
    case DataLocked =>
      if s.dataStart.None? then Now(s, t, DataWaits).(dataOwner := None)
      else Now(s, t, DataRead(s.dataStart.value))
    case DataTaken(e) => Now(s, t, DataCut(e)).(dataEnd := if s.dataEnd == Some(e) then None else s.dataEnd)
    case DataCut(e) => Now(s, t, DataCounted(e)).(dataPops := s.dataPops + 1)
    case DataCounted(e) => Now(s, t, Full(e)).(dataOwner := None)
    case PutLinked(e) => Now(s, t, PutEnded).(dataEnd := Some(e))
    case PutEnded => Now(s, t, PutCounted).(dataPushes := s.dataPushes + 1)
    case PutCounted => Now(s, t, Empty).(dataOwner := None)
    case _ => s
  }

  /** Outside an operation: a mutex is taken if it is free, or the entry is filled. */
  function OuterMove(s: System, t: nat, op: Op): System
    requires t < |s.threads| && (s.threads[t].Full? ==> s.threads[t].e < |s.buffer|)
  {
    match s.threads[t]
    case Empty =>
      if op.TakeFree? && s.freeOwner.None? then Now(s, t, FreeLocked).(freeOwner := Some(t))
      else if op.TakeData? && s.dataOwner.None? then Now(s, t, DataLocked).(dataOwner := Some(t))
      else s
    case Full(e) =>
      if op.GiveFree? && s.freeOwner.None? then Now(s, t, GiveLocked(e)).(freeOwner := Some(t))
      else if op.PutData? && s.dataOwner.None? then Now(s, t, PutLocked(e)).(dataOwner := Some(t))
      else if op.Fill? then s.(buffer := s.buffer[e := op.contents])
      else s
    case _ => s
  }

  /** What a statement needs: the entry it works on is one, and the list that it takes from is
   *  not empty. */
  predicate Fits(s: System, t: nat) {
    && t < |s.threads| && |s.next| == |s.buffer| == |s.place|
    && var pc := s.threads[t];
       && (Hand(pc).Some? ==> Hand(pc).value < |s.place| && s.place[Hand(pc).value] == With(t))
       && (pc.FreeRead? ==> s.free != [] && s.free[0] == pc.e && pc.e < |s.place|)
       && (pc.DataRead? ==> s.data != [] && s.data[0] == pc.e && pc.e < |s.place|)
       && (pc.PutCut? ==> s.dataEnd == Last(s.data) && (s.dataEnd.Some? ==> s.dataEnd.value < |s.next|))
  }

  lemma {:induction false} StepFits(s: System, t: nat)
    requires Inv(s) && t < |s.threads|
    ensures Fits(s, t)
  {
    assert PcOf(s, s.freeOwner) == s.threads[t] || !AtFree(s.threads[t]);
    assert PcOf(s, s.dataOwner) == s.threads[t] || !AtData(s.threads[t]);
  }

  /** The next statement of queue_pop_free or queue_push_free. */
  function FreeStep(s: System, t: nat): System
    requires Fits(s, t)
  {
    match s.threads[t]
    case FreeRead(e) => FreeTake(s, t, e)
    case GiveLocked(e) => FreeLink(s, t, e)
    case GiveLinked(e) => FreeGive(s, t, e)
    case _ => FreeMove(s, t)
  }

  /** The next statement of queue_pop_data or queue_push_data. */
  function DataStep(s: System, t: nat): System
    requires Fits(s, t)
  {
    match s.threads[t]
    case DataRead(e) => DataTake(s, t, e)
    case PutLocked(e) => DataCutOff(s, t, e)
    case PutCut(e) => DataPut(s, t, e)
    case _ => DataMove(s, t)
  }

  predicate InFreeCode(pc: Pc) {
    AtFree(pc) || pc.FreeWaits?
  }

  predicate InDataCode(pc: Pc) {
    AtData(pc) || pc.DataWaits?
  }

  /** The thread `t` goes on by one statement, if it does not have to wait. */
  function Step(s: System, t: nat, op: Op): System
    requires Fits(s, t)
  {
    var pc := s.threads[t];
    if InFreeCode(pc) then FreeStep(s, t)
    else if InDataCode(pc) then DataStep(s, t)
    else OuterMove(s, t, op)
  }

  // ----- What a step leaves alone -----

  lemma {:induction false} LocksKept(s: System, u: System, t: nat)
    requires Locks(s) && t < |s.threads| == |u.threads|
    requires forall x :: 0 <= x < |s.threads| && x != t ==> u.threads[x] == s.threads[x]
    requires AtFree(u.threads[t]) <==> u.freeOwner == Some(t)
    requires AtData(u.threads[t]) <==> u.dataOwner == Some(t)
    requires u.freeOwner == s.freeOwner || (s.freeOwner in {None, Some(t)} && u.freeOwner in {None, Some(t)})
    requires u.dataOwner == s.dataOwner || (s.dataOwner in {None, Some(t)} && u.dataOwner in {None, Some(t)})
    ensures Locks(u)
  {
  }

  lemma {:induction false} AllAtElsewhere(list: seq<nat>, place: seq<Place>, where: Place, e: nat, now: Place)
    requires AllAt(list, place, where) && e < |place| && place[e] != where && now != where
    ensures AllAt(list, place[e := now], where)
  {
  }

  lemma {:induction false} AllAtWithoutFirst(list: seq<nat>, place: seq<Place>, where: Place, now: Place)
    requires AllAt(list, place, where) && list != [] && now != where
    ensures AllAt(list[1..], place[list[0] := now], where)
  {
    forall e | 0 <= e < |place| && e != list[0] && place[e] == where
      ensures e in list[1..]
    {
      assert e in list;
    }
  }

  lemma {:induction false} AllAtWithOne(list: seq<nat>, more: seq<nat>, place: seq<Place>, where: Place, e: nat)
    requires AllAt(list, place, where) && e < |place| && place[e] != where
    requires more == [e] + list || more == list + [e]
    ensures AllAt(more, place[e := where], where)
  {
    assert e in more;
    forall x | 0 <= x < |place| && place[x] == where
      ensures x in more
    {
      assert x in list;
    }
  }

  /** Hands when one thread moves on and keeps what it has. */
  lemma {:induction false} HandsKept(s: System, u: System, t: nat)
    requires Hands(s) && t < |s.threads| == |u.threads| && u.place == s.place
    requires forall x :: 0 <= x < |s.threads| && x != t ==> u.threads[x] == s.threads[x]
    requires Hand(u.threads[t]) == Hand(s.threads[t])
    ensures Hands(u)
  {
  }

  lemma {:induction false} HandsTake(s: System, u: System, t: nat, e: nat)
    requires Hands(s) && t < |s.threads| == |u.threads| && e < |s.place| && u.place == s.place[e := With(t)]
    requires forall x :: 0 <= x < |s.threads| && x != t ==> u.threads[x] == s.threads[x]
    requires Hand(s.threads[t]).None? && Hand(u.threads[t]) == Some(e) && !s.place[e].With?
    ensures Hands(u)
  {
  }

  lemma {:induction false} HandsGive(s: System, u: System, t: nat, e: nat, where: Place)
    requires Hands(s) && t < |s.threads| == |u.threads|
    requires e < |s.place| && u.place == s.place[e := where] && !where.With?
    requires forall x :: 0 <= x < |s.threads| && x != t ==> u.threads[x] == s.threads[x]
    requires Hand(s.threads[t]) == Some(e) && Hand(u.threads[t]).None?
    ensures Hands(u)
  {
  }

  /** The owner of the mutex is at a statement that leaves the free list unfinished. */
  predicate MidFree(pc: Pc) {
    pc.FreeRead? || pc.FreeTaken? || pc.GiveLinked? || pc.Given?
  }

  predicate MidData(pc: Pc) {
    pc.DataRead? || pc.DataTaken? || pc.DataCut? || pc.PutCut? || pc.PutLinked? || pc.PutEnded?
  }

  /** Under the free list's mutex nothing is seen of what is written to entries of the data
   *  list, or to those of a thread that does not have that mutex. */
  lemma {:induction false} FreeUnaffected(s: System, u: System, t: nat)
    requires Placed(s) && Locks(s) && FreeOk(s) && t < |s.threads| == |u.threads|
    requires u.free == s.free && u.freeQueue == s.freeQueue && u.freePops == s.freePops && u.freePushes == s.freePushes
    requires var before, after := PcOf(s, s.freeOwner), PcOf(u, u.freeOwner);
             after == before || !(MidFree(after) || MidFree(before))
    requires |u.next| == |s.next|
    requires forall e :: 0 <= e < |s.next| && u.next[e] != s.next[e] ==>
               s.place[e] == InData || (s.place[e] == With(t) && s.freeOwner != Some(t))
    ensures FreeOk(u)
  {
    LinkedElsewhere(s.next, u.next, s.free, s.freeQueue);
  }

  /** And the other way round. */
  lemma {:induction false} DataUnaffected(s: System, u: System, t: nat)
    requires Placed(s) && Locks(s) && DataOk(s) && t < |s.threads| == |u.threads|
    requires u.data == s.data && u.dataStart == s.dataStart && u.dataEnd == s.dataEnd
    requires var before, after := PcOf(s, s.dataOwner), PcOf(u, u.dataOwner);
             after == before || !(MidData(after) || MidData(before))
    requires |u.next| == |s.next|
    requires forall e :: 0 <= e < |s.next| && u.next[e] != s.next[e] ==>
               s.place[e] == InFree || (s.place[e] == With(t) && s.dataOwner != Some(t))
    ensures DataOk(u)
  {
    LinkedElsewhere(s.next, u.next, s.data, s.dataStart);
  }

  lemma {:induction false} CountsUnaffected(s: System, u: System, t: nat)
    requires Placed(s) && Counted(s) && t < |s.threads| == |u.threads|
    requires u.data == s.data && u.pushed == s.pushed && u.popped == s.popped
    requires u.dataPushes == s.dataPushes && u.dataPops == s.dataPops
    requires var before, after := PcOf(s, s.dataOwner), PcOf(u, u.dataOwner);
             after == before || !(MidData(after) || MidData(before))
    requires |u.buffer| == |s.buffer|
    requires forall e :: 0 <= e < |s.buffer| && u.buffer[e] != s.buffer[e] ==> s.place[e] != InData
    ensures Counted(u)
  {
    assert Contents(u.buffer, u.data) == Contents(s.buffer, s.data);
  }

  lemma {:induction false} LinkedElsewhere(
      next: seq<Option<nat>>, after: seq<Option<nat>>, list: seq<nat>, head: Option<nat>)
    requires Linked(next, list, head) && |after| == |next|
    requires forall i :: 0 <= i < |list| && list[i] < |next| ==> after[list[i]] == next[list[i]]
    ensures Linked(after, list, head)
  {
    forall i | 0 <= i < |list|
      ensures Link(after, list, i)
    {
      assert Link(next, list, i);
    }
  }

  /** Owning a mutex is being between its lock and its unlock. */
  lemma {:induction false} OwnerIs(s: System, t: nat)
    requires Locks(s) && t < |s.threads|
    ensures AtFree(s.threads[t]) ==> s.freeOwner == Some(t) && PcOf(s, s.freeOwner) == s.threads[t]
    ensures AtData(s.threads[t]) ==> s.dataOwner == Some(t) && PcOf(s, s.dataOwner) == s.threads[t]
    ensures !AtFree(s.threads[t]) ==> s.freeOwner != Some(t)
    ensures !AtData(s.threads[t]) ==> s.dataOwner != Some(t)
  {
  }

  /** A statement that moves no entry. */
  lemma {:induction false} MovePlaced(s: System, u: System, t: nat)
    requires Placed(s) && t < |s.threads| == |u.threads|
    requires u.place == s.place && u.free == s.free && u.data == s.data
    requires |u.next| == |s.next| && |u.buffer| == |s.buffer|
    requires forall x :: 0 <= x < |s.threads| && x != t ==> u.threads[x] == s.threads[x]
    requires Hand(u.threads[t]) == Hand(s.threads[t])
    ensures Placed(u)
  {
    HandsKept(s, u, t);
  }

  // ----- Every step keeps the invariant -----

  lemma {:induction false} FreeTakeKeeps(s: System, t: nat, e: nat, u: System)
    requires Inv(s) && t < |s.threads| && s.threads[t] == FreeRead(e)
    requires e < |s.next| == |s.place| && s.free != [] && s.free[0] == e && u == FreeTake(s, t, e)
    ensures Inv(u)
  {
    OwnerIs(s, t);
    LocksKept(s, u, t);
    AllAtWithoutFirst(s.free, s.place, InFree, With(t));
    AllAtElsewhere(s.data, s.place, InData, e, With(t));
    HandsTake(s, u, t, e);
    LinkedRest(s.next, s.free, s.freeQueue);
    DataUnaffected(s, u, t);
    CountsUnaffected(s, u, t);
  }

  lemma {:induction false} FreeLinkKeeps(s: System, t: nat, e: nat, u: System)
    requires Inv(s) && t < |s.threads| && s.threads[t] == GiveLocked(e)
    requires e < |s.next| == |s.place| && s.place[e] == With(t) && u == FreeLink(s, t, e)
    ensures Inv(u)
  {
    OwnerIs(s, t);
    LocksKept(s, u, t);
    MovePlaced(s, u, t);
    LinkedElsewhere(s.next, u.next, s.free, s.freeQueue);
    DataUnaffected(s, u, t);
    CountsUnaffected(s, u, t);
  }

  lemma {:induction false} FreeGiveKeeps(s: System, t: nat, e: nat, u: System)
    requires Inv(s) && t < |s.threads| && s.threads[t] == GiveLinked(e)
    requires e < |s.next| == |s.place| && s.place[e] == With(t) && u == FreeGive(s, t, e)
    ensures Inv(u)
  {
    OwnerIs(s, t);
    LocksKept(s, u, t);
    AllAtWithOne(s.free, u.free, s.place, InFree, e);
    AllAtElsewhere(s.data, s.place, InData, e, InFree);
    HandsGive(s, u, t, e, InFree);
    LinkedInFront(s.next, s.free, s.freeQueue, e);
    DataUnaffected(s, u, t);
    CountsUnaffected(s, u, t);
  }

  /** Such a move under the free list's mutex touches nothing else. */
  ghost predicate FreeMoved(s: System, t: nat, u: System)
    requires t < |s.threads|
  {
    && |u.threads| == |s.threads|
    && u == s.(threads := s.threads[t := u.threads[t]], freeOwner := u.freeOwner,
               freePops := u.freePops, freePushes := u.freePushes)
    && Hand(u.threads[t]) == Hand(s.threads[t]) && !AtData(s.threads[t]) && !AtData(u.threads[t])
  }

  lemma {:induction false} FreeMoveIs(s: System, t: nat, u: System)
    requires t < |s.threads| && u == FreeMove(s, t) && InFreeCode(s.threads[t])
    ensures FreeMoved(s, t, u)
  {
    assert s.threads == s.threads[t := s.threads[t]];
  }

  lemma {:induction false} FreeMovedKeeps(s: System, t: nat, u: System)
    requires Placed(s) && Locks(s) && DataOk(s) && Counted(s) && t < |s.threads| && FreeMoved(s, t, u)
    ensures Placed(u) && DataOk(u) && Counted(u)
  {
    OwnerIs(s, t);
    MovePlaced(s, u, t);
    assert PcOf(u, u.dataOwner) == PcOf(s, s.dataOwner);
    DataUnaffected(s, u, t);
    CountsUnaffected(s, u, t);
  }

  lemma {:induction false} FreeMoveKeeps(s: System, t: nat, u: System)
    requires Inv(s) && t < |s.threads| && u == FreeMove(s, t)
    requires InFreeCode(s.threads[t])
    ensures Inv(u)
  {
    FreeMoveIs(s, t, u);
    FreeMovedKeeps(s, t, u);
    FreeMoveLocks(s, t, u);
    FreeMoveList(s, t, u);
  }

  lemma {:induction false} FreeMoveLocks(s: System, t: nat, u: System)
    requires Locks(s) && t < |s.threads| && u == FreeMove(s, t)
    requires InFreeCode(s.threads[t])
    ensures Locks(u)
  {
    OwnerIs(s, t);
    LocksKept(s, u, t);
  }

  lemma {:induction false} FreeMoveList(s: System, t: nat, u: System)
    requires Locks(s) && FreeOk(s) && t < |s.threads| && u == FreeMove(s, t)
    requires InFreeCode(s.threads[t])
    ensures FreeOk(u)
  {
    OwnerIs(s, t);
  }

  lemma {:induction false} LinkedRest(next: seq<Option<nat>>, list: seq<nat>, head: Option<nat>)
    requires Linked(next, list, head) && list != [] && list[0] < |next|
    ensures Linked(next, list[1..], next[list[0]])
  {
    assert Link(next, list, 0);
    forall i | 0 <= i < |list[1..]|
      ensures Link(next, list[1..], i)
    {
      assert Link(next, list, i + 1);
    }
  }

  lemma {:induction false} LinkedInFront(next: seq<Option<nat>>, list: seq<nat>, head: Option<nat>, e: nat)
    requires Linked(next, list, head) && e < |next| && next[e] == head
    ensures Linked(next, [e] + list, Some(e))
  {
    forall i | 0 <= i < |[e] + list|
      ensures Link(next, [e] + list, i)
    {
      if i > 0 {
        assert Link(next, list, i - 1);
      }
    }
  }

  lemma {:induction false} LinkedBehind(
      next: seq<Option<nat>>, list: seq<nat>, head: Option<nat>, e: nat, after: seq<Option<nat>>)
    requires Linked(next, list, head) && e < |next| && next[e] == None && e !in list
    requires forall i, j :: 0 <= i < j < |list| ==> list[i] != list[j]
    requires forall i :: 0 <= i < |list| ==> list[i] < |next|
    requires after == if list == [] then next else next[list[|list| - 1] := Some(e)]
    ensures Linked(after, list + [e], if list == [] then Some(e) else head)
  {
    forall i | 0 <= i < |list + [e]|
      ensures Link(after, list + [e], i)
    {
      if i < |list| {
        assert Link(next, list, i);
      }
    }
  }

  lemma {:induction false} DataTakeKeeps(s: System, t: nat, e: nat, u: System)
    requires Inv(s) && t < |s.threads| && s.threads[t] == DataRead(e)
    requires e < |s.next| == |s.place| == |s.buffer| && s.data != [] && s.data[0] == e && u == DataTake(s, t, e)
    ensures Inv(u)
  {
    OwnerIs(s, t);
    LocksKept(s, u, t);
    AllAtWithoutFirst(s.data, s.place, InData, With(t));
    AllAtElsewhere(s.free, s.place, InFree, e, With(t));
    HandsTake(s, u, t, e);
    FreeUnaffected(s, u, t);
    DataTakeList(s, t, e, u);
  }

  lemma {:induction false} DataTakeList(s: System, t: nat, e: nat, u: System)
    requires DataOk(s) && Counted(s) && t < |s.threads| && s.threads[t] == DataRead(e) && s.dataOwner == Some(t)
    requires e < |s.next| == |s.place| == |s.buffer| && s.data != [] && s.data[0] == e && u == DataTake(s, t, e)
    ensures DataOk(u) && Counted(u)
  {
    LinkedRest(s.next, s.data, s.dataStart);
    assert Contents(s.buffer, s.data) == [s.buffer[e]] + Contents(s.buffer, s.data[1..]);
  }

  lemma {:induction false} DataCutOffKeeps(s: System, t: nat, e: nat, u: System)
    requires Inv(s) && t < |s.threads| && s.threads[t] == PutLocked(e)
    requires e < |s.next| == |s.place| && s.place[e] == With(t) && u == DataCutOff(s, t, e)
    ensures Inv(u)
  {
    OwnerIs(s, t);
    LocksKept(s, u, t);
    MovePlaced(s, u, t);
    LinkedElsewhere(s.next, u.next, s.data, s.dataStart);
    FreeUnaffected(s, u, t);
  }

  lemma {:induction false} DataPutKeeps(s: System, t: nat, e: nat, u: System)
    requires Inv(s) && t < |s.threads| && s.threads[t] == PutCut(e)
    requires e < |s.next| == |s.place| == |s.buffer| && s.place[e] == With(t)
    requires s.dataEnd == Last(s.data) && (s.dataEnd.Some? ==> s.dataEnd.value < |s.next|) && u == DataPut(s, t, e)
    ensures Inv(u)
  {
    OwnerIs(s, t);
    LocksKept(s, u, t);
    DataPutPlaced(s, t, e, u);
    FreeUnaffected(s, u, t);
    DataPutList(s, t, e, u);
  }

  lemma {:induction false} DataPutPlaced(s: System, t: nat, e: nat, u: System)
    requires Placed(s) && t < |s.threads| && s.threads[t] == PutCut(e) && e < |s.place| && s.place[e] == With(t)
    requires s.dataEnd.Some? ==> s.dataEnd.value < |s.next|
    requires u == DataPut(s, t, e)
    ensures Placed(u)
  {
    AllAtWithOne(s.data, u.data, s.place, InData, e);
    AllAtElsewhere(s.free, s.place, InFree, e, InData);
    HandsGive(s, u, t, e, InData);
  }

  lemma {:induction false} DataPutList(s: System, t: nat, e: nat, u: System)
    requires Placed(s) && DataOk(s) && Counted(s)
    requires t < |s.threads| && s.threads[t] == PutCut(e) && s.dataOwner == Some(t)
    requires e < |s.place| && s.place[e] == With(t)
    requires s.dataEnd == Last(s.data) && (s.dataEnd.Some? ==> s.dataEnd.value < |s.next|) && u == DataPut(s, t, e)
    ensures DataOk(u) && Counted(u)
  {
    LinkedBehind(s.next, s.data, s.dataStart, e, u.next);
    assert u.data[..|u.data| - 1] == s.data;
    assert Contents(s.buffer, s.data + [e]) == Contents(s.buffer, s.data) + [s.buffer[e]];
  }

  ghost predicate DataMoved(s: System, t: nat, u: System)
    requires t < |s.threads|
  {
    && |u.threads| == |s.threads|
    && u == s.(threads := s.threads[t := u.threads[t]], dataOwner := u.dataOwner, dataEnd := u.dataEnd,
               dataPops := u.dataPops, dataPushes := u.dataPushes)
    && Hand(u.threads[t]) == Hand(s.threads[t]) && !AtFree(s.threads[t]) && !AtFree(u.threads[t])
  }

  lemma {:induction false} DataMoveIs(s: System, t: nat, u: System)
    requires t < |s.threads| && u == DataMove(s, t) && InDataCode(s.threads[t])
    ensures DataMoved(s, t, u)
  {
    assert s.threads == s.threads[t := s.threads[t]];
  }

  lemma {:induction false} DataMovedKeeps(s: System, t: nat, u: System)
    requires Placed(s) && Locks(s) && FreeOk(s) && t < |s.threads| && DataMoved(s, t, u)
    ensures Placed(u) && FreeOk(u)
  {
    OwnerIs(s, t);
    MovePlaced(s, u, t);
    assert PcOf(u, u.freeOwner) == PcOf(s, s.freeOwner);
    FreeUnaffected(s, u, t);
  }

  lemma {:induction false} DataMoveKeeps(s: System, t: nat, u: System)
    requires Inv(s) && t < |s.threads| && u == DataMove(s, t)
    requires InDataCode(s.threads[t])
    ensures Inv(u)
  {
    DataMoveIs(s, t, u);
    DataMovedKeeps(s, t, u);
    DataMoveLocks(s, t, u);
    DataMoveList(s, t, u);
    DataMoveCounts(s, t, u);
  }

  lemma {:induction false} DataMoveLocks(s: System, t: nat, u: System)
    requires Locks(s) && t < |s.threads| && u == DataMove(s, t)
    requires InDataCode(s.threads[t])
    ensures Locks(u)
  {
    OwnerIs(s, t);
    LocksKept(s, u, t);
  }

  lemma {:induction false} DataMoveList(s: System, t: nat, u: System)
    requires Locks(s) && Placed(s) && DataOk(s) && t < |s.threads| && u == DataMove(s, t)
    requires InDataCode(s.threads[t])
    requires s.threads[t].DataTaken? ==> s.threads[t].e !in s.data
    ensures DataOk(u)
  {
    OwnerIs(s, t);
  }

  lemma {:induction false} DataMoveCounts(s: System, t: nat, u: System)
    requires Locks(s) && Counted(s) && t < |s.threads| && u == DataMove(s, t)
    requires InDataCode(s.threads[t])
    ensures Counted(u)
  {
    OwnerIs(s, t);
  }

  lemma {:induction false} OuterMoveKeeps(s: System, t: nat, op: Op, u: System)
    requires Inv(s) && t < |s.threads| && (s.threads[t].Empty? || s.threads[t].Full?)
    requires s.threads[t].Full? ==> s.threads[t].e < |s.buffer| == |s.place| && s.place[s.threads[t].e] == With(t)
    requires u == OuterMove(s, t, op)
    ensures Inv(u)
  {
    OwnerIs(s, t);
    if u.buffer != s.buffer {
      FillKeeps(s, t, s.threads[t].e, op.contents, u);
    } else {
      OuterMoveIs(s, t, op, u);
      LockTaken(s, t, u);
    }
  }

  lemma {:induction false} FillKeeps(s: System, t: nat, e: nat, contents: string, u: System)
    requires Inv(s) && e < |s.buffer| == |s.place| && s.place[e] == With(t) && t < |s.threads|
    requires u == s.(buffer := s.buffer[e := contents])
    ensures Inv(u)
  {
    MovePlaced(s, u, t);
    CountsUnaffected(s, u, t);
  }

  /** Such a move takes a mutex that nobody has, or does nothing. */
  ghost predicate Locked(s: System, t: nat, u: System)
    requires t < |s.threads|
  {
    && |u.threads| == |s.threads|
    && u == s.(threads := s.threads[t := u.threads[t]], freeOwner := u.freeOwner, dataOwner := u.dataOwner)
    && Hand(u.threads[t]) == Hand(s.threads[t])
    && !MidFree(u.threads[t]) && !MidData(u.threads[t])
    && (AtFree(u.threads[t]) <==> u.freeOwner == Some(t)) && (AtData(u.threads[t]) <==> u.dataOwner == Some(t))
    && (u.freeOwner == s.freeOwner || (s.freeOwner.None? && u.freeOwner == Some(t)))
    && (u.dataOwner == s.dataOwner || (s.dataOwner.None? && u.dataOwner == Some(t)))
  }

  lemma {:induction false} OuterMoveIs(s: System, t: nat, op: Op, u: System)
    requires Locks(s) && t < |s.threads| && (s.threads[t].Empty? || s.threads[t].Full?)
    requires s.threads[t].Full? ==> s.threads[t].e < |s.buffer|
    requires u == OuterMove(s, t, op) && u.buffer == s.buffer
    ensures Locked(s, t, u)
  {
    OwnerIs(s, t);
    assert s.threads == s.threads[t := s.threads[t]];
  }

  lemma {:induction false} LockTaken(s: System, t: nat, u: System)
    requires Inv(s) && t < |s.threads| && (s.threads[t].Empty? || s.threads[t].Full?) && Locked(s, t, u)
    ensures Inv(u)
  {
    OwnerIs(s, t);
    LocksKept(s, u, t);
    MovePlaced(s, u, t);
    FreeUnaffected(s, u, t);
    DataUnaffected(s, u, t);
    CountsUnaffected(s, u, t);
  }

  lemma {:induction false} FreeEntryKeeps(s: System, t: nat, u: System)
    requires Inv(s) && Fits(s, t) && u == FreeStep(s, t)
    requires s.threads[t].FreeRead? || s.threads[t].GiveLocked? || s.threads[t].GiveLinked?
    ensures Inv(u)
  {
    match s.threads[t]
    case FreeRead(e) => FreeTakeKeeps(s, t, e, u);
    case GiveLocked(e) => FreeLinkKeeps(s, t, e, u);
    case GiveLinked(e) => FreeGiveKeeps(s, t, e, u);
  }

  lemma {:induction false} FreeStepKeeps(s: System, t: nat, u: System)
    requires Inv(s) && Fits(s, t) && InFreeCode(s.threads[t]) && u == FreeStep(s, t)
    ensures Inv(u)
  {
    if s.threads[t].FreeRead? || s.threads[t].GiveLocked? || s.threads[t].GiveLinked? {
      FreeEntryKeeps(s, t, u);
    } else {
      FreeMoveKeeps(s, t, u);
    }
  }

  lemma {:induction false} DataEntryKeeps(s: System, t: nat, u: System)
    requires Inv(s) && Fits(s, t) && u == DataStep(s, t)
    requires s.threads[t].DataRead? || s.threads[t].PutLocked? || s.threads[t].PutCut?
    ensures Inv(u)
  {
    match s.threads[t]
    case DataRead(e) => DataTakeKeeps(s, t, e, u);
    case PutLocked(e) => DataCutOffKeeps(s, t, e, u);
    case PutCut(e) => DataPutKeeps(s, t, e, u);
  }

  lemma {:induction false} DataStepKeeps(s: System, t: nat, u: System)
    requires Inv(s) && Fits(s, t) && InDataCode(s.threads[t]) && u == DataStep(s, t)
    ensures Inv(u)
  {
    if s.threads[t].DataRead? || s.threads[t].PutLocked? || s.threads[t].PutCut? {
      DataEntryKeeps(s, t, u);
    } else {
      DataMoveKeeps(s, t, u);
    }
  }

  /** Whatever statement of whatever thread comes next. */
  lemma {:induction false} StepKeeps(s: System, t: nat, op: Op)
    requires Inv(s) && Fits(s, t)
    ensures Inv(Step(s, t, op))
  {
    var pc := s.threads[t];
    if InFreeCode(pc) {
      FreeStepKeeps(s, t, Step(s, t, op));
    } else if InDataCode(pc) {
      DataStepKeeps(s, t, Step(s, t, op));
    } else {
      OuterMoveKeeps(s, t, op, Step(s, t, op));
    }
  }

  lemma {:induction false} ThreadsStay(s: System, t: nat, op: Op, u: System)
    requires Fits(s, t) && u == Step(s, t, op)
    ensures |u.threads| == |s.threads| && |u.place| == |s.place|
  {
    if InFreeCode(s.threads[t]) {
      FreeThreadsStay(s, t, u);
    } else if InDataCode(s.threads[t]) {
      DataThreadsStay(s, t, u);
    }
  }

  lemma {:induction false} FreeThreadsStay(s: System, t: nat, u: System)
    requires Fits(s, t) && u == FreeStep(s, t)
    ensures |u.threads| == |s.threads| && |u.place| == |s.place|
  {
  }

  lemma {:induction false} DataThreadsStay(s: System, t: nat, u: System)
    requires Fits(s, t) && u == DataStep(s, t)
    ensures |u.threads| == |s.threads| && |u.place| == |s.place|
  {
  }

  // ----- Operations -----

  /** Nobody's place, no list and no account changes. */
  predicate SameLists(s: System, u: System) {
    u.free == s.free && u.data == s.data && u.place == s.place && u.pushed == s.pushed && u.popped == s.popped
  }

  /** An entry goes to the hands of `t` from the front of a list, or from there to a list. */
  predicate TakesFree(s: System, u: System, t: nat, e: nat) {
    && e < |s.place| && s.free == [e] + u.free && u.place == s.place[e := With(t)]
    && u.data == s.data && u.pushed == s.pushed && u.popped == s.popped
  }

  predicate GivesFree(s: System, u: System, e: nat) {
    && e < |s.place| && u.free == [e] + s.free && u.place == s.place[e := InFree]
    && u.data == s.data && u.pushed == s.pushed && u.popped == s.popped
  }

  predicate TakesData(s: System, u: System, t: nat, e: nat) {
    && e < |s.place| == |s.buffer| && s.data == [e] + u.data && u.place == s.place[e := With(t)]
    && u.free == s.free && u.pushed == s.pushed && u.popped == s.popped + [s.buffer[e]]
  }

  predicate PutsData(s: System, u: System, e: nat) {
    && e < |s.place| == |s.buffer| && u.data == s.data + [e] && u.place == s.place[e := InData]
    && u.free == s.free && u.popped == s.popped && u.pushed == s.pushed + [s.buffer[e]]
  }

  lemma {:induction false} FreeStepIsOne(s: System, t: nat, u: System)
    requires Fits(s, t) && InFreeCode(s.threads[t]) && u == FreeStep(s, t)
    ensures var pc := s.threads[t];
            if pc.FreeRead? then TakesFree(s, u, t, pc.e)
            else if pc.GiveLinked? then GivesFree(s, u, pc.e)
            else SameLists(s, u)
  {
  }

  lemma {:induction false} DataStepIsOne(s: System, t: nat, u: System)
    requires Fits(s, t) && InDataCode(s.threads[t]) && u == DataStep(s, t)
    ensures var pc := s.threads[t];
            if pc.DataRead? then TakesData(s, u, t, pc.e)
            else if pc.PutCut? then PutsData(s, u, pc.e)
            else SameLists(s, u)
  {
  }

  /** Every statement is a whole operation, as other threads may see it, or none: entries move
   *  from the front of the free list and back to it, and from the front of the data list and
   *  to its end, one at a time. */
  lemma {:induction false} StepIsOneOperation(s: System, t: nat, op: Op, u: System)
    requires Fits(s, t) && u == Step(s, t, op)
    ensures var pc := s.threads[t];
            if pc.FreeRead? then TakesFree(s, u, t, pc.e)
            else if pc.GiveLinked? then GivesFree(s, u, pc.e)
            else if pc.DataRead? then TakesData(s, u, t, pc.e)
            else if pc.PutCut? then PutsData(s, u, pc.e)
            else SameLists(s, u)
  {
    if InFreeCode(s.threads[t]) {
      FreeStepIsOne(s, t, u);
    } else if InDataCode(s.threads[t]) {
      DataStepIsOne(s, t, u);
    }
  }

  /** Whoever has a mutex goes on: no operation waits for the other mutex while it has one. */
  lemma {:induction false} OwnerGoesOn(s: System, t: nat, op: Op)
    requires Locks(s) && Fits(s, t) && (s.freeOwner == Some(t) || s.dataOwner == Some(t))
    ensures Step(s, t, op).threads[t] != s.threads[t]
  {
    OwnerIs(s, t);
  }

  // ----- Runs -----

  /** queue_init: all entries are free; and threads with empty hands. */
  function Start(size: nat, threads: nat): System {
    System(seq(size, i => if i + 1 < size then Some(i + 1) else None), seq(size, _ => ""),
           if size == 0 then None else Some(0), None, None, 0, 0, 0, 0, None, None, seq(threads, _ => Empty),
           seq(size, i => i), [], seq(size, _ => InFree), [], [])
  }

  lemma {:induction false} StartIsInv(size: nat, threads: nat)
    ensures Inv(Start(size, threads))
  {
    var s := Start(size, threads);
    forall e | 0 <= e < size
      ensures e in s.free
    {
      assert s.free[e] == e;
    }
    assert forall i :: 0 <= i < size ==> Link(s.next, s.free, i);
  }

  /** Threads go on by a statement each, in any order; what is not a thread does nothing. */
  ghost function From(s: System, schedule: seq<(nat, Op)>): (u: System)
    requires Inv(s)
    ensures Inv(u) && |u.place| == |s.place| && |u.threads| == |s.threads|
    decreases |schedule|
  {
    if schedule == [] then s
    else
      var (t, op) := schedule[0];
      if t < |s.threads| then
        StepFits(s, t);
        StepKeeps(s, t, op);
        ThreadsStay(s, t, op, Step(s, t, op));
        From(Step(s, t, op), schedule[1..])
      else From(s, schedule[1..])
  }

  ghost function Run(size: nat, threads: nat, schedule: seq<(nat, Op)>): (s: System)
    ensures Inv(s) && |s.place| == size && |s.threads| == threads
  {
    StartIsInv(size, threads);
    From(Start(size, threads), schedule)
  }

  /** After every interleaving of statements each entry is in exactly one place: in the free
   *  list once, in the data list once, or in the hands of one thread. */
  lemma {:induction false} EveryEntryHasItsPlace(size: nat, threads: nat, schedule: seq<(nat, Op)>, e: nat)
    requires e < size
    ensures var s := Run(size, threads, schedule);
            && (e in s.free <==> s.place[e] == InFree) && (e in s.data <==> s.place[e] == InData)
            && (forall t :: 0 <= t < threads ==> (Hand(s.threads[t]) == Some(e) <==> s.place[e] == With(t)))
            && (s.place[e].With? ==> s.place[e].thread < threads)
            && (forall i, j :: 0 <= i < j < |s.free| ==> s.free[i] != s.free[j])
            && (forall i, j :: 0 <= i < j < |s.data| ==> s.data[i] != s.data[j])
  {
    var s := Run(size, threads, schedule);
    if e in s.free {
      var i :| 0 <= i < |s.free| && s.free[i] == e;
    }
    if e in s.data {
      var i :| 0 <= i < |s.data| && s.data[i] == e;
    }
  }

  /** What comes out of the data list is what went in, in order, and what is left is there. */
  lemma {:induction false} QueueIsInOrder(size: nat, threads: nat, schedule: seq<(nat, Op)>)
    ensures var s := Run(size, threads, schedule);
            && (forall i :: 0 <= i < |s.data| ==> s.data[i] < size)
            && s.pushed == s.popped + Contents(s.buffer, s.data)
            && s.popped <= s.pushed
  {
  }

  /** Whenever nobody has the mutex of a list, its pointers and counters describe it. */
  lemma {:induction false} UnlockedListsAreWhole(size: nat, threads: nat, schedule: seq<(nat, Op)>)
    ensures var s := Run(size, threads, schedule);
            && (s.freeOwner.None? ==>
                  Linked(s.next, s.free, s.freeQueue) && s.freePops + |s.free| == s.freePushes + size)
            && (s.dataOwner.None? ==>
                  && Linked(s.next, s.data, s.dataStart) && s.dataEnd == Last(s.data)
                  && |s.pushed| == s.dataPushes && |s.popped| == s.dataPops)
  {
  }
}
