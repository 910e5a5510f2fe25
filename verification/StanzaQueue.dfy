/** The two-stage queue between the reader and the workers (xmcomp/src/queue.c).
 *
 *  Each operation is a method, from its lock to its unlock, and `Interleave` takes any
 *  sequence of whole operations. An operation that would wait gives up instead, and its
 *  thread may try again later. The two lists have a mutex each: QueueSystem lets operations
 *  on the one and on the other overlap.
 */
module StanzaQueues {

  class StanzaEntry {
    var buffer: string
    var next: StanzaEntry?

    constructor ()
      ensures buffer == "" && next == null
    {
      buffer, next := "", null;
    }
  }

  /** `next` links the list from `head` on, and ends it. */
  ghost predicate LinkedFrom(list: seq<StanzaEntry>, head: StanzaEntry?)
    reads list
  {
    && (forall i, j :: 0 <= i < j < |list| ==> list[i] != list[j])
    && (list == [] ==> head == null)
    && (list != [] ==> head == list[0] && list[|list| - 1].next == null)
    && forall i :: 0 <= i < |list| - 1 ==> list[i].next == list[i + 1]
  }

  /** The contents of the listed entries, in order. */
  ghost predicate Holding(list: seq<StanzaEntry>, contents: seq<string>)
    reads list
  {
    |list| == |contents| && forall i :: 0 <= i < |list| ==> list[i].buffer == contents[i]
  }

  ghost function SetOf(list: seq<StanzaEntry>): set<StanzaEntry> {
    set e | e in list
  }

  lemma {:induction false} SetOfDistinct(list: seq<StanzaEntry>)
    requires forall i, j :: 0 <= i < j < |list| ==> list[i] != list[j]
    ensures |SetOf(list)| == |list|
    decreases |list|
  {
    if list != [] {
      var most := list[..|list| - 1];
      SetOfDistinct(most);
      assert SetOf(list) == SetOf(most) + {list[|list| - 1]};
    }
  }

  lemma {:induction false} SubsetOfEqualSize<T>(a: set<T>, b: set<T>)
    requires a <= b && |a| == |b|
    ensures a == b
  {
    if a < b {
      assert |b - a| == |b| - |a|;
    }
  }

  class StanzaQueue {
    var dataStart: StanzaEntry?
    var dataEnd: StanzaEntry?
    var freeQueue: StanzaEntry?
    var dataPushes: nat
    var dataPops: nat
    var freePushes: nat
    var freePops: nat

    ghost var entries: set<StanzaEntry>
    ghost var free: seq<StanzaEntry>
    ghost var data: seq<StanzaEntry>
    /** The entries that threads have taken and not given back. */
    ghost var held: set<StanzaEntry>
    /** The contents pushed and popped so far, and those in between, in order. */
    ghost var pushed: seq<string>
    ghost var popped: seq<string>
    ghost var waiting: seq<string>

    ghost predicate Valid()
      reads this, entries
    {
      && Split()
      && LinkedFrom(free, freeQueue)
      && LinkedFrom(data, dataStart)
      && dataEnd == (if data == [] then null else data[|data| - 1])
      && Counted()
    }

    /** Counters match the lists, and the data list holds what was pushed and not popped. */
    ghost predicate Counted()
      reads this, data
    {
      && |pushed| == dataPushes && |popped| == dataPops
      && pushed == popped + waiting && Holding(data, waiting)
      && freePops + |free| == freePushes + |entries|
    }

    /** Free entries, data entries and held entries are different entries, and there are
     *  as many of them as there are entries. */
    ghost predicate Split()
      reads this
    {
      && (forall i :: 0 <= i < |free| ==> free[i] in entries && free[i] !in held)
      && (forall i :: 0 <= i < |data| ==> data[i] in entries && data[i] !in held)
      && (forall i, j :: 0 <= i < |free| && 0 <= j < |data| ==> free[i] != data[j])
      && held <= entries
      && |free| + |data| + |held| == |entries|
    }

    /** So every entry has exactly one place. */
    lemma {:induction false} EveryEntryHasItsPlace(e: StanzaEntry)
      requires Valid() && e in entries
      ensures e in held || e in free || e in data
      ensures !(e in held && e in free) && !(e in held && e in data) && !(e in free && e in data)
    {
      SetOfDistinct(free);
      SetOfDistinct(data);
      var places := SetOf(free) + SetOf(data) + held;
      assert SetOf(free) !! SetOf(data) && (SetOf(free) + SetOf(data)) !! held;
      assert |places| == |entries| && places <= entries;
      SubsetOfEqualSize(places, entries);
    }

    /** queue_init. */
    constructor (size: nat)
      ensures Valid() && fresh(entries) && |entries| == size
      ensures |free| == size && data == [] && held == {} && pushed == [] && popped == []
    {
      dataStart, dataEnd, freeQueue := null, null, null;
      dataPushes, dataPops, freePushes, freePops := 0, 0, 0, 0;
      entries, free, data, held := {}, [], [], {};
      pushed, popped, waiting := [], [], [];
      new;
      AddEntries(size);
    }

    method AddEntries(size: nat)
      requires Valid() && entries == {} && data == [] && held == {}
      modifies this`freeQueue, this`free, this`entries
      ensures Valid() && fresh(entries) && |entries| == |free| == size
    {
      var i := 0;
      while i < size
        invariant i <= size && |free| == |entries| == i && fresh(entries)
        invariant Valid()
      {
        AddEntry();
        i := i + 1;
      }
    }

    method AddEntry()
      requires Valid() && data == [] && held == {}
      modifies this`freeQueue, this`free, this`entries
      ensures Valid() && fresh(entries - old(entries)) && old(entries) <= entries
      ensures |free| == old(|free|) + 1 && |entries| == old(|entries|) + 1
    {
      var current := new StanzaEntry();
      current.next := freeQueue;
      freeQueue := current;
      free := [current] + free;
      entries := entries + {current};
    }

    /** queue_pop_free: null when there is no free entry to wait for no longer. */
    method PopFree() returns (block: StanzaEntry?)
      requires Valid()
      modifies this`freeQueue, this`freePops, this`free, this`held
      ensures Valid()
      ensures if old(free) == [] then
                block == null && free == [] && held == old(held) && freePops == old(freePops)
              else
                block == old(free)[0] && free == old(free)[1..] && held == old(held) + {block}
                && block !in old(held)
    {
      block := freeQueue;
      if block != null {
        freeQueue := block.next;
        freePops := freePops + 1;
        free, held := free[1..], held + {block};
      }
    }

    /** A thread writes to an entry it holds. */
    method Fill(stanza: StanzaEntry, contents: string)
      requires Valid() && stanza in held
      modifies stanza`buffer
      ensures Valid() && stanza.buffer == contents
    {
      stanza.buffer := contents;
    }

    /** queue_push_data. */
    method PushData(stanza: StanzaEntry)
      requires Valid() && stanza in held
      modifies this`dataStart, this`dataEnd, this`dataPushes, this`data, this`held, this`pushed, this`waiting
      modifies entries`next
      ensures Valid() && data == old(data) + [stanza] && held == old(held) - {stanza}
      ensures pushed == old(pushed) + [stanza.buffer]
    {
      LinkData(stanza);
      CountPush(stanza);
    }

    method CountPush(stanza: StanzaEntry)
      requires |pushed| == dataPushes && |popped| == dataPops && freePops + |free| == freePushes + |entries|
      requires pushed == popped + waiting && data != [] && data[|data| - 1] == stanza
      requires Holding(data[..|data| - 1], waiting)
      modifies this`dataPushes, this`pushed, this`waiting
      ensures Counted() && pushed == old(pushed) + [stanza.buffer]
    {
      dataPushes := dataPushes + 1;
      assert pushed + [stanza.buffer] == popped + (waiting + [stanza.buffer]);
      assert forall i :: 0 <= i < |data| - 1 ==> data[i] == data[..|data| - 1][i];
      pushed, waiting := pushed + [stanza.buffer], waiting + [stanza.buffer];
    }

    method LinkData(stanza: StanzaEntry)
      requires Valid() && stanza in held
      modifies this`dataStart, this`dataEnd, this`data, this`held, entries`next
      ensures data == old(data) + [stanza] && data[..|data| - 1] == old(data)
      ensures held == old(held) - {stanza} && Split()
      ensures LinkedFrom(free, freeQueue) && LinkedFrom(data, dataStart)
      ensures dataEnd == stanza
    {
      stanza.next := null;
      if dataEnd != null {
        dataEnd.next := stanza;
      } else {
        dataStart := stanza;
      }
      dataEnd := stanza;
      data, held := data + [stanza], held - {stanza};
      assert forall i :: 0 <= i < |free| ==> free[i].next == old(free[i].next);
    }

    /** queue_pop_data: null when there is no stanza yet. */
    method PopData() returns (block: StanzaEntry?)
      requires Valid()
      modifies this`dataStart, this`dataEnd, this`dataPops, this`data, this`held, this`popped, this`waiting
      ensures Valid()
      ensures if old(data) == [] then
                block == null && data == [] && held == old(held) && popped == old(popped)
              else
                block == old(data)[0] && data == old(data)[1..] && held == old(held) + {block}
                && block !in old(held) && popped == old(popped) + [block.buffer]
    {
      if dataStart == null {
        return null;
      }
      block := UnlinkData();
      CountPop(block);
    }

    method CountPop(block: StanzaEntry)
      requires |pushed| == dataPushes && |popped| == dataPops && freePops + |free| == freePushes + |entries|
      requires pushed == popped + waiting && Holding([block] + data, waiting)
      modifies this`dataPops, this`popped, this`waiting
      ensures Counted() && popped == old(popped) + [block.buffer]
    {
      dataPops := dataPops + 1;
      assert popped + waiting == popped + [block.buffer] + waiting[1..];
      assert forall i :: 0 <= i < |data| ==> data[i] == ([block] + data)[i + 1];
      popped, waiting := popped + [block.buffer], waiting[1..];
    }

    method UnlinkData() returns (block: StanzaEntry)
      requires Valid() && dataStart != null
      modifies this`dataStart, this`dataEnd, this`data, this`held
      ensures block == old(data)[0] && data == old(data)[1..]
      ensures held == old(held) + {block} && block !in old(held) && Split()
      ensures [block] + data == old(data)
      ensures LinkedFrom(free, freeQueue)
      ensures LinkedFrom(data, dataStart) && dataEnd == (if data == [] then null else data[|data| - 1])
    {
      block := dataStart;
      dataStart := block.next;
      if dataEnd == block {
        dataEnd := null;
      }
      data, held := data[1..], held + {block};
    }

    /** queue_push_free. */
    method PushFree(stanza: StanzaEntry)
      requires Valid() && stanza in held
      modifies this`freeQueue, this`freePushes, this`free, this`held, stanza`next
      ensures Valid() && free == [stanza] + old(free) && held == old(held) - {stanza}
    {
      stanza.next := freeQueue;
      freeQueue := stanza;
      freePushes := freePushes + 1;
      free, held := [stanza] + free, held - {stanza};
    }
  }

  // ----- Threads -----

  /** What a thread tries next. The reader fills an entry before it pushes it; nobody
   *  writes to an entry it does not hold. */
  datatype Try = TakeFree | PutData(contents: string) | TakeData | PutFree

  /** A thread with empty hands takes an entry, if there is one. */
  method Take(queue: StanzaQueue, filled: bool) returns (after: StanzaEntry?)
    requires queue.Valid()
    modifies queue
    ensures queue.Valid() && queue.entries == old(queue.entries)
    ensures queue.held == old(queue.held) + (if after == null then {} else {after})
    ensures after != null ==> after !in old(queue.held)
    ensures queue.pushed == old(queue.pushed) && old(queue.popped) <= queue.popped
  {
    if filled {
      after := queue.PopData();
    } else {
      after := queue.PopFree();
    }
  }

  /** A thread gives its entry back, or fills it and passes it on. */
  method Put(queue: StanzaQueue, hand: StanzaEntry, what: Try)
    requires queue.Valid() && hand in queue.held
    modifies queue, queue.entries
    ensures queue.Valid() && queue.entries == old(queue.entries)
    ensures queue.held == old(queue.held) - {hand}
    ensures queue.popped == old(queue.popped)
    ensures queue.pushed == old(queue.pushed) + (if what.PutData? then [what.contents] else [])
  {
    if what.PutData? {
      queue.Fill(hand, what.contents);
      queue.PushData(hand);
    } else {
      queue.PushFree(hand);
    }
  }

  ghost function HeldAfter(held: set<StanzaEntry>, hand: StanzaEntry?, after: StanzaEntry?): set<StanzaEntry>
    requires hand != null ==> hand in held
  {
    if hand == after then held
    else if hand == null then held + {after}
    else if after == null then held - {hand}
    else held - {hand} + {after}
  }

  /** One thread's turn at the queue; `hand` is the entry it holds, if any. */
  method Turn(queue: StanzaQueue, hand: StanzaEntry?, what: Try) returns (after: StanzaEntry?)
    requires queue.Valid() && (hand != null ==> hand in queue.held)
    modifies queue, queue.entries
    ensures queue.Valid() && queue.entries == old(queue.entries)
    ensures queue.held == HeldAfter(old(queue.held), hand, after)
    ensures after != null && after != hand ==> after !in old(queue.held)
    ensures old(queue.pushed) <= queue.pushed && old(queue.popped) <= queue.popped
  {
    if hand == null {
      if what.TakeFree? || what.TakeData? {
        after := Take(queue, what.TakeData?);
        return;
      }
    } else if what.PutFree? || what.PutData? {
      Put(queue, hand, what);
      return null;
    }
    return hand;
  }

  /** Any number of threads in any order: whatever they try, each entry stays in exactly
   *  one place or hand, and the pops are a prefix of the pushes. */
  method Interleave(size: nat, threads: nat, schedule: seq<(nat, Try)>) returns (queue: StanzaQueue)
    requires forall k :: 0 <= k < |schedule| ==> schedule[k].0 < threads
    ensures fresh(queue) && queue.Valid()
    ensures |queue.entries| == size
    ensures queue.popped <= queue.pushed
    ensures |queue.pushed| - |queue.popped| == |queue.data|
    ensures |queue.held| <= threads
  {
    queue := new StanzaQueue(size);
    var hands: seq<StanzaEntry?> := seq(threads, _ => null);
    var k := 0;
    while k < |schedule|
      invariant k <= |schedule| && queue.Valid() && fresh(queue) && fresh(queue.entries)
      invariant |queue.entries| == size && |hands| == threads
      invariant Hands(hands, queue.held)
    {
      var i, what := schedule[k].0, schedule[k].1;
      ghost var held, before := queue.held, hands;
      var hand := Turn(queue, hands[i], what);
      hands := hands[i := hand];
      HandsAfterTurn(before, held, i, hand, queue.held);
      k := k + 1;
    }
    FewHands(hands, queue.held);
  }

  /** The hands hold exactly the held entries, each in one hand. */
  ghost predicate Hands(hands: seq<StanzaEntry?>, held: set<StanzaEntry>) {
    && (forall i :: 0 <= i < |hands| && hands[i] != null ==> hands[i] in held)
    && (forall i, j :: 0 <= i < j < |hands| && hands[i] != null ==> hands[i] != hands[j])
    && forall e :: e in held ==> exists i :: 0 <= i < |hands| && hands[i] == e
  }

  lemma {:induction false} HandsAfterTurn(
      hands: seq<StanzaEntry?>, held: set<StanzaEntry>, i: nat, hand: StanzaEntry?, after: set<StanzaEntry>)
    requires Hands(hands, held) && i < |hands|
    requires after == HeldAfter(held, hands[i], hand)
    requires hand != null && hand != hands[i] ==> hand !in held
    ensures Hands(hands[i := hand], after)
  {
    var now := hands[i := hand];
    forall e | e in after
      ensures exists j :: 0 <= j < |now| && now[j] == e
    {
      if e == hand {
        assert now[i] == e;
      } else {
        var j :| 0 <= j < |hands| && hands[j] == e;
        assert now[j] == e;
      }
    }
  }

  lemma {:induction false} FewHands(hands: seq<StanzaEntry?>, held: set<StanzaEntry>)
    requires Hands(hands, held)
    ensures |held| <= |hands|
    decreases |hands|
  {
    if hands == [] {
      assert held == {};
    } else {
      var most, last := hands[..|hands| - 1], hands[|hands| - 1];
      var rest := if last == null then held else held - {last};
      forall e | e in rest
        ensures exists i :: 0 <= i < |most| && most[i] == e
      {
        var i :| 0 <= i < |hands| && hands[i] == e;
        assert most[i] == e;
      }
      FewHands(most, rest);
    }
  }
}
