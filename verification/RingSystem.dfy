/** Any number of writer threads and one consumer thread around the ring buffer, as
 *  interleaved steps. A writer holds the lock from its first step to its last, but for
 *  its waits. The consumer reads the size of the data two or three times without the lock
 *  (ringbuffer.c:80-101), sends from the buffer without the lock, and releases with it.
 */
module RingSystem {
  import opened Common
  import opened Rings

  datatype Writer =
    | Idle
    | Writing(bytes: string, done: nat, start: nat, waited: bool)
    | Blocked(bytes: string, done: nat, start: nat)
  {
    function Left(): string {
      if Idle? || done > |bytes| then "" else bytes[done..]
    }
  }

  /** The consumer is in the loop that waits for data; it has found some; it has compared the
   *  size, `first`, with what is left up to the border, and found it smaller; it has a chunk
   *  of some size; or it has just sent that much of it. */
  datatype Reader =
    | Looking | Found | Small(first: nat) | Got(size: nat, seen: string) | Sent(count: nat)

  /** `placed` are the bytes that the owner of the lock has put behind those pending and not
   *  counted yet. `log` says who wrote each byte; `asked` all that a writer was asked to
   *  write; `wire` what went to the network, `released` what was given back. */
  datatype System = System(
    ring: Ring, placed: nat, owner: Option<nat>, writers: map<nat, Writer>, reader: Reader,
    log: seq<(nat, char)>, asked: map<nat, string>, wire: string, released: string)

  /** A turn of a writer is Place and Count: the consumer may step between memcpy and the new
   *  size. Its own look is See, Compare and, if the size was small, TakeSize. `behind` is
   *  what lies behind the buffer, as far as Send reaches over it. */
  datatype Action =
    | Begin(id: nat, bytes: string) | Place(id: nat) | Count(id: nat)
    | Wait(id: nat) | Resume(id: nat) | End(id: nat)
    | See | Compare | TakeSize | Send(count: nat, behind: string) | ReleaseChunk

  function WriterOf(s: System, id: nat): Writer {
    if id in s.writers then s.writers[id] else Idle
  }

  function AskedOf(s: System, id: nat): string {
    if id in s.asked then s.asked[id] else ""
  }

  /** From the read position to the end of the buffer. */
  function Border(r: Ring): int {
    |r.buf| - r.read
  }

  /** `n` bytes from the read position on, as far as the buffer goes. */
  function Stretch(r: Ring, n: nat): string
    requires r.read <= |r.buf|
  {
    r.buf[r.read..if n <= Border(r) then r.read + n else |r.buf|]
  }

  /** Nothing is enabled once the read position is outside the buffer: writers would then
   *  write over what lies behind it. */
  predicate Enabled(s: System, a: Action) {
    s.ring.Valid() &&
    match a
    case Begin(id, _) => s.owner.None? && WriterOf(s, id).Idle?
    case Place(id) =>
      var w := WriterOf(s, id);
      s.owner == Some(id) && w.Writing? && w.done < |w.bytes| && s.placed == 0 && s.ring.Continuous() > 0
    case Count(id) => s.owner == Some(id) && WriterOf(s, id).Writing? && s.placed > 0
    case Wait(id) =>
      var w := WriterOf(s, id);
      s.owner == Some(id) && w.Writing? && w.done < |w.bytes| && s.placed == 0 && s.ring.Continuous() == 0
    case Resume(id) => s.owner.None? && WriterOf(s, id).Blocked?
    case End(id) =>
      var w := WriterOf(s, id);
      s.owner == Some(id) && w.Writing? && w.done >= |w.bytes|
    case See => s.reader.Looking? && s.ring.size > 0
    case Compare => s.reader.Found?
    case TakeSize => s.reader.Small?
    case Send(count, behind) =>
      s.reader.Got? && count <= s.reader.size &&
      |behind| == if count <= Border(s.ring) then 0 else count - Border(s.ring)
    case ReleaseChunk => s.owner.None? && s.reader.Sent?
  }

  function Tag(id: nat, bytes: string): (t: seq<(nat, char)>)
    ensures |t| == |bytes|
  {
    seq(|bytes|, i requires 0 <= i < |bytes| => (id, bytes[i]))
  }

  /** The consumer never holds more than there is, border or not. */
  predicate Bounded(s: System) {
    match s.reader
    case Looking => true
    case Found => s.ring.size > 0
    case Small(first) => 0 < first <= s.ring.size && first < Border(s.ring)
    case Got(size, _) => 0 < size <= s.ring.size
    case Sent(count) => count <= s.ring.size
  }

  /** The owner's next turn: what it has put behind the pending bytes is what it is to write. */
  predicate PlacedOk(s: System)
    requires s.ring.Valid()
  {
    s.placed > 0 ==>
      && s.owner.Some?
      && var w := WriterOf(s, s.owner.value);
         && w.Writing? && w.done < |w.bytes| && s.placed == s.ring.Copied(w.bytes[w.done..])
         && s.placed <= |w.bytes| - w.done && s.ring.write + s.placed <= |s.ring.buf|
         && s.ring.buf[s.ring.write..s.ring.write + s.placed] == w.bytes[w.done..][..s.placed]
  }

  /** One enabled step. */
  function Step(s: System, a: Action): System
    requires Enabled(s, a) && Bounded(s) && PlacedOk(s)
  {
    match a
    case Begin(id, bytes) =>
      s.(owner := Some(id),
         writers := s.writers[id := Writing(bytes, 0, |s.log|, false)],
         asked := s.asked[id := AskedOf(s, id) + bytes])
    case Place(id) =>
      var w := WriterOf(s, id);
      s.(ring := s.ring.Put(w.bytes[w.done..]), placed := s.ring.Copied(w.bytes[w.done..]))
    case Count(id) =>
      var w := WriterOf(s, id);
      s.(ring := s.ring.Count(s.placed), placed := 0,
         writers := s.writers[id := Writing(w.bytes, w.done + s.placed, w.start, w.waited)],
         log := s.log + Tag(id, w.bytes[w.done..][..s.placed]))
    case Wait(id) =>
      var w := WriterOf(s, id);
      s.(owner := None, writers := s.writers[id := Blocked(w.bytes, w.done, w.start)])
    case Resume(id) =>
      var w := WriterOf(s, id);
      s.(owner := Some(id), writers := s.writers[id := Writing(w.bytes, w.done, w.start, true)])
    case End(id) =>
      s.(owner := None, writers := s.writers[id := Idle])
    case See => s.(reader := Found)
    case Compare =>
      if Border(s.ring) > s.ring.size then s.(reader := Small(s.ring.size))
      else s.(reader := Got(Border(s.ring), Stretch(s.ring, Border(s.ring))))
    case TakeSize => s.(reader := Got(s.ring.size, Stretch(s.ring, s.ring.size)))
    case Send(count, behind) =>
      s.(reader := Sent(count), wire := s.wire + Stretch(s.ring, count) + behind)
    case ReleaseChunk =>
      var count, end := s.reader.count, s.ring.read + s.reader.count;
      s.(ring := Ring(s.ring.buf, if end == |s.ring.buf| then 0 else end, s.ring.write, s.ring.size - count),
         reader := Looking,
         released := s.released + s.ring.Pending()[..count])
  }

  function Text(log: seq<(nat, char)>): (t: string)
    ensures |t| == |log|
  {
    seq(|log|, i requires 0 <= i < |log| => log[i].1)
  }

  /** What one writer contributed, in order. */
  function Project(log: seq<(nat, char)>, id: nat): string {
    if log == [] then ""
    else
      var before := Project(log[..|log| - 1], id);
      if log[|log| - 1].0 == id then before + [log[|log| - 1].1] else before
  }

  // ----- The invariant -----

  ghost predicate WriterOk(s: System, id: nat) {
    var w := WriterOf(s, id);
    && (s.owner == Some(id) <==> w.Writing?)
    && (w.Idle? || w.done <= |w.bytes|)
    && Project(s.log, id) + w.Left() == AskedOf(s, id)
    && (w.Writing? && !w.waited ==> w.start <= |s.log| && s.log[w.start..] == Tag(id, w.bytes[..w.done]))
  }

  /** What holds after every interleaving, up to a release behind the end of the buffer. */
  ghost predicate Sound(s: System) {
    && (forall id :: WriterOk(s, id))
    && (s.ring.Valid() ==>
          Bounded(s) && PlacedOk(s) && Text(s.log) == s.released + s.ring.Pending())
  }

  /** What the consumer has is at the front of the pending bytes. */
  ghost predicate ReaderOk(s: System)
    requires s.ring.Valid()
  {
    match s.reader
    case Looking => s.wire == s.released
    case Found => s.wire == s.released
    case Small(_) => s.wire == s.released
    case Got(size, seen) =>
      && size <= s.ring.Chunk()
      && s.wire == s.released
      && s.ring.read + size <= |s.ring.buf|
      && s.ring.buf[s.ring.read..s.ring.read + size] == seen
    case Sent(count) =>
      && count <= s.ring.Chunk()
      && count <= s.ring.size
      && s.wire == s.released + s.ring.Pending()[..count]
  }

  ghost predicate Inv(s: System) {
    Sound(s) && s.ring.Valid() && ReaderOk(s)
  }

  // ----- Projections -----

  lemma {:induction false} ProjectTagged(log: seq<(nat, char)>, id: nat, bytes: string, who: nat)
    ensures Project(log + Tag(id, bytes), who) == Project(log, who) + (if who == id then bytes else "")
    decreases |bytes|
  {
    if bytes == "" {
      assert log + Tag(id, bytes) == log;
    } else {
      var most := bytes[..|bytes| - 1];
      ProjectTagged(log, id, most, who);
      TagLast(log, id, bytes, most);
    }
  }

  lemma {:induction false} TagLast(log: seq<(nat, char)>, id: nat, bytes: string, most: string)
    requires bytes != "" && most == bytes[..|bytes| - 1]
    ensures var all := log + Tag(id, bytes);
            all[..|all| - 1] == log + Tag(id, most) && all[|all| - 1] == (id, bytes[|bytes| - 1])
    ensures most + [bytes[|bytes| - 1]] == bytes
  {
  }

  lemma {:induction false} TextTagged(log: seq<(nat, char)>, id: nat, bytes: string)
    ensures Text(log + Tag(id, bytes)) == Text(log) + bytes
  {
  }

  // ----- Every step keeps it -----

  lemma {:induction false} OthersOk(s: System, t: System, id: nat)
    requires Sound(s) && t.owner in {s.owner, Some(id), None} && (s.owner.None? || s.owner == Some(id))
    requires forall who :: who != id ==> WriterOf(t, who) == WriterOf(s, who) && AskedOf(t, who) == AskedOf(s, who)
    requires forall who :: who != id ==> Project(t.log, who) == Project(s.log, who)
    ensures forall who :: who != id ==> WriterOk(t, who)
  {
    forall who | who != id
      ensures WriterOk(t, who)
    {
      assert WriterOk(s, who);
    }
  }

  /** A look that finds the right end of the chunk: the size was not small when it was
   *  compared, or it is still not beyond the border when it is taken. */
  predicate Steadily(s: System, a: Action) {
    a.TakeSize? ==> s.ring.size <= Border(s.ring)
  }

  lemma {:induction false} PlaceSound(s: System, id: nat)
    requires Sound(s) && Enabled(s, Place(id))
    ensures Sound(Step(s, Place(id)))
  {
    var t, w := Step(s, Place(id)), WriterOf(s, id);
    PutDisturbsNothing(s.ring, w.bytes[w.done..]);
    WritersUnaffected(s, t);
  }

  /** Counting is the second half of a whole turn. */
  lemma {:induction false} CountIsCopy(s: System, id: nat, left: string, t: System)
    requires Sound(s) && Enabled(s, Count(id)) && t == Step(s, Count(id))
    requires WriterOf(s, id).done <= |WriterOf(s, id).bytes| && left == WriterOf(s, id).bytes[WriterOf(s, id).done..]
    ensures s.placed == s.ring.Copied(left) && s.placed <= |left| && t.ring == s.ring.Copy(left) && t.ring.Valid()
    ensures t.ring.Pending() == s.ring.Pending() + left[..s.placed]
    ensures t.ring.read == s.ring.read && |t.ring.buf| == |s.ring.buf| && t.ring.size >= s.ring.size
    ensures forall i :: 0 <= i < s.ring.size ==> t.ring.buf[s.ring.At(i)] == s.ring.buf[s.ring.At(i)]
  {
    assert WriterOk(s, id);
    CountCompletes(s.ring, left);
    CopyAppends(s.ring, left);
  }

  lemma {:induction false} CountSoundLog(s: System, id: nat)
    requires Sound(s) && Enabled(s, Count(id))
    ensures var t := Step(s, Count(id));
            t.ring.Valid() && Bounded(t) && Text(t.log) == t.released + t.ring.Pending()
  {
    var w := WriterOf(s, id);
    var t, piece := Step(s, Count(id)), w.bytes[w.done..][..s.placed];
    assert WriterOk(s, id);
    CountIsCopy(s, id, w.bytes[w.done..], t);
    TextTagged(s.log, id, piece);
    assert s.released + s.ring.Pending() + piece == s.released + (s.ring.Pending() + piece);
  }

  lemma {:induction false} CountSoundWriters(s: System, id: nat)
    requires Sound(s) && Enabled(s, Count(id))
    ensures forall who :: WriterOk(Step(s, Count(id)), who)
  {
    var t := Step(s, Count(id));
    var w := WriterOf(s, id);
    assert WriterOk(s, id);
    var n := s.placed;
    forall who
      ensures Project(t.log, who) == Project(s.log, who) + (if who == id then w.bytes[w.done..][..n] else "")
    {
      ProjectTagged(s.log, id, w.bytes[w.done..][..n], who);
    }
    OthersOk(s, t, id);
    WriterAfterCount(s, id, n);
  }

  lemma {:induction false} WriterAfterCount(s: System, id: nat, n: nat)
    requires Sound(s) && Enabled(s, Count(id)) && n == s.placed
    requires var w := WriterOf(s, id);
             Project(Step(s, Count(id)).log, id) == Project(s.log, id) + w.bytes[w.done..][..n]
    ensures WriterOk(Step(s, Count(id)), id)
  {
    var w := WriterOf(s, id);
    assert WriterOk(s, id);
    SplitBytes(w.bytes, w.done, n);
    if !w.waited {
      TagInParts(id, w.bytes[..w.done], w.bytes[w.done..][..n]);
      TailOfLog(s.log, w.start, Tag(id, w.bytes[w.done..][..n]));
    }
    JoinLeft(Project(s.log, id), w.bytes[w.done..], n);
  }

  lemma {:induction false} SplitBytes(bytes: string, done: nat, n: nat)
    requires done + n <= |bytes|
    ensures bytes[done..][n..] == bytes[done + n..]
    ensures bytes[..done + n] == bytes[..done] + bytes[done..][..n]
  {
  }

  lemma {:induction false} TailOfLog(log: seq<(nat, char)>, start: nat, more: seq<(nat, char)>)
    requires start <= |log|
    ensures (log + more)[start..] == log[start..] + more
  {
  }

  lemma {:induction false} JoinLeft(a: string, left: string, n: nat)
    requires n <= |left|
    ensures a + left[..n] + left[n..] == a + left
  {
    assert left[..n] + left[n..] == left;
  }

  lemma {:induction false} TagInParts(id: nat, a: string, b: string)
    ensures Tag(id, a + b) == Tag(id, a) + Tag(id, b)
  {
  }

  /** Writers put and count bytes behind those pending: what the consumer has stays. */
  lemma {:induction false} ReaderSurvives(s: System, t: System)
    requires s.ring.Valid() && Bounded(s) && ReaderOk(s) && t.ring.Valid()
    requires t.reader == s.reader && t.wire == s.wire && t.released == s.released
    requires t.ring.read == s.ring.read && |t.ring.buf| == |s.ring.buf| && t.ring.size >= s.ring.size
    requires forall i :: 0 <= i < s.ring.size ==> t.ring.buf[s.ring.At(i)] == s.ring.buf[s.ring.At(i)]
    ensures ReaderOk(t)
  {
    var r, c := s.ring, t.ring;
    if s.reader.Got? {
      forall i | r.read <= i < r.read + s.reader.size
        ensures c.buf[i] == r.buf[i]
      {
        assert r.At(i - r.read) == i;
      }
      assert c.buf[c.read..c.read + s.reader.size] == r.buf[r.read..r.read + s.reader.size];
    } else if s.reader.Sent? {
      assert c.Pending()[..s.reader.count] == r.Pending()[..s.reader.count];
    }
  }

  lemma {:induction false} BeginSound(s: System, id: nat, bytes: string)
    requires Sound(s) && Enabled(s, Begin(id, bytes))
    ensures Sound(Step(s, Begin(id, bytes)))
  {
    assert WriterOk(s, id);
    OthersOk(s, Step(s, Begin(id, bytes)), id);
    assert Step(s, Begin(id, bytes)).log[|s.log|..] == [];
    assert WriterOk(Step(s, Begin(id, bytes)), id);
  }

  /** Waiting, waking up and ending change only who holds the lock. */
  lemma {:induction false} LockStepSound(s: System, a: Action)
    requires Sound(s) && Enabled(s, a) && (a.Wait? || a.Resume? || a.End?)
    ensures Sound(Step(s, a))
  {
    assert WriterOk(s, a.id);
    OthersOk(s, Step(s, a), a.id);
  }

  lemma {:induction false} WritersUnaffected(s: System, t: System)
    requires forall id :: WriterOk(s, id)
    requires t.writers == s.writers && t.owner == s.owner && t.log == s.log && t.asked == s.asked
    ensures forall id :: WriterOk(t, id)
  {
    forall id
      ensures WriterOk(t, id)
    {
      assert WriterOk(s, id);
    }
  }

  predicate IsLook(a: Action) {
    a.See? || a.Compare? || a.TakeSize? || a.Send?
  }

  lemma {:induction false} LookSound(s: System, a: Action)
    requires Sound(s) && Enabled(s, a) && IsLook(a)
    ensures Sound(Step(s, a))
  {
    WritersUnaffected(s, Step(s, a));
  }

  lemma {:induction false} ReleaseSound(s: System, t: System)
    requires Sound(s) && Enabled(s, ReleaseChunk) && t == Step(s, ReleaseChunk)
    ensures Sound(t) && (t.ring.Valid() <==> s.reader.count <= s.ring.Chunk())
    ensures t.ring.Valid() ==> t.ring == s.ring.Release(s.reader.count)
    ensures t.ring.Valid() ==> s.ring.Pending() == s.ring.Pending()[..s.reader.count] + t.ring.Pending()
  {
    var count := s.reader.count;
    WritersUnaffected(s, t);
    ReleaseIsInside(s.ring, count, t.ring);
    if count <= s.ring.Chunk() {
      ReleaseDrops(s.ring, count);
      assert s.released + s.ring.Pending() == s.released + s.ring.Pending()[..count] + s.ring.Pending()[count..];
    }
  }

  lemma {:induction false} ReleaseIsInside(r: Ring, n: nat, t: Ring)
    requires r.Valid() && n <= r.size
    requires t == Ring(r.buf, if r.read + n == |r.buf| then 0 else r.read + n, r.write, r.size - n)
    ensures t.Valid() <==> n <= r.Chunk()
    ensures t.Valid() ==> t == r.Release(n)
  {
  }

  /** Every step, steady or not, keeps the writers' side. */
  lemma {:induction false} StepSound(s: System, a: Action)
    requires Sound(s) && Enabled(s, a)
    ensures Sound(Step(s, a))
  {
    match a
    case Begin(id, bytes) => BeginSound(s, id, bytes);
    case Place(id) => PlaceSound(s, id);
    case Count(id) =>
      CountSoundLog(s, id);
      CountSoundWriters(s, id);
    case Wait(_) => LockStepSound(s, a);
    case Resume(_) => LockStepSound(s, a);
    case End(_) => LockStepSound(s, a);
    case ReleaseChunk => ReleaseSound(s, Step(s, a));
    case _ => LookSound(s, a);
  }

  lemma {:induction false} WriterStepKeeps(s: System, a: Action)
    requires Inv(s) && Enabled(s, a) && !IsLook(a) && !a.ReleaseChunk?
    ensures Step(s, a).ring.Valid() && ReaderOk(Step(s, a))
  {
    if a.Place? {
      var w := WriterOf(s, a.id);
      PutDisturbsNothing(s.ring, w.bytes[w.done..]);
      ReaderSurvives(s, Step(s, a));
    } else if a.Count? {
      var w := WriterOf(s, a.id);
      CountIsCopy(s, a.id, w.bytes[w.done..], Step(s, a));
      ReaderSurvives(s, Step(s, a));
    }
  }

  lemma {:induction false} LookKeepsIff(s: System, a: Action)
    requires Inv(s) && Enabled(s, a) && (a.See? || a.Compare? || a.TakeSize?)
    ensures ReaderOk(Step(s, a)) <==> Steadily(s, a)
  {
    ChunkIsOldest(s.ring);
  }

  lemma {:induction false} SendKeeps(s: System, a: Action)
    requires Inv(s) && Enabled(s, a) && a.Send?
    ensures ReaderOk(Step(s, a))
  {
    ChunkIsOldest(s.ring);
    assert s.ring.buf[s.ring.read..s.ring.read + a.count] ==
           s.ring.buf[s.ring.read..s.ring.read + s.ring.Chunk()][..a.count];
    assert a.behind == "" && s.wire + Stretch(s.ring, a.count) + "" == s.wire + Stretch(s.ring, a.count);
  }

  lemma {:induction false} ReleaseKeeps(s: System)
    requires Inv(s) && Enabled(s, ReleaseChunk)
    ensures Step(s, ReleaseChunk).ring.Valid() && ReaderOk(Step(s, ReleaseChunk))
  {
    ReleaseSound(s, Step(s, ReleaseChunk));
  }

  /** Every step keeps the invariant, but for a look that takes the size after writers have
   *  carried the pending bytes past the border: that one never does. */
  lemma {:induction false} StepKeeps(s: System, a: Action)
    requires Inv(s) && Enabled(s, a)
    ensures Inv(Step(s, a)) <==> Steadily(s, a)
  {
    StepSound(s, a);
    if a.Send? {
      SendKeeps(s, a);
    } else if IsLook(a) {
      LookKeepsIff(s, a);
    } else if a.ReleaseChunk? {
      ReleaseKeeps(s);
    } else {
      WriterStepKeeps(s, a);
    }
  }

  // ----- Runs -----

  function Start(buf: string): System
    requires buf != ""
  {
    System(Ring(buf, 0, 0, 0), 0, None, map[], Looking, [], map[], "", "")
  }

  /** Threads try their steps; a step that is not enabled waits. */
  ghost function Try(s: System, a: Action): (t: System)
    requires Sound(s)
    ensures Sound(t)
  {
    if Enabled(s, a) then
      StepSound(s, a);
      Step(s, a)
    else s
  }

  ghost function From(s: System, actions: seq<Action>): (t: System)
    requires Sound(s)
    ensures Sound(t)
    decreases |actions|
  {
    if actions == [] then s else From(Try(s, actions[0]), actions[1..])
  }

  /** A run: steps of any threads in any order. */
  ghost function Run(buf: string, actions: seq<Action>): (s: System)
    requires buf != ""
    ensures Sound(s)
  {
    From(Start(buf), actions)
  }

  /** Whenever the consumer takes the size of a chunk that was small, the pending bytes do not
   *  go past the border. */
  ghost predicate SteadyFrom(s: System, actions: seq<Action>)
    requires Sound(s)
    decreases |actions|
  {
    actions == [] ||
    ((Enabled(s, actions[0]) ==> Steadily(s, actions[0])) && SteadyFrom(Try(s, actions[0]), actions[1..]))
  }

  ghost predicate Steady(buf: string, actions: seq<Action>)
    requires buf != ""
  {
    SteadyFrom(Start(buf), actions)
  }

  lemma {:induction false} TryKeeps(s: System, a: Action)
    requires Inv(s)
    ensures Inv(Try(s, a)) <==> (Enabled(s, a) ==> Steadily(s, a))
  {
    if Enabled(s, a) {
      StepKeeps(s, a);
    }
  }

  lemma {:induction false} SteadyKeeps(s: System, actions: seq<Action>)
    requires Inv(s) && SteadyFrom(s, actions)
    ensures Inv(From(s, actions))
    decreases |actions|
  {
    if actions != [] {
      TryKeeps(s, actions[0]);
      SteadyKeeps(Try(s, actions[0]), actions[1..]);
    }
  }

  /** The read position is in the buffer, and so is the chunk that the consumer has. */
  predicate StaysInside(s: System) {
    s.ring.Valid() && (s.reader.Got? ==> s.reader.size <= Border(s.ring))
  }

  /** Exactly in steady runs every chunk that is looked up lies in the buffer. */
  lemma {:induction false} SteadyIff(s: System, actions: seq<Action>)
    requires Inv(s)
    ensures SteadyFrom(s, actions) <==> forall k :: 0 <= k <= |actions| ==> StaysInside(From(s, actions[..k]))
    decreases |actions|
  {
    assert actions[..0] == [];
    if actions != [] {
      var t, rest := Try(s, actions[0]), actions[1..];
      forall k | 0 < k <= |actions|
        ensures From(s, actions[..k]) == From(t, rest[..k - 1])
      {
        assert actions[..k][0] == actions[0] && actions[..k][1..] == rest[..k - 1];
      }
      TryKeeps(s, actions[0]);
      if Inv(t) {
        SteadyIff(t, rest);
        if forall k :: 0 <= k <= |actions| ==> StaysInside(From(s, actions[..k])) {
          forall k | 0 <= k <= |rest|
            ensures StaysInside(From(t, rest[..k]))
          {
            assert From(s, actions[..k + 1]) == From(t, rest[..k + 1 - 1]);
          }
        }
      } else {
        assert From(s, actions[..1]) == From(t, rest[..0]) && rest[..0] == [];
        assert !StaysInside(t);
      }
    }
  }

  // ----- One look -----

  predicate OnlyWriters(actions: seq<Action>) {
    forall k :: 0 <= k < |actions| ==> !IsLook(actions[k]) && !actions[k].ReleaseChunk?
  }

  lemma {:induction false} WritersGrow(s: System, actions: seq<Action>)
    requires Sound(s) && s.ring.Valid() && OnlyWriters(actions)
    ensures var t := From(s, actions);
            && t.ring.Valid() && t.reader == s.reader && t.ring.read == s.ring.read
            && |t.ring.buf| == |s.ring.buf| && t.ring.size >= s.ring.size
    decreases |actions|
  {
    if actions != [] {
      var a, t := actions[0], Try(s, actions[0]);
      if Enabled(s, a) && a.Place? {
        PutDisturbsNothing(s.ring, WriterOf(s, a.id).bytes[WriterOf(s, a.id).done..]);
      } else if Enabled(s, a) && a.Count? {
        CountIsCopy(s, a.id, WriterOf(s, a.id).bytes[WriterOf(s, a.id).done..], t);
      }
      WritersGrow(t, actions[1..]);
    }
  }

  /** Whatever writers do between the two reads of the size, the size that is returned is that
   *  of a chunk if and only if the data already reached the border at the first read, or does
   *  not go past it at the second. */
  lemma {:induction false} LookIsChunkIff(s: System, between: seq<Action>, t: System)
    requires Inv(s) && s.reader.Found? && OnlyWriters(between)
    requires t == From(Try(s, Compare), between)
    ensures t.ring.Valid()
    ensures var got := Try(t, TakeSize).reader;
            got.Got? &&
            (got.size == t.ring.Chunk() <==> s.ring.size >= Border(s.ring) || t.ring.size <= Border(s.ring))
  {
    StepKeeps(s, Compare);
    WritersGrow(Try(s, Compare), between);
  }

  // ----- The stream -----

  /** `text` is an order-preserving merge: each byte has a writer, and every writer's
   *  bytes appear in the order in which it was asked to write them. */
  ghost predicate MergeOf(text: string, log: seq<(nat, char)>, asked: map<nat, string>) {
    && text == Text(log)
    && forall id :: Project(log, id) <= (if id in asked then asked[id] else "")
  }

  lemma {:induction false} StartIsInv(buf: string)
    requires buf != ""
    ensures Inv(Start(buf))
  {
  }

  /** Bytes released followed by bytes pending are a merge of all bytes asked for so far,
   *  and what went to the network is a prefix of it. */
  lemma {:induction false} ByteStream(buf: string, actions: seq<Action>)
    requires buf != "" && Steady(buf, actions)
    ensures var s := Run(buf, actions);
            && s.ring.Valid()
            && MergeOf(s.released + s.ring.Pending(), s.log, s.asked)
            && s.wire <= s.released + s.ring.Pending()
  {
    StartIsInv(buf);
    SteadyKeeps(Start(buf), actions);
    var s := Run(buf, actions);
    forall id
      ensures Project(s.log, id) <= (if id in s.asked then s.asked[id] else "")
    {
      assert WriterOk(s, id);
    }
    assert s.reader.Sent? ==>
        s.ring.Pending() == s.ring.Pending()[..s.reader.count] + s.ring.Pending()[s.reader.count..];
  }

  /** When a writer is done, nothing of its bytes is missing from the log. */
  lemma {:induction false} NothingIsLost(buf: string, actions: seq<Action>, id: nat)
    requires buf != "" && WriterOf(Run(buf, actions), id).Idle?
    ensures Project(Run(buf, actions).log, id) == AskedOf(Run(buf, actions), id)
  {
    assert WriterOk(Run(buf, actions), id);
  }

  /** A write that ends without having waited is contiguous in the log. */
  lemma {:induction false} WriteWithoutWaitIsContiguous(buf: string, actions: seq<Action>, id: nat)
    requires buf != ""
    requires var s := Run(buf, actions);
             Enabled(s, End(id)) && !WriterOf(s, id).waited
    ensures var s := Run(buf, actions);
            var w := WriterOf(s, id);
            w.start <= |s.log| && s.log[w.start..] == Tag(id, w.bytes)
  {
    var s := Run(buf, actions);
    assert WriterOk(s, id);
    assert WriterOf(s, id).bytes[..WriterOf(s, id).done] == WriterOf(s, id).bytes;
  }

  /** Between taking a chunk and releasing it, its bytes are what they were: whatever the
   *  writers do meanwhile, the network gets the bytes that were seen. */
  lemma {:induction false} ChunkIsStable(buf: string, actions: seq<Action>, count: nat, behind: string)
    requires buf != "" && Steady(buf, actions) && Enabled(Run(buf, actions), Send(count, behind))
    ensures var s := Run(buf, actions);
            && s.reader.size <= |s.reader.seen|
            && Step(s, Send(count, behind)).wire == s.wire + s.reader.seen[..count]
  {
    StartIsInv(buf);
    SteadyKeeps(Start(buf), actions);
    SendsWhatWasSeen(Run(buf, actions), count, behind);
  }

  lemma {:induction false} SendsWhatWasSeen(s: System, count: nat, behind: string)
    requires Inv(s) && Enabled(s, Send(count, behind))
    ensures s.reader.size <= |s.reader.seen|
    ensures Step(s, Send(count, behind)).wire == s.wire + s.reader.seen[..count]
  {
    var r := s.ring;
    assert r.buf[r.read..r.read + count] == r.buf[r.read..r.read + s.reader.size][..count];
    assert behind == "";
  }

  // ----- Past the border -----

  /** A look that is not steady: what is sent of its chunk goes on behind the end of the
   *  buffer, and the release takes the read position there. */
  lemma {:induction false} UnsteadyLookLeaves(s: System, behind: string)
    requires Inv(s) && s.reader.Small? && s.ring.size > Border(s.ring) && |behind| == s.ring.size - Border(s.ring)
    ensures var got := Try(s, TakeSize);
            var sent := Try(got, Send(s.ring.size, behind));
            && got.reader.Got? && got.reader.size > got.ring.Chunk()
            && sent.wire == s.wire + s.ring.Pending()[..Border(s.ring)] + behind
            && (s.owner.None? ==> Try(sent, ReleaseChunk).ring.read > |s.ring.buf|)
  {
    ChunkIsOldest(s.ring);
    var got := Try(s, TakeSize);
    assert got.ring == s.ring && got.reader.size == s.ring.size;
  }

  lemma {:induction false} FromInParts(s: System, a: seq<Action>, b: seq<Action>)
    requires Sound(s)
    ensures From(s, a + b) == From(From(s, a), b)
    decreases |a|
  {
    if a == [] {
      assert a + b == b;
    } else {
      FromInParts(Try(s, a[0]), a[1..], b);
      assert (a + b)[0] == a[0] && (a + b)[1..] == a[1..] + b;
    }
  }

  /** One enabled step, in so many words. */
  predicate Leads(s: System, a: Action, t: System) {
    Enabled(s, a) && Bounded(s) && PlacedOk(s) && t == Step(s, a)
  }

  lemma {:induction false} LeadsOn(s: System, a: Action, t: System, rest: seq<Action>, actions: seq<Action>)
    requires Sound(s) && Leads(s, a, t) && actions == [a] + rest
    ensures Sound(t) && From(s, actions) == From(t, rest)
  {
    StepSound(s, a);
    assert actions[0] == a && actions[1..] == rest;
  }

  lemma {:induction false} TwoLead(
      s: System, a: Action, t: System, b: Action, u: System, rest: seq<Action>, actions: seq<Action>)
    requires Sound(s) && Leads(s, a, t) && Leads(t, b, u) && actions == [a, b] + rest
    ensures Sound(u) && From(s, actions) == From(u, rest)
  {
    assert actions == [a] + ([b] + rest);
    LeadsOn(s, a, t, [b] + rest, actions);
    LeadsOn(t, b, u, rest, [b] + rest);
  }

  lemma {:induction false} FourLead(
      s: System, a: Action, t: System, b: Action, u: System, c: Action, v: System, d: Action, w: System,
      actions: seq<Action>)
    requires Sound(s) && actions == [a, b, c, d]
    requires Leads(s, a, t) && Leads(t, b, u) && Leads(u, c, v) && Leads(v, d, w)
    ensures Sound(w) && From(s, actions) == w
  {
    assert actions == [a, b] + [c, d] && [c, d] == [c, d] + [];
    TwoLead(s, a, t, b, u, [c, d], actions);
    TwoLead(u, c, v, d, w, [], [c, d]);
  }

  /** One writer at the ring. */
  function Lone(
      ring: Ring, w: Writer, reader: Reader, log: seq<(nat, char)>, asked: string, wire: string,
      released: string): System {
    System(ring, 0, if w.Writing? then Some(0) else None, map[0 := w], reader, log, map[0 := asked], wire, released)
  }

  lemma {:induction false} FirstBegin(t: System)
    requires t == Lone(Ring("....", 0, 0, 0), Writing("abc", 0, 0, false), Looking, [], "abc", "", "")
    ensures Leads(Start("...."), Begin(0, "abc"), t)
  {
    var s := Start("....");
    assert s.writers[0 := Writing("abc", 0, 0, false)] == t.writers;
    assert s.asked[0 := "abc"] == t.asked && "" + "abc" == "abc";
  }

  /** A turn that puts all of a piece that fits. */
  lemma {:induction false} OneTurn(
      s: System, bytes: string, done: nat, start: nat, n: nat, buf: string, half: System, t: System)
    requires s.ring.Valid() && Bounded(s) && s.placed == 0 && s.owner == Some(0) && 0 in s.writers
    requires s.writers[0] == Writing(bytes, done, start, false) && 0 < n <= |bytes| - done
    requires n == s.ring.Copied(bytes[done..]) && s.ring.write + n <= |s.ring.buf|
    requires buf == Overwrite(s.ring.buf, s.ring.write, bytes[done..][..n])
    requires half == s.(ring := s.ring.(buf := buf), placed := n)
    requires t == s.(ring := half.ring.Count(n), writers := s.writers[0 := Writing(bytes, done + n, start, false)],
                     log := s.log + Tag(0, bytes[done..][..n]))
    ensures Leads(s, Place(0), half) && Leads(half, Count(0), t)
  {
    PutDisturbsNothing(s.ring, bytes[done..]);
  }

  lemma {:induction false} AfterFirstWrite(t: System, actions: seq<Action>)
    requires actions == [Begin(0, "abc"), Place(0), Count(0), End(0)]
    requires t == Lone(Ring("abc.", 0, 3, 3), Idle, Looking, [] + Tag(0, "abc"), "abc", "", "")
    ensures Sound(t) && From(Start("...."), actions) == t
  {
    var begun := Lone(Ring("....", 0, 0, 0), Writing("abc", 0, 0, false), Looking, [], "abc", "", "");
    var half := begun.(ring := Ring("abc.", 0, 0, 0), placed := 3);
    var counted := Lone(Ring("abc.", 0, 3, 3), Writing("abc", 3, 0, false), Looking, [] + Tag(0, "abc"), "abc", "", "");
    FirstBegin(begun);
    assert "abc"[0..] == "abc" && "abc"[..3] == "abc" && Overwrite("....", 0, "abc") == "abc.";
    assert begun.writers[0 := Writing("abc", 3, 0, false)] == counted.writers;
    OneTurn(begun, "abc", 0, 0, 3, "abc.", half, counted);
    assert Leads(counted, End(0), t) by {
      assert counted.writers[0 := Idle] == t.writers;
    }
    StartIsInv("....");
    FourLead(Start("...."), Begin(0, "abc"), begun, Place(0), half, Count(0), counted, End(0), t, actions);
  }

  lemma {:induction false} AfterFirstSend(s: System, t: System, actions: seq<Action>)
    requires actions == [See, Compare, TakeSize, Send(2, "")]
    requires s == Lone(Ring("abc.", 0, 3, 3), Idle, Looking, s.log, "abc", "", "")
    requires t == Lone(Ring("abc.", 0, 3, 3), Idle, Sent(2), s.log, "abc", "ab", "")
    requires Sound(s)
    ensures Sound(t) && From(s, actions) == t
  {
    var found, small, got := s.(reader := Found), s.(reader := Small(3)), s.(reader := Got(3, "abc"));
    assert "abc."[0..2] == "ab" && "abc."[0..3] == "abc" && "" + "ab" + "" == "ab";
    FourLead(s, See, found, Compare, small, TakeSize, got, Send(2, ""), t, actions);
  }

  lemma {:induction false} AfterSecondLook(s: System, t: System, actions: seq<Action>)
    requires actions == [ReleaseChunk, See, Compare, Begin(0, "xy")]
    requires s == Lone(Ring("abc.", 0, 3, 3), Idle, Sent(2), s.log, "abc", "ab", "") && |s.log| == 3
    requires t == Lone(Ring("abc.", 2, 3, 1), Writing("xy", 0, 3, false), Small(1), s.log, "abcxy", "ab", "ab")
    requires Sound(s)
    ensures Sound(t) && From(s, actions) == t
  {
    var released := Lone(Ring("abc.", 2, 3, 1), Idle, Looking, s.log, "abc", "ab", "ab");
    assert Leads(s, ReleaseChunk, released) by {
      assert s.ring.Pending()[..2] == "ab" && "" + "ab" == "ab";
    }
    var small := released.(reader := Small(1));
    assert Leads(small, Begin(0, "xy"), t) by {
      assert "abc" + "xy" == "abcxy" && small.asked[0 := "abcxy"] == t.asked;
      assert small.writers[0 := Writing("xy", 0, 3, false)] == t.writers;
    }
    FourLead(s, ReleaseChunk, released, See, released.(reader := Found), Compare, small, Begin(0, "xy"), t, actions);
  }

  lemma {:induction false} AfterSecondWrite(s: System, t: System, actions: seq<Action>)
    requires actions == [Place(0), Count(0), Place(0), Count(0)]
    requires s == Lone(Ring("abc.", 2, 3, 1), Writing("xy", 0, 3, false), Small(1), s.log, "abcxy", "ab", "ab")
    requires t == Lone(Ring("ybcx", 2, 1, 3), Writing("xy", 2, 3, false), Small(1),
                       s.log + Tag(0, "x") + Tag(0, "y"), "abcxy", "ab", "ab")
    requires Sound(s)
    ensures Sound(t) && From(s, actions) == t
  {
    var half := s.(ring := Ring("abcx", 2, 3, 1), placed := 1);
    var one := Lone(Ring("abcx", 2, 0, 2), Writing("xy", 1, 3, false), Small(1),
                    s.log + Tag(0, "x"), "abcxy", "ab", "ab");
    assert "xy"[0..] == "xy" && "xy"[..1] == "x" && Overwrite("abc.", 3, "x") == "abcx";
    assert s.writers[0 := Writing("xy", 1, 3, false)] == one.writers;
    OneTurn(s, "xy", 0, 3, 1, "abcx", half, one);
    var more := one.(ring := Ring("ybcx", 2, 0, 2), placed := 1);
    assert "xy"[1..] == "y" && "y"[..1] == "y" && Overwrite("abcx", 0, "y") == "ybcx";
    assert one.writers[0 := Writing("xy", 2, 3, false)] == t.writers;
    OneTurn(one, "xy", 1, 3, 1, "ybcx", more, t);
    FourLead(s, Place(0), half, Count(0), one, Place(0), more, Count(0), t, actions);
  }

  lemma {:induction false} AfterSecondSend(s: System, actions: seq<Action>)
    requires actions == [End(0), TakeSize, Send(3, "z"), ReleaseChunk]
    requires s == Lone(Ring("ybcx", 2, 1, 3), Writing("xy", 2, 3, false), Small(1), s.log, "abcxy", "ab", "ab")
    requires Sound(s)
    ensures var t := From(s, actions);
            t.ring == Ring("ybcx", 5, 1, 0) && t.wire == "abcxz" && t.asked == map[0 := "abcxy"]
  {
    var ended := Lone(s.ring, Idle, Small(1), s.log, "abcxy", "ab", "ab");
    assert Leads(s, End(0), ended) by {
      assert s.writers[0 := Idle] == ended.writers;
    }
    var taken := ended.(reader := Got(3, "cx"));
    assert "ybcx"[2..4] == "cx";
    var sent := ended.(reader := Sent(3), wire := "abcxz");
    assert Leads(taken, Send(3, "z"), sent) by {
      assert "ab" + "cx" + "z" == "abcxz";
    }
    var gone := sent.(ring := Ring("ybcx", 5, 1, 0), reader := Looking, released := "ab" + s.ring.Pending()[..3]);
    FourLead(s, End(0), ended, TakeSize, taken, Send(3, "z"), sent, ReleaseChunk, gone, actions);
  }

  lemma {:induction false} SecondLooked() returns (write: seq<Action>, send: seq<Action>, look: seq<Action>, s: System)
    ensures Sound(s) && From(From(From(Start("...."), write), send), look) == s
    ensures s == Lone(Ring("abc.", 2, 3, 1), Writing("xy", 0, 3, false), Small(1), s.log, "abcxy", "ab", "ab")
  {
    write, send := [Begin(0, "abc"), Place(0), Count(0), End(0)], [See, Compare, TakeSize, Send(2, "")];
    look := [ReleaseChunk, See, Compare, Begin(0, "xy")];
    var log := [] + Tag(0, "abc");
    var s1 := Lone(Ring("abc.", 0, 3, 3), Idle, Looking, log, "abc", "", "");
    AfterFirstWrite(s1, write);
    var s2 := Lone(Ring("abc.", 0, 3, 3), Idle, Sent(2), log, "abc", "ab", "");
    AfterFirstSend(s1, s2, send);
    s := Lone(Ring("abc.", 2, 3, 1), Writing("xy", 0, 3, false), Small(1), log, "abcxy", "ab", "ab");
    AfterSecondLook(s2, s, look);
  }

  lemma {:induction false} SecondSent(s: System) returns (write: seq<Action>, send: seq<Action>)
    requires s == Lone(Ring("abc.", 2, 3, 1), Writing("xy", 0, 3, false), Small(1), s.log, "abcxy", "ab", "ab")
    requires Sound(s)
    ensures var t := From(From(s, write), send);
            t.ring == Ring("ybcx", 5, 1, 0) && t.wire == "abcxz" && t.asked == map[0 := "abcxy"]
  {
    write, send := [Place(0), Count(0), Place(0), Count(0)], [End(0), TakeSize, Send(3, "z"), ReleaseChunk];
    var t := Lone(Ring("ybcx", 2, 1, 3), Writing("xy", 2, 3, false), Small(1),
                  s.log + Tag(0, "x") + Tag(0, "y"), "abcxy", "ab", "ab");
    AfterSecondWrite(s, t, write);
    AfterSecondSend(t, send);
  }

  /** A run past the border: of five bytes in a ring of four, the last one sent is what lies
   *  behind the buffer, and the read position is outside for good. The second write passes
   *  the border while the consumer is between comparing the size and returning it. */
  lemma {:induction false} RunPastTheBorder() returns (actions: seq<Action>)
    ensures var s := Run("....", actions);
            s.asked == map[0 := "abcxy"] && s.wire == "abcxz" && s.ring.read > |s.ring.buf|
    ensures !Steady("....", actions)
  {
    var write, send, look, s := SecondLooked();
    var more, last := SecondSent(s);
    FiveParts(Start("...."), write, send, look, more, last);
    actions := write + send + look + more + last;
    if Steady("....", actions) {
      ByteStream("....", actions);
    }
  }

  lemma {:induction false} FiveParts(
      s: System, a: seq<Action>, b: seq<Action>, c: seq<Action>, d: seq<Action>, e: seq<Action>)
    requires Sound(s)
    ensures From(s, a + b + c + d + e) == From(From(From(From(From(s, a), b), c), d), e)
  {
    FromInParts(s, a + b + c + d, e);
    FromInParts(s, a + b + c, d);
    FromInParts(s, a + b, c);
    FromInParts(s, a, b);
  }
}
