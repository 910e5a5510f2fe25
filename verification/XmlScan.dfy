/** The stanza scanner (xmcomp/src/xmlfsm.c). */

/** The scanner as a machine that is fed one character at a time. */
module Scanner {
  import opened Common

  /** Whether a slash was seen in the current tag, and whether it was the last character:
   *  that is all the program ever asks of `tag_closing_pos`. */
  datatype Slash = NoSlash | JustNow | Earlier

  datatype Scan = Scan(level: int, quote: Option<char>, tag: bool, slash: Slash)

  const START := Scan(0, None, false, NoSlash)

  datatype Fed = Done | More(scan: Scan)

  function Older(s: Slash): Slash {
    if s == JustNow then Earlier else s
  }

  function Feed(s: Scan, c: char): Fed {
    var older := s.(slash := Older(s.slash));
    if s.quote.Some? then
      // Whatever is quoted does not count.
      More(if c == s.quote.value then older.(quote := None) else older)
    else if c == '<' then More(older.(level := s.level + 1, tag := true))
    else if c == '/' then More(if s.tag then s.(slash := JustNow) else older)
    else if c == '>' then
      if s.tag && s.slash != NoSlash then
        var level := if s.slash == JustNow then s.level - 1 else s.level - 2;
        if level == 0 then Done else More(Scan(level, None, false, NoSlash))
      else More(older.(tag := false))
    else if c == '"' || c == '\'' then More(older.(quote := Some(c)))
    else More(older)
  }

  /** After a text: stopped after so many characters, or still running. */
  datatype Outcome = Stopped(length: nat) | Running(scan: Scan)

  /** The length of the node that was found, if one was. */
  function Found(o: Outcome): Option<nat> {
    if o.Stopped? then Some(o.length) else None
  }

  function Later(o: Outcome, n: nat): Outcome {
    match o
    case Stopped(length) => Stopped(length + n)
    case Running(_) => o
  }

  function Run(s: Scan, text: string): (o: Outcome)
    ensures o.Stopped? ==> 0 < o.length <= |text|
    decreases |text|
  {
    if text == "" then Running(s)
    else
      match Feed(s, text[0])
      case Done => Stopped(1)
      case More(t) => Later(Run(t, text[1..]), 1)
  }

  /** Running a text is running its first part, then the second if the first did not stop. */
  lemma {:induction false} RunInParts(s: Scan, a: string, b: string)
    ensures Run(s, a + b) ==
            match Run(s, a)
            case Stopped(length) => Stopped(length)
            case Running(t) => Later(Run(t, b), |a|)
    decreases |a|
  {
    if a == "" {
      assert a + b == b;
    } else {
      assert (a + b)[0] == a[0] && (a + b)[1..] == a[1..] + b;
      match Feed(s, a[0])
      case Done =>
      case More(t) => RunInParts(t, a[1..], b);
    }
  }

  /** A text stops the machine at the same place whatever follows, and no shorter prefix does. */
  lemma {:induction false} StopIsStable(s: Scan, text: string, k: nat)
    requires k <= |text|
    ensures Run(s, text) == Stopped(k) ==> Run(s, text[..k]) == Stopped(k)
    ensures Run(s, text).Stopped? && k < Run(s, text).length ==> Run(s, text[..k]).Running?
    ensures Run(s, text).Running? ==> Run(s, text[..k]).Running?
  {
    assert text == text[..k] + text[k..];
    RunInParts(s, text[..k], text[k..]);
  }

  // ----- Two segments of a ring -----

  /** The program compares addresses, so across the border a slash is never adjacent. */
  function RunRing(s: Scan, high: string, low: string): Outcome {
    match Run(s, high)
    case Stopped(length) => Stopped(length)
    case Running(t) => Later(Run(t.(slash := Older(t.slash)), low), |high|)
  }

  /** The border falls between the slash and the bracket of an empty tag. */
  predicate SplitsEmptyTag(s: Scan, high: string, low: string) {
    && Run(s, high).Running?
    && Run(s, high).scan.slash == JustNow
    && low != "" && low[0] == '>'
  }

  /** Machines one level apart never stop at the same place. */
  lemma {:induction false} LevelsApart(s: Scan, text: string)
    ensures var o, p := Run(s, text), Run(s.(level := s.level - 1), text);
            o.Stopped? && p.Stopped? ==> o != p
    decreases |text|
  {
    if text != "" {
      var c := text[0];
      match Feed(s, c)
      case Done =>
      case More(t) =>
        if Feed(s.(level := s.level - 1), c).More? {
          assert Feed(s.(level := s.level - 1), c).scan == t.(level := t.level - 1);
          LevelsApart(t, text[1..]);
        }
    }
  }

  /** What follows a slash may age it, unless it is the closing bracket. */
  lemma {:induction false} AgeDoesNotMatter(s: Scan, c: char)
    requires s.slash == JustNow && (c != '>' || s.quote.Some? || !s.tag)
    ensures Feed(s, c) == Feed(s.(slash := Earlier), c)
  {
  }

  /** A slash that was just seen was seen in a tag, outside quotes. */
  lemma {:induction false} JustNowInTag(s: Scan, text: string)
    requires s.slash == JustNow ==> s.tag && s.quote.None?
    ensures Run(s, text).Running? && Run(s, text).scan.slash == JustNow ==>
              Run(s, text).scan.tag && Run(s, text).scan.quote.None?
    decreases |text|
  {
    if text != "" && Feed(s, text[0]).More? {
      JustNowInTag(Feed(s, text[0]).scan, text[1..]);
    }
  }

  /** Scanning the two segments of a ring finds the same node as scanning the unwrapped
   *  text if and only if the border does not split an empty tag, or neither finds any. */
  lemma {:induction false} RingScanIsLinear(high: string, low: string)
    requires low != ""
    ensures Found(RunRing(START, high, low)) == Found(Run(START, high + low)) <==>
            || !SplitsEmptyTag(START, high, low)
            || (RunRing(START, high, low).Running? && Run(START, high + low).Running?)
  {
    RunInParts(START, high, low);
    JustNowInTag(START, high);
    match Run(START, high)
    case Stopped(_) =>
    case Running(t) =>
      if t.slash == JustNow {
        if low[0] == '>' {
          var after := Scan(t.level - 1, None, false, NoSlash);
          LevelsApart(after, low[1..]);
        } else {
          AgeDoesNotMatter(t, low[0]);
        }
      }
  }
}

/** The scanner as the program has it: a cursor in a buffer. */
module XmlFsm {
  import opened Common
  import opened Scanner

  /** Positions in memory. In ring mode the data wraps when `data` is beyond `end`. */
  class BufferPtr {
    var data: nat
    var end: nat

    constructor (data: nat, end: nat)
      ensures this.data == data && this.end == end
    {
      this.data, this.end := data, end;
    }
  }

  /** The position of `c` in mem[from..to], or `to`. */
  method MemChr(mem: string, from: nat, to: nat, c: char) returns (at: nat)
    requires from <= to <= |mem|
    ensures from <= at <= to
    ensures forall i :: from <= i < at ==> mem[i] != c
    ensures at < to ==> mem[at] == c
  {
    at := from;
    while at < to && mem[at] != c
      invariant from <= at <= to
      invariant forall i :: from <= i < at ==> mem[i] != c
    {
      at := at + 1;
    }
  }

  /** The local variables of the scanning loop; `closing` is tag_closing_pos. */
  datatype Locals = Locals(level: int, quote: Option<char>, tag: bool, closing: Option<nat>)

  /** The machine that the locals stand for when the next character is at `pos`. */
  function Machine(l: Locals, pos: nat): Scan {
    Scan(l.level, l.quote, l.tag,
         if l.closing.None? then NoSlash else if pos - l.closing.value == 1 then JustNow else Earlier)
  }

  /** Characters other than the open quote only age the slash. */
  lemma {:induction false} RunQuoted(s: Scan, text: string)
    requires s.quote.Some? && forall i :: 0 <= i < |text| ==> text[i] != s.quote.value
    ensures Run(s, text) == Running(if text == "" then s else s.(slash := Older(s.slash)))
    decreases |text|
  {
    if text != "" {
      RunQuoted(s.(slash := Older(s.slash)), text[1..]);
    }
  }

  /** A quoted stretch that is closed by its quote. */
  lemma {:induction false} QuoteIsClosed(mem: string, l: Locals, pos: nat, at: nat, to: nat)
    requires pos <= at < to <= |mem| && l.quote.Some?
    requires l.closing.Some? ==> l.closing.value < pos || l.closing.value >= to
    requires (forall i :: pos <= i < at ==> mem[i] != l.quote.value) && mem[at] == l.quote.value
    ensures Run(Machine(l, pos), mem[pos..to]) ==
            Later(Run(Machine(l.(quote := None), at + 1), mem[at + 1..to]), at + 1 - pos)
  {
    RunQuoted(Machine(l, pos), mem[pos..at]);
    assert mem[pos..to] == mem[pos..at] + mem[at..to];
    RunInParts(Machine(l, pos), mem[pos..at], mem[at..to]);
    assert mem[at..to][0] == mem[at] && mem[at..to][1..] == mem[at + 1..to];
  }

  /** A quoted stretch that is cut off by the end of the segment. */
  lemma {:induction false} QuoteIsCutOff(mem: string, l: Locals, pos: nat, to: nat)
    requires pos < to <= |mem| && l.quote.Some?
    requires l.closing.Some? ==> l.closing.value < pos || l.closing.value >= to
    requires forall i :: pos <= i < to ==> mem[i] != l.quote.value
    ensures Run(Machine(l, pos), mem[pos..to]) == Running(Machine(l, to))
  {
    RunQuoted(Machine(l, pos), mem[pos..to]);
  }

  /** One character outside quotes. */
  method ScanCharacter(c: char, pos: nat, start: Locals) returns (found: bool, l: Locals)
    requires start.quote.None? && start.closing != Some(pos)
    ensures Feed(Machine(start, pos), c) == if found then Done else More(Machine(l, pos + 1))
    ensures !found && l.closing.Some? ==> l.closing == start.closing || l.closing == Some(pos)
  {
    l := start;
    found := false;
    match c {
      case '<' =>
        l := l.(level := l.level + 1, tag := true);
      case '/' =>
        if l.tag {
          l := l.(closing := Some(pos));
        }
      case '>' =>
        if l.tag && l.closing.Some? {
          l := l.(level := l.level - 1);
          if pos - l.closing.value != 1 {
            // The slash belongs to a closing tag, which ends what its opening tag began.
            l := l.(level := l.level - 1);
          }
          if l.level == 0 {
            return true, l;
          }
          l := l.(closing := None);
        }
        l := l.(tag := false);
      case '"' =>
        l := l.(quote := Some(c));
      case '\'' =>
        l := l.(quote := Some(c));
      case _ =>
    }
  }

  /** One turn of the scanning loop. */
  method ScanTurn(mem: string, from: nat, to: nat, start: Locals)
      returns (found: bool, pos: nat, l: Locals)
    requires from < to <= |mem|
    requires start.closing.Some? ==> start.closing.value < from || start.closing.value >= to
    ensures from < pos <= to
    ensures found ==> Run(Machine(start, from), mem[from..to]) == Stopped(pos - from)
    ensures !found ==>
              Run(Machine(start, from), mem[from..to]) == Later(Run(Machine(l, pos), mem[pos..to]), pos - from)
    ensures !found && l.closing.Some? ==> l.closing == start.closing || from <= l.closing.value < pos
  {
    if start.quote.Some? {
      // Brackets in a quoted value mean nothing.
      var at := MemChr(mem, from, to, start.quote.value);
      if at < to {
        QuoteIsClosed(mem, start, from, at, to);
        return false, at + 1, start.(quote := None);
      } else {
        QuoteIsCutOff(mem, start, from, to);
        return false, to, start;
      }
    } else {
      assert mem[from..to][0] == mem[from] && mem[from..to][1..] == mem[from + 1..to];
      found, l := ScanCharacter(mem[from], from, start);
      pos := from + 1;
    }
  }

  /** Scan one piece of memory. `found` says that a node ends just before `pos`. */
  method ScanSegment(mem: string, from: nat, to: nat, start: Locals)
      returns (found: bool, pos: nat, l: Locals)
    requires from <= to <= |mem|
    requires start.closing.Some? ==> start.closing.value < from || start.closing.value >= to
    ensures found ==> from < pos <= to && Run(Machine(start, from), mem[from..to]) == Stopped(pos - from)
    ensures !found ==> pos == to && Run(Machine(start, from), mem[from..to]) == Running(Machine(l, to))
    ensures !found && l.closing.Some? ==> l.closing == start.closing || from <= l.closing.value < to
  {
    found, pos, l := false, from, start;
    while pos < to
      invariant from <= pos <= to && !found
      invariant l.closing.Some? ==> l.closing == start.closing || from <= l.closing.value < pos
      invariant Run(Machine(start, from), mem[from..to]) == Later(Run(Machine(l, pos), mem[pos..to]), pos - from)
    {
      found, pos, l := ScanTurn(mem, pos, to, l);
      if found {
        return;
      }
    }
  }

  const NO_TAG := Locals(0, None, false, None)

  /** xmlfsm_skip_node without a ring: the cursor moves just past the first whole node,
   *  or stays when there is none. */
  method SkipNode(mem: string, buffer: BufferPtr) returns (ok: bool)
    requires buffer.data <= buffer.end <= |mem|
    modifies buffer`data
    ensures var found := Found(Run(START, mem[old(buffer.data)..buffer.end]));
            && ok == found.Some?
            && buffer.data == old(buffer.data) + (if ok then found.value else 0)
  {
    var found, pos, _ := ScanSegment(mem, buffer.data, buffer.end, NO_TAG);
    if found {
      buffer.data := pos;
    }
    return found;
  }

  /** xmlfsm_skip_node on a ring whose data wraps: it starts at `data`, goes on to the end
   *  `realEnd` of the ring, and from its start `realData` to `end`. */
  method SkipNodeInRing(mem: string, buffer: BufferPtr, realData: nat, realEnd: nat) returns (ok: bool)
    requires realData < buffer.end < buffer.data <= realEnd <= |mem|
    modifies buffer`data
    ensures var high := mem[old(buffer.data)..realEnd];
            var low := mem[realData..buffer.end];
            var found := Found(RunRing(START, high, low));
            && ok == found.Some?
            && buffer.data ==
               if !ok then old(buffer.data)
               else if found.value <= |high| then old(buffer.data) + found.value
               else realData + (found.value - |high|)
  {
    var found, pos, l := ScanSegment(mem, buffer.data, realEnd, NO_TAG);
    if !found {
      // On with the low segment.
      found, pos, l := ScanSegment(mem, realData, buffer.end, l);
    }
    if found {
      buffer.data := pos;
    }
    return found;
  }
}
