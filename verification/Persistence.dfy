/** Saving and loading as the program does it: step by step on a stream. */
module Persistence {
  import opened Common
  import opened Jids
  import opened JidText
  import opened Codec
  import opened RoomCodec

  /** A file open for writing; writing is taken to succeed. */
  class Output {
    var text: string

    constructor ()
      ensures text == ""
    {
      text := "";
    }

    /** fwrite. */
    method Write(bytes: string)
      modifies this
      ensures text == old(text) + bytes
    {
      text := text + bytes;
    }
  }

  /** A file open for reading, from the current position on. */
  class Input {
    var text: string

    constructor (text: string)
      ensures this.text == text
    {
      this.text := text;
    }

    /** fread of one item: false when the file is too short. */
    method Read(size: nat) returns (ok: bool, bytes: string)
      modifies this
      ensures ok == (size <= |old(text)|)
      ensures ok ==> bytes == old(text)[..size] && text == old(text)[size..]
    {
      if |text| < size {
        return false, "";
      }
      ok, bytes, text := true, text[..size], text[size..];
    }
  }

  /** The result of a reading method, as a decoder gives it. */
  ghost predicate Reads<T>(d: Decoded<T>, ok: bool, value: T, left: string) {
    ok == d.Got? && (ok ==> d == Got(value, left))
  }

  method WriteInt(output: Output, n: int32)
    modifies output
    ensures output.text == old(output.text) + EncodeInt32(n)
  {
    output.Write(EncodeInt32(n));
  }

  method ReadInt(input: Input) returns (ok: bool, n: int32)
    modifies input
    ensures Reads(DecodeInt32(old(input.text)), ok, n, input.text)
  {
    var bytes;
    n := 0;
    ok, bytes := input.Read(INT_SIZE);
    if ok {
      var d := DecodeInt(bytes, INT_SIZE);
      assert bytes[..INT_SIZE] == bytes;
      ok := Int32(d.value);
      if ok {
        n := d.value;
      }
    }
  }

  /** buffer_serialize. */
  method WriteBuffer(output: Output, b: Buffer)
    modifies output
    ensures output.text == old(output.text) + EncodeChars(Chars(b))
  {
    output.Write(EncodeNat(|Chars(b)|, INT_SIZE));
    if |Chars(b)| != 0 {
      output.Write(Chars(b));
    }
  }

  /** buffer_deserialize. */
  method ReadBuffer(input: Input, limit: nat) returns (ok: bool, b: Buffer)
    modifies input
    ensures Reads(DecodeText(old(input.text), limit), ok, b, input.text)
  {
    var bytes, size;
    b := None;
    ok, bytes := input.Read(INT_SIZE);
    if !ok {
      return;
    }
    assert bytes[..INT_SIZE] == bytes;
    size := DecodeInt(bytes, INT_SIZE).value;
    if size < 0 || size > limit {
      return false, None;
    }
    if size == 0 {
      return true, None;
    }
    ok, bytes := input.Read(size);
    b := Some(bytes);
  }

  /** jid_serialize. */
  method WriteJid(output: Output, j: Jid)
    modifies output
    ensures output.text == old(output.text) + EncodeJid(j)
  {
    WriteBuffer(output, Some(Written(j)));
  }

  /** jid_deserialize. */
  method ReadJidFrom(input: Input) returns (ok: bool, j: Jid)
    modifies input
    ensures Reads(DecodeJid(old(input.text)), ok, j, input.text)
  {
    var b, r;
    j := Jid(None, "", None);
    ok, b := ReadBuffer(input, MAX_JID_SIZE);
    if ok {
      r := JidStruct(Chars(b));
      ok := r.Some?;
      if ok {
        j := r.value;
      }
    }
  }

  /** The mark of a container. */
  method ReadMark(input: Input) returns (ok: bool, present: bool)
    modifies input
    ensures Reads(DecodeMark(old(input.text)), ok, present, input.text)
  {
    var bytes;
    present := false;
    ok, bytes := input.Read(MARK_SIZE);
    if ok {
      present := DecodeNat(bytes) != 0;
    }
  }

  /** _CONTAINER_SERIALIZE, with the entry serializer as a parameter. */
  method WriteContainer<T>(output: Output, items: seq<T>, maxSize: int, enc: T -> string)
    modifies output
    ensures output.text == old(output.text) + EncodeContainer(items, maxSize, enc)
  {
    var written := 0;
    ghost var kept := Kept(items, maxSize);
    while written < |items|
      invariant written <= |kept|
      invariant old(output.text) + EncodeItems(kept, enc) == output.text + EncodeItems(kept[written..], enc)
    {
      if written + 1 > maxSize {
        break;
      }
      WrittenItem(kept, written, enc, output.text);
      output.Write(EncodeMark(true));
      output.Write(enc(items[written]));
      written := written + 1;
    }
    assert kept[written..] == [];
    output.Write(EncodeMark(false));
  }

  lemma {:induction false} WrittenItem<T>(items: seq<T>, n: nat, enc: T -> string, text: string)
    requires n < |items|
    ensures text + EncodeItems(items[n..], enc) ==
            text + EncodeMark(true) + enc(items[n]) + EncodeItems(items[n + 1..], enc)
  {
    assert items[n..][0] == items[n] && items[n..][1..] == items[n + 1..];
    var item, rest := enc(items[n]), EncodeItems(items[n + 1..], enc);
    assert text + (EncodeMark(true) + (item + rest)) == text + EncodeMark(true) + item + rest;
  }

  /** _CONTAINER_DESERIALIZE, with the entry deserializer as a parameter: the loop counts each
   *  item, and so does adding it to the list. */
  method ReadContainerFrom<T>(input: Input, maxSize: int, dec: string -> Decoded<T>)
      returns (ok: bool, c: Container<T>)
    modifies input
    ensures Reads(DecodeContainer(old(input.text), maxSize, dec), ok, c, input.text)
  {
    var present;
    c := Container([], 0);
    ok, present := ReadMark(input);
    if !ok || !present {
      return;
    }
    ghost var all := DecodeItems(input.text, c, maxSize, dec);
    while true
      invariant all == DecodeItems(input.text, c, maxSize, dec)
      decreases 2 * maxSize - c.size
    {
      c := c.(size := c.size + 1);
      if c.size > 2 * maxSize {
        return false, c;
      }
      var item := dec(input.text);
      if item.Fail? {
        return false, c;
      }
      input.text := item.rest;
      ok, present := ReadMark(input);
      if !ok {
        return;
      }
      c := Container(c.items + [item.value], c.size + 1);
      if !present {
        return;
      }
    }
  }

  /** room_serialize. */
  method WriteRoom(output: Output, r: Room)
    modifies output
    ensures output.text == old(output.text) + EncodeRoom(r)
  {
    ghost var before := output.text;
    WriteTexts(output, r.texts);
    WriteNumbers(output, r.numbers);
    WriteLists(output, r.lists, r.numbers, r.listLimit);
    InTurn(before, EncodeTexts(r.texts), EncodeNumbers(r.numbers), EncodeLists(r.lists, r.numbers, r.listLimit));
  }

  lemma {:induction false} InTurn(before: string, a: string, b: string, c: string)
    ensures before + a + b + c == before + (a + (b + c))
  {
  }

  lemma {:induction false} AllInTurn(before: string, a: string, b: string, c: string, d: string)
    ensures before + a + b + c + d == before + (a + (b + (c + d)))
  {
    InTurn(before, a, b, c + d);
    InTurn(before + a, b, c, d);
  }

  method WriteTexts(output: Output, t: Texts)
    modifies output
    ensures output.text == old(output.text) + EncodeTexts(t)
  {
    ghost var before, rest := output.text, EncodeChars(Chars(t.password)) +
      (EncodeChars(Chars(t.subject)) + EncodeChars(Chars(t.subjectNick)));
    WriteBuffer(output, t.node);
    WriteBuffer(output, t.title);
    WriteBuffer(output, t.description);
    InTurn(output.text, EncodeChars(Chars(t.password)), EncodeChars(Chars(t.subject)),
           EncodeChars(Chars(t.subjectNick)));
    WriteBuffer(output, t.password);
    WriteBuffer(output, t.subject);
    WriteBuffer(output, t.subjectNick);
    AllInTurn(before, EncodeChars(Chars(t.node)), EncodeChars(Chars(t.title)), EncodeChars(Chars(t.description)), rest);
  }

  method WriteNumbers(output: Output, n: Numbers)
    modifies output
    ensures output.text == old(output.text) + EncodeNumbers(n)
  {
    WriteInt(output, n.flags);
    WriteInt(output, n.defaultRole);
    WriteInt(output, n.maxSize);
    WriteInt(output, n.maxHistory);
    output.Write(n.unused);
  }

  method WriteLists(output: Output, l: Lists, n: Numbers, listLimit: int)
    modifies output
    ensures output.text == old(output.text) + EncodeLists(l, n, listLimit)
  {
    ghost var before := output.text;
    WriteContainer(output, l.history, n.maxHistory, EncodeHistoryEntry);
    WriteContainer(output, l.occupants, n.maxSize, EncodeOccupant);
    WriteRoll(output, l.roll, listLimit);
    InTurn(before, EncodeContainer(l.history, n.maxHistory, EncodeHistoryEntry),
           EncodeContainer(l.occupants, n.maxSize, EncodeOccupant), EncodeRoll(l.roll, listLimit));
  }

  method WriteRoll(output: Output, l: Roll, limit: int)
    modifies output
    ensures output.text == old(output.text) + EncodeRoll(l, limit)
  {
    ghost var before := output.text;
    WriteContainer(output, l.owners, limit, EncodeEntry);
    WriteContainer(output, l.admins, limit, EncodeEntry);
    WriteContainer(output, l.members, limit, EncodeEntry);
    WriteContainer(output, l.outcasts, limit, EncodeEntry);
    AllInTurn(before, EncodeEntries(l.owners, limit), EncodeEntries(l.admins, limit),
              EncodeEntries(l.members, limit), EncodeEntries(l.outcasts, limit));
  }

  method ReadTextsFrom(input: Input) returns (ok: bool, t: Texts)
    modifies input
    ensures Reads(DecodeTexts(old(input.text)), ok, t, input.text)
  {
    var node, title, description, password, subject, subjectNick;
    t := Texts(None, None, None, None, None, None);
    ok, node := ReadBuffer(input, MAX_JID_PART_SIZE);
    if !ok { return; }
    ok, title := ReadBuffer(input, USER_STRING_OPTION_LIMIT);
    if !ok { return; }
    ok, description := ReadBuffer(input, USER_STRING_OPTION_LIMIT);
    if !ok { return; }
    ok, password := ReadBuffer(input, USER_STRING_OPTION_LIMIT);
    if !ok { return; }
    ok, subject := ReadBuffer(input, USER_STRING_OPTION_LIMIT);
    if !ok { return; }
    ok, subjectNick := ReadBuffer(input, USER_STRING_OPTION_LIMIT);
    t := Texts(node, title, description, password, subject, subjectNick);
  }

  method ReadNumbersFrom(input: Input) returns (ok: bool, n: Numbers)
    modifies input
    ensures Reads(DecodeNumbers(old(input.text)), ok, n, input.text)
  {
    var flags, defaultRole, maxSize, maxHistory, unused;
    n := Numbers(0, 0, 0, 0, "");
    ok, flags := ReadInt(input);
    if !ok { return; }
    ok, defaultRole := ReadInt(input);
    if !ok { return; }
    ok, maxSize := ReadInt(input);
    if !ok { return; }
    ok, maxHistory := ReadInt(input);
    if !ok { return; }
    ok, unused := input.Read(UNUSED_SIZE);
    n := Numbers(flags, defaultRole, maxSize, maxHistory, unused);
  }

  method ReadRollFrom(input: Input) returns (ok: bool, l: Roll)
    modifies input
    ensures Reads(DecodeRoll(old(input.text)), ok, l, input.text)
  {
    var owners, admins, members, outcasts;
    l := Roll([], [], [], []);
    ok, owners := ReadContainerFrom(input, LIST_LIMIT, DecodeEntry);
    if !ok { return; }
    ok, admins := ReadContainerFrom(input, LIST_LIMIT, DecodeEntry);
    if !ok { return; }
    ok, members := ReadContainerFrom(input, LIST_LIMIT, DecodeEntry);
    if !ok { return; }
    ok, outcasts := ReadContainerFrom(input, LIST_LIMIT, DecodeEntry);
    l := Roll(owners.items, admins.items, members.items, outcasts.items);
  }

  method ReadListsFrom(input: Input, n: Numbers) returns (ok: bool, l: Lists)
    modifies input
    ensures Reads(DecodeLists(old(input.text), n), ok, l, input.text)
  {
    var history, occupants, roll;
    l := Lists([], [], Roll([], [], [], []));
    ok, history := ReadContainerFrom(input, n.maxHistory, DecodeHistoryEntry);
    if !ok { return; }
    ok, occupants := ReadContainerFrom(input, n.maxSize, DecodeOccupant);
    if !ok { return; }
    ok, roll := ReadRollFrom(input);
    l := Lists(history.items, occupants.items, roll);
  }

  /** room_deserialize. */
  method ReadRoomFrom(input: Input) returns (ok: bool, r: Room)
    modifies input
    ensures Reads(DecodeRoom(old(input.text)), ok, r, input.text)
  {
    var texts, numbers, lists;
    r := Room(Texts(None, None, None, None, None, None), Numbers(0, 0, 0, 0, ""),
              Lists([], [], Roll([], [], [], [])), LIST_LIMIT);
    ok, texts := ReadTextsFrom(input);
    if !ok { return; }
    ok, numbers := ReadNumbersFrom(input);
    if !ok { return; }
    ok, lists := ReadListsFrom(input, numbers);
    r := Room(texts, numbers, lists, LIST_LIMIT);
  }

  /** A room that is written and read again. */
  method SaveAndLoad(r: Room) returns (ok: bool, loaded: Room)
    requires RoomSized(r)
    ensures ok == ReadRoom(r).Some? && (ok ==> loaded == ReadRoom(r).value)
    ensures ok <==> RoomLoads(r)
    ensures ok && SameRoom(r, loaded) <==> RoomFits(r)
  {
    RoomLoadsIff(r);
    RoomComesBack(r, ReadRoom(r));
    var output := new Output();
    WriteRoom(output, r);
    var input := new Input(output.text);
    RoomRoundTrip(r, "");
    assert EncodeRoom(r) + "" == input.text;
    ok, loaded := ReadRoomFrom(input);
  }
}
