/** The persistence format: numbers, texts and containers (src/serializer.h, src/utss.h,
 *  xmcomp/src/buffer.c, src/jid.c).
 *
 *  A stream is a string whose characters stand for bytes.
 */
module Codec {
  import opened Common
  import opened Jids
  import opened JidText

  /** What a decoder finds at the start of a stream. */
  datatype Decoded<+T> = Fail | Got(value: T, rest: string)
  {
    predicate IsFailure() {
      Fail?
    }

    function PropagateFailure<U>(): Decoded<U>
      requires Fail?
    {
      Fail
    }

    function Extract(): (T, string)
      requires Got?
    {
      (value, rest)
    }
  }

  // ----- Numbers, least significant byte first -----

  function Pow256(k: nat): (p: nat)
    ensures p > 0
  {
    if k == 0 then 1 else 256 * Pow256(k - 1)
  }

  function EncodeNat(n: nat, k: nat): (s: string)
    ensures |s| == k
  {
    if k == 0 then "" else [(n % 256) as char] + EncodeNat(n / 256, k - 1)
  }

  function DecodeNat(s: string): nat {
    if s == "" then 0 else s[0] as int + 256 * DecodeNat(s[1..])
  }

  /** A number in two's complement of k bytes. */
  predicate FitsBytes(n: int, k: nat) {
    0 <= 2 * n + Pow256(k) < 2 * Pow256(k)
  }

  function EncodeInt(n: int, k: nat): (s: string)
    requires FitsBytes(n, k)
    ensures |s| == k
  {
    EncodeNat(if n < 0 then n + Pow256(k) else n, k)
  }

  function DecodeInt(s: string, k: nat): Decoded<int> {
    if |s| < k then Fail
    else
      var n := DecodeNat(s[..k]);
      Got(if 2 * n >= Pow256(k) then n - Pow256(k) else n, s[k..])
  }

  lemma {:induction false} NatRoundTrip(n: nat, k: nat)
    requires n < Pow256(k)
    ensures DecodeNat(EncodeNat(n, k)) == n
    decreases k
  {
    if k > 0 {
      var s := EncodeNat(n, k);
      assert s[0] as int == n % 256 && s[1..] == EncodeNat(n / 256, k - 1);
      NatRoundTrip(n / 256, k - 1);
    }
  }

  /** The bytes of a number are its digits to the base 256, least significant first. */
  lemma {:induction false} BytesAreDigits(n: nat, k: nat, i: nat)
    requires i < k
    ensures EncodeNat(n, k)[i] as int == n / Pow256(i) % 256
    decreases k
  {
    if i > 0 {
      BytesAreDigits(n / 256, k - 1, i - 1);
      DivideTwice(n, Pow256(i - 1));
    }
  }

  lemma {:induction false} DivideTwice(n: nat, p: nat)
    requires p > 0
    ensures n / 256 / p == n / (256 * p)
  {
    var q, r := n / 256 / p, n / 256 % p;
    assert n == 256 * (q * p + r) + n % 256;
    assert 256 * r + n % 256 < 256 * p;
    Quotient(n, 256 * p, q, 256 * r + n % 256);
  }

  lemma {:induction false} Quotient(n: nat, d: nat, q: nat, r: nat)
    requires r < d && n == q * d + r
    ensures n / d == q
  {
    Stretched(n / d, q, d);
    Stretched(q, n / d, d);
  }

  lemma {:induction false} Stretched(a: nat, b: nat, d: nat)
    ensures a < b ==> a * d + d <= b * d
    decreases b
  {
    if a < b {
      assert b * d == (b - 1) * d + d;
      Stretched(a, b - 1, d);
    }
  }

  lemma {:induction false} IntRoundTrip(n: int, k: nat, rest: string)
    requires FitsBytes(n, k)
    ensures DecodeInt(EncodeInt(n, k) + rest, k) == Got(n, rest)
  {
    var s := EncodeInt(n, k) + rest;
    assert s[..k] == EncodeInt(n, k) && s[k..] == rest;
    NatRoundTrip(if n < 0 then n + Pow256(k) else n, k);
  }

  const INT_SIZE := 4
  const MARK_SIZE := 8

  /** A C int. */
  predicate Int32(n: int) {
    -0x8000_0000 <= n < 0x8000_0000
  }

  lemma {:induction false} Int32Fits(n: int)
    ensures Int32(n) <==> FitsBytes(n, INT_SIZE)
  {
    assert Pow256(4) == 256 * (256 * (256 * (256 * Pow256(0))));
  }

  type int32 = n: int | Int32(n)

  function EncodeInt32(n: int32): string {
    Int32Fits(n);
    EncodeInt(n, INT_SIZE)
  }

  /** Four bytes are always an int; characters that are no bytes are refused. */
  function DecodeInt32(s: string): Decoded<int32> {
    var (n, s) :- DecodeInt(s, INT_SIZE);
    if Int32(n) then Got(n, s) else Fail
  }

  /** The mark before an item of a container, or at its end: a pointer, null or not. */
  function EncodeMark(present: bool): string {
    EncodeNat(if present then 1 else 0, MARK_SIZE)
  }

  function DecodeMark(s: string): Decoded<bool> {
    if |s| < MARK_SIZE then Fail else Got(DecodeNat(s[..MARK_SIZE]) != 0, s[MARK_SIZE..])
  }

  lemma {:induction false} Int32RoundTrip(n: int32, rest: string)
    ensures DecodeInt(EncodeInt32(n) + rest, INT_SIZE) == Got(n, rest)
    ensures DecodeInt32(EncodeInt32(n) + rest) == Got(n, rest)
  {
    Int32Fits(n);
    IntRoundTrip(n, INT_SIZE, rest);
  }

  lemma {:induction false} MarkRoundTrip(present: bool, rest: string)
    ensures DecodeMark(EncodeMark(present) + rest) == Got(present, rest)
  {
    var s := EncodeMark(present) + rest;
    assert s[..MARK_SIZE] == EncodeMark(present) && s[MARK_SIZE..] == rest;
    assert Pow256(MARK_SIZE) == 256 * Pow256(MARK_SIZE - 1);
    NatRoundTrip(if present then 1 else 0, MARK_SIZE);
  }

  /** A mark is a pointer of eight bytes, one or null. */
  lemma {:induction false} MarksArePointers()
    ensures EncodeMark(true) == "\U{1}\0\0\0\0\0\0\0"
    ensures EncodeMark(false) == "\0\0\0\0\0\0\0\0"
  {
    assert EncodeNat(0, 2) == "\0\0";
    assert EncodeNat(0, 4) == "\0\0\0\0";
    assert EncodeNat(0, 6) == "\0\0\0\0\0\0";
    assert EncodeNat(0, 8) == "\0\0\0\0\0\0\0\0";
    assert EncodeNat(1, 8) == "\U{1}" + EncodeNat(0, 7);
  }

  // ----- Texts -----

  /** A buffer: its data may be null. */
  type Buffer = Option<string>

  function Chars(t: Buffer): string {
    if t.Some? then t.value else ""
  }

  /** Null and empty are the same on the stream, and are read as null. */
  function Normal(t: Buffer): Buffer {
    if Chars(t) == "" then None else t
  }

  /** The size of a buffer is a C int. */
  predicate Sized(s: string) {
    |s| < 0x8000_0000
  }

  /** buffer_serialize: the size, then the characters if there are any. */
  function EncodeChars(s: string): string {
    EncodeNat(|s|, INT_SIZE) + s
  }

  /** buffer_deserialize: a size out of bounds or a short stream fails. */
  function DecodeText(s: string, limit: nat): Decoded<Buffer> {
    var (size, s) :- DecodeInt(s, INT_SIZE);
    if size < 0 || size > limit then Fail
    else if size == 0 then Got(None, s)
    else if |s| < size then Fail
    else Got(Some(s[..size]), s[size..])
  }

  /** A text comes back, up to empty versus null, if and only if it fits the reader's limit. */
  lemma {:induction false} TextRoundTrip(t: Buffer, limit: nat, rest: string)
    requires Sized(Chars(t))
    ensures DecodeText(EncodeChars(Chars(t)) + rest, limit) ==
            if |Chars(t)| <= limit then Got(Normal(t), rest) else Fail
  {
    var s := Chars(t);
    Int32Fits(|s|);
    assert EncodeChars(s) + rest == EncodeInt32(|s|) + (s + rest);
    Int32RoundTrip(|s|, s + rest);
    assert (s + rest)[..|s|] == s && (s + rest)[|s|..] == rest;
  }

  // ----- Addresses -----

  /** The characters from JID_STR that JID_LEN counts: an empty resource is cut off. */
  function Written(j: Jid): string {
    if j.resource == Some("") then Text(j.(resource := None)) else Text(j)
  }

  function DecodeJid(s: string): Decoded<Jid> {
    var (text, s) :- DecodeText(s, MAX_JID_SIZE);
    var j := Struct(Chars(text));
    if j.None? then Fail else Got(j.value, s)
  }

  lemma {:induction false} ExpressibleIsShort(j: Jid)
    requires Expressible(j)
    ensures 0 < |Text(j)| <= MAX_JID_SIZE
  {
  }

  function EncodeJid(j: Jid): string {
    EncodeChars(Written(j))
  }

  function AsDecoded<T>(value: Option<T>, rest: string): Decoded<T> {
    if value.None? then Fail else Got(value.value, rest)
  }

  /** The address that a saved one is read as. */
  function ReadJid(j: Jid): Option<Jid> {
    if |Written(j)| <= MAX_JID_SIZE then Struct(Written(j)) else None
  }

  lemma {:induction false} JidRoundTrip(j: Jid, rest: string)
    requires Sized(Written(j))
    ensures DecodeJid(EncodeJid(j) + rest) == AsDecoded(ReadJid(j), rest)
  {
    TextRoundTrip(Some(Written(j)), MAX_JID_SIZE, rest);
  }

  /** The addresses that come back. */
  predicate Storable(j: Jid) {
    Expressible(j) && j.resource != Some("")
  }

  /** An address comes back if and only if it has a text of its own and no empty resource. */
  lemma {:induction false} JidComesBack(j: Jid)
    ensures ReadJid(j) == Some(j) <==> Storable(j)
  {
    StructUndoesText(Written(j), j);
    if j.resource == Some("") {
      assert Text(j) == Written(j) + "/";
    } else if Expressible(j) {
      ExpressibleIsShort(j);
    }
  }

  // ----- Containers -----

  /** Items that are written, each behind a mark. */
  function EncodeItems<T>(items: seq<T>, enc: T -> string): string {
    if items == [] then EncodeMark(false)
    else EncodeMark(true) + (enc(items[0]) + EncodeItems(items[1..], enc))
  }

  function Min(a: nat, b: int): nat {
    if b < 0 then 0 else if a < b then a else b
  }

  /** _CONTAINER_SERIALIZE: at most max_size items. */
  function EncodeContainer<T>(items: seq<T>, maxSize: int, enc: T -> string): string {
    EncodeItems(Kept(items, maxSize), enc)
  }

  /** The list and the counter of a container that was read. */
  datatype Container<T> = Container(items: seq<T>, size: nat)

  /** The loop of _CONTAINER_DESERIALIZE behind a mark: each item is counted by the loop and
   *  again when it is added to the list. */
  function DecodeItems<T>(s: string, c: Container<T>, maxSize: int, dec: string -> Decoded<T>): Decoded<Container<T>>
    decreases 2 * maxSize - c.size
  {
    if c.size + 1 > 2 * maxSize then Fail
    else
      var (item, s) :- dec(s);
      var (more, s) :- DecodeMark(s);
      var d := Container(c.items + [item], c.size + 2);
      if more then DecodeItems(s, d, maxSize, dec) else Got(d, s)
  }

  function DecodeContainer<T>(s: string, maxSize: int, dec: string -> Decoded<T>): Decoded<Container<T>> {
    var (any, s) :- DecodeMark(s);
    if any then DecodeItems(s, Container([], 0), maxSize, dec) else Got(Container([], 0), s)
  }

  /** An item is read as `back(x)`, or not at all, whatever follows. */
  ghost predicate ReadAs<T>(x: T, back: T -> Option<T>, enc: T -> string, dec: string -> Decoded<T>) {
    forall rest: string :: dec(enc(x) + rest) == AsDecoded(back(x), rest)
  }

  ghost predicate AllReadAs<T>(items: seq<T>, back: T -> Option<T>, enc: T -> string, dec: string -> Decoded<T>) {
    forall i :: 0 <= i < |items| ==> ReadAs(items[i], back, enc, dec)
  }

  predicate AllRead<T>(items: seq<T>, back: T -> Option<T>) {
    forall i :: 0 <= i < |items| ==> back(items[i]).Some?
  }

  /** The items as they are read. */
  function Back<T>(items: seq<T>, back: T -> Option<T>): (m: seq<T>)
    requires AllRead(items, back)
    ensures |m| == |items| && forall i :: 0 <= i < |items| ==> m[i] == back(items[i]).value
  {
    seq(|items|, i requires 0 <= i < |items| => back(items[i]).value)
  }

  lemma {:induction false} OneItem<T>(
      first: string, x: Option<T>, more: bool, tail: string, c: Container<T>, maxSize: int,
      dec: string -> Decoded<T>)
    requires dec(first + (EncodeMark(more) + tail)) == AsDecoded(x, EncodeMark(more) + tail)
    ensures DecodeItems(first + (EncodeMark(more) + tail), c, maxSize, dec) ==
            if c.size + 1 > 2 * maxSize || x.None? then Fail
            else
              var d := Container(c.items + [x.value], c.size + 2);
              if more then DecodeItems(tail, d, maxSize, dec) else Got(d, tail)
  {
    MarkRoundTrip(more, tail);
  }

  /** The items behind the mark of the first. */
  function Unmarked<T>(items: seq<T>, enc: T -> string): string
    requires items != []
  {
    enc(items[0]) + EncodeItems(items[1..], enc)
  }

  lemma {:induction false} NextItem<T>(items: seq<T>, rest: string, enc: T -> string)
    requires items != []
    ensures var more := items[1..] != [];
            Unmarked(items, enc) + rest ==
            enc(items[0]) + (EncodeMark(more) + if more then Unmarked(items[1..], enc) + rest else rest)
  {
    var first, tail := enc(items[0]), EncodeItems(items[1..], enc);
    assert first + tail + rest == first + (tail + rest);
    if items[1..] != [] {
      var next := Unmarked(items[1..], enc);
      assert tail == EncodeMark(true) + next;
      assert EncodeMark(true) + next + rest == EncodeMark(true) + (next + rest);
    }
  }

  lemma {:induction false} BackFirst<T>(items: seq<T>, back: T -> Option<T>, before: seq<T>)
    requires items != [] && AllRead(items, back)
    ensures AllRead(items[1..], back)
    ensures before + Back(items, back) == before + [back(items[0]).value] + Back(items[1..], back)
  {
  }

  /** The container that is read behind what was read before, if all items are read and they
   *  are not too many. */
  function Behind<T>(c: Container<T>, items: seq<T>, maxSize: int, back: T -> Option<T>): Option<Container<T>> {
    if AllRead(items, back) && |c.items| + |items| <= maxSize
    then Some(Container(c.items + Back(items, back), 2 * (|c.items| + |items|)))
    else None
  }

  lemma {:induction false} ItemsRoundTrip<T>(
      items: seq<T>, c: Container<T>, maxSize: int, rest: string,
      back: T -> Option<T>, enc: T -> string, dec: string -> Decoded<T>, r: Decoded<Container<T>>)
    requires items != [] && AllReadAs(items, back, enc, dec) && c.size == 2 * |c.items|
    requires r == DecodeItems(Unmarked(items, enc) + rest, c, maxSize, dec)
    ensures r == AsDecoded(Behind(c, items, maxSize, back), rest)
    decreases |items|
  {
    var more := items[1..] != [];
    var x := back(items[0]);
    NextItem(items, rest, enc);
    assert ReadAs(items[0], back, enc, dec);
    OneItem(enc(items[0]), x, more, if more then Unmarked(items[1..], enc) + rest else rest, c, maxSize, dec);
    if x.Some? && c.size + 1 <= 2 * maxSize {
      var d := Container(c.items + [x.value], c.size + 2);
      BehindFirst(c, items, maxSize, back, d);
      if more {
        assert AllReadAs(items[1..], back, enc, dec);
        ItemsRoundTrip(items[1..], d, maxSize, rest, back, enc, dec, r);
      }
    }
  }

  lemma {:induction false} BehindFirst<T>(
      c: Container<T>, items: seq<T>, maxSize: int, back: T -> Option<T>, d: Container<T>)
    requires items != [] && back(items[0]).Some? && |c.items| + 1 <= maxSize
    requires d == Container(c.items + [back(items[0]).value], 2 * (|c.items| + 1))
    ensures Behind(c, items, maxSize, back) ==
            if items[1..] == [] then Some(d) else Behind(d, items[1..], maxSize, back)
  {
    assert items == [items[0]] + items[1..];
    assert AllRead(items, back) <==> AllRead(items[1..], back);
    if AllRead(items, back) {
      BackFirst(items, back, c.items);
      assert items[1..] == [] ==> d.items + Back(items[1..], back) == d.items;
    }
  }

  /** The items that are written. */
  function Kept<T>(items: seq<T>, limit: int): seq<T> {
    items[..Min(|items|, limit)]
  }

  /** They are the first ones, all of them if there are no more than the limit. */
  lemma {:induction false} FirstAreKept<T>(items: seq<T>, limit: int, i: nat)
    requires i < |items|
    ensures i < |Kept(items, limit)| <==> i < limit
    ensures i < limit ==> Kept(items, limit)[i] == items[i]
    ensures |Kept(items, limit)| <= |items|
  {
  }

  /** The container that a written one is read as: its first items up to the writer's limit, in
   *  order, counted twice. More than the reader's limit, or one that is not read, fail. */
  function ReadContainer<T>(items: seq<T>, written: int, limit: int, back: T -> Option<T>): Option<Container<T>> {
    var kept := Kept(items, written);
    if AllRead(kept, back) && (kept == [] || |kept| <= limit)
    then Some(Container(Back(kept, back), 2 * |kept|))
    else None
  }

  /** Reading a written container gives exactly that, and leaves what follows: the counter never
   *  rejects as many items as the reader's limit allows, and always rejects more. */
  lemma {:induction false} ContainerRoundTrip<T>(
      items: seq<T>, written: int, limit: int, rest: string,
      back: T -> Option<T>, enc: T -> string, dec: string -> Decoded<T>)
    requires AllReadAs(Kept(items, written), back, enc, dec)
    ensures DecodeContainer(EncodeContainer(items, written, enc) + rest, limit, dec) ==
            AsDecoded(ReadContainer(items, written, limit, back), rest)
  {
    var kept := Kept(items, written);
    if kept == [] {
      MarkRoundTrip(false, rest);
      assert Back(kept, back) == [];
    } else {
      var next := Unmarked(kept, enc);
      assert EncodeItems(kept, enc) + rest == EncodeMark(true) + (next + rest);
      MarkRoundTrip(true, next + rest);
      var r := DecodeItems(next + rest, Container([], 0), limit, dec);
      ItemsRoundTrip(kept, Container([], 0), limit, rest, back, enc, dec, r);
      if AllRead(kept, back) {
        assert [] + Back(kept, back) == Back(kept, back);
      }
    }
  }
}
