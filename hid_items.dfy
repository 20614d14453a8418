/** The item grammar of a HID report descriptor (HID 1.11, section 6.2.2).
    A short item is a one-byte prefix followed by 0, 1, 2 or 4 data bytes; the
    prefix holds the data size in bits 1..0, the item type in bits 3..2 and the
    tag in bits 7..4 (section 6.2.2.2). The prefix 0xFE announces a long item
    (section 6.2.2.3), which this walker does not accept. */
module HidItems {
  import opened UsbStd

  datatype ItemType = Main | Global | Local | Reserved

  /** One short item: its type, its 4-bit tag and its raw data bytes. */
  datatype Item = Item(kind: ItemType, tag: nat, data: seq<byte>)

  datatype ParseError = Truncated | LongItem

  datatype Result<T> = Ok(value: T) | Err(error: ParseError)

  const LONG_ITEM_PREFIX: byte := 0xFE

  /** Data bytes announced by the two size bits of a prefix. */
  function DataSize(code: nat): (n: nat)
    requires code < 4
    ensures n in {0, 1, 2, 4}
  {
    if code == 3 then 4 else code
  }

  /** The size bits for n data bytes; only 0, 1, 2 and 4 have a short-item encoding. */
  function SizeCode(n: nat): (c: nat)
    ensures c < 4
    ensures n in {0, 1, 2, 4} ==> DataSize(c) == n
  {
    if n == 4 then 3 else n % 4
  }

  function TypeOfCode(code: nat): ItemType
    requires code < 4
  {
    match code
    case 0 => Main
    case 1 => Global
    case 2 => Local
    case _ => Reserved
  }

  function TypeCode(t: ItemType): (c: nat)
    ensures c < 4 && TypeOfCode(c) == t
  {
    match t
    case Main => 0
    case Global => 1
    case Local => 2
    case Reserved => 3
  }

  /** An item that has a short-item encoding and whose prefix is not the long-item prefix. */
  predicate WellFormed(it: Item) {
    it.tag < 16 && |it.data| in {0, 1, 2, 4} &&
    !(it.kind == Reserved && it.tag == 15 && |it.data| == 2)
  }

  predicate AllWellFormed(items: seq<Item>) {
    forall i :: 0 <= i < |items| ==> WellFormed(items[i])
  }

  /** The prefix byte of an item; for a well-formed item it announces exactly
      the item's type, tag and data size. */
  function Prefix(it: Item): (p: byte)
    ensures WellFormed(it) ==> p != LONG_ITEM_PREFIX
    ensures WellFormed(it) ==> DataSize(p as int % 4) == |it.data|
    ensures WellFormed(it) ==> TypeOfCode(p as int / 4 % 4) == it.kind && p as int / 16 == it.tag
  {
    ((it.tag % 16) * 16 + TypeCode(it.kind) * 4 + SizeCode(|it.data|)) as byte
  }

  function EncodeItem(it: Item): (r: seq<byte>)
    ensures |r| == 1 + |it.data|
  {
    [Prefix(it)] + it.data
  }

  /** The bytes of a descriptor made of the given items, in order. */
  function Encode(items: seq<Item>): seq<byte>
  {
    if items == [] then [] else EncodeItem(items[0]) + Encode(items[1..])
  }

  /** The item that starts with prefix s[0]; s must hold its data bytes. */
  function DecodeItem(s: seq<byte>): Item
    requires |s| > 0 && 1 + DataSize(s[0] as int % 4) <= |s|
  {
    Item(TypeOfCode(s[0] as int / 4 % 4), s[0] as int / 16, s[1..1 + DataSize(s[0] as int % 4)])
  }

  /** Splits a report descriptor into its items, consuming every byte. Fails if the
      last item's data runs past the end or a long item appears. */
  function Parse(s: seq<byte>): Result<seq<Item>>
    decreases |s|
  {
    if s == [] then Ok([])
    else if s[0] == LONG_ITEM_PREFIX then Err(LongItem)
    else if 1 + DataSize(s[0] as int % 4) > |s| then Err(Truncated)
    else
      match Parse(s[1 + DataSize(s[0] as int % 4)..])
      case Err(e) => Err(e)
      case Ok(rest) => Ok([DecodeItem(s)] + rest)
  }

  /** Every well-formed item list is parsed back from its encoding. */
  lemma {:induction false} ParseEncode(items: seq<Item>)
    requires AllWellFormed(items)
    ensures Parse(Encode(items)) == Ok(items)
  {
    if items != [] {
      var it := items[0];
      var s := Encode(items);
      assert AllWellFormed(items[1..]) by {
        forall i | 0 <= i < |items[1..]| ensures WellFormed(items[1..][i]) {
          assert items[1..][i] == items[i + 1];
        }
      }
      ParseEncode(items[1..]);
      assert s == [Prefix(it)] + it.data + Encode(items[1..]);
      assert s[0] == Prefix(it);
      var n := DataSize(s[0] as int % 4);
      assert n == |it.data|;
      assert s[1 + n..] == Encode(items[1..]);
      assert s[1..1 + n] == it.data;
      assert DecodeItem(s) == it;
      assert [it] + items[1..] == items;
    }
  }

  /** The prefix byte of a decoded item is recovered by encoding it again. */
  lemma DecodeItemPrefix(s: seq<byte>)
    requires |s| > 0 && s[0] != LONG_ITEM_PREFIX && 1 + DataSize(s[0] as int % 4) <= |s|
    ensures WellFormed(DecodeItem(s)) && Prefix(DecodeItem(s)) == s[0]
    ensures EncodeItem(DecodeItem(s)) == s[..1 + DataSize(s[0] as int % 4)]
  {
    var p := s[0] as int;
    assert p == p / 16 * 16 + p / 4 % 4 * 4 + p % 4;
    var code := p / 4 % 4;
    assert TypeCode(TypeOfCode(code)) == code;
  }

  /** A successful parse consumes the input exactly: its items are well formed and
      encode back to the very same bytes. */
  lemma {:induction false} EncodeParse(s: seq<byte>)
    requires Parse(s).Ok?
    ensures AllWellFormed(Parse(s).value)
    ensures Encode(Parse(s).value) == s
    decreases |s|
  {
    if s != [] {
      var n := DataSize(s[0] as int % 4);
      var tail := s[1 + n..];
      var rest := Parse(tail).value;
      EncodeParse(tail);
      var it := DecodeItem(s);
      DecodeItemPrefix(s);
      var items := Parse(s).value;
      assert items == [it] + rest;
      assert AllWellFormed(items) by {
        forall i | 0 <= i < |items| ensures WellFormed(items[i]) {
          if i > 0 { assert items[i] == rest[i - 1]; }
        }
      }
      assert items[0] == it && items[1..] == rest;
      assert Encode(items) == EncodeItem(it) + Encode(rest);
      assert s == s[..1 + n] + tail;
    }
  }

  /** Encoding distributes over concatenation of item lists. */
  lemma {:induction false} EncodeAppend(a: seq<Item>, b: seq<Item>)
    ensures Encode(a + b) == Encode(a) + Encode(b)
  {
    if a == [] {
      assert a + b == b;
    } else {
      EncodeAppend(a[1..], b);
      assert (a + b)[0] == a[0];
      assert (a + b)[1..] == a[1..] + b;
    }
  }

  /** Parse is a partial inverse of Encode in both directions. */
  lemma ParseIffEncoded(s: seq<byte>)
    ensures Parse(s).Ok? <==> exists items :: AllWellFormed(items) && Encode(items) == s
  {
    if Parse(s).Ok? {
      EncodeParse(s);
    } else if exists items :: AllWellFormed(items) && Encode(items) == s {
      var items :| AllWellFormed(items) && Encode(items) == s;
      ParseEncode(items);
    }
  }

  /** An unsigned little-endian reading of an item's data; item data is kept
      as raw bytes throughout, so signedness is not interpreted. */
  function Unsigned(data: seq<byte>): nat
  {
    if data == [] then 0 else data[0] as nat + 256 * Unsigned(data[1..])
  }
}
