/**
  The MessagePack format as its specification lists it, family by family with its own marker, and
  the proof that the reader of `MsgPack` takes exactly one such item off the front of the input.
 */
module MsgPackFormat {
  import opened Wrappers
  import opened MsgPack

  // ------------------------------------------------------------------------
  // Items.
  // ------------------------------------------------------------------------

  /** An item in one of the forms it can be written in; `width` is the number of bytes of a number or a length. */
  datatype Item =
    | Nil
    | Bool(b: bool)
    | PositiveFixInt(n: nat)
    | NegativeFixInt(below: nat)
    | UInt(width: nat, n: nat)
    | SInt(width: nat, i: int)
    | Float(bits: Bytes)
    | FixStr(text: Bytes)
    | Str(width: nat, text: Bytes)
    | Bin(width: nat, data: Bytes)
    | FixExt(tag: byte, data: Bytes)
    | Ext(width: nat, tag: byte, data: Bytes)
    | FixArray(items: seq<Item>)
    | Arr(width: nat, items: seq<Item>)
    | FixMap(entries: seq<Entry>)
    | Map(width: nat, entries: seq<Entry>)

  /** A key and its value. */
  datatype Entry = Entry(key: Item, value: Item)

  /** The numbers that fit into so many bytes. */
  function Bound(width: nat): nat {
    if width == 1 then 0x100 else if width == 2 then 0x1_0000
    else if width == 4 then 0x1_0000_0000 else if width == 8 then 0x1_0000_0000_0000_0000 else 0
  }

  predicate Valid(i: Item)
    decreases i, 1
  {
    match i
    case Nil => true
    case Bool(_) => true
    case PositiveFixInt(n) => n < 128
    case NegativeFixInt(k) => 1 <= k <= 32
    case UInt(w, n) => n < Bound(w)
    case SInt(w, n) => 0 <= 2 * n + Bound(w) < 2 * Bound(w)
    case Float(bits) => |bits| == 4 || |bits| == 8
    case FixStr(text) => |text| < 32
    case Str(w, text) => w <= 4 && |text| < Bound(w)
    case Bin(w, data) => w <= 4 && |data| < Bound(w)
    case FixExt(_, data) => |data| == 1 || |data| == 2 || |data| == 4 || |data| == 8 || |data| == 16
    case Ext(w, _, data) => w <= 4 && |data| < Bound(w)
    case FixArray(items) => |items| < 16 && forall k | 0 <= k < |items| :: Valid(items[k])
    case Arr(w, items) => 2 <= w <= 4 && |items| < Bound(w) && forall k | 0 <= k < |items| :: Valid(items[k])
    case FixMap(es) => |es| < 16 && forall k | 0 <= k < |es| :: ValidEntry(es[k])
    case Map(w, es) => 2 <= w <= 4 && |es| < Bound(w) && forall k | 0 <= k < |es| :: ValidEntry(es[k])
  }

  predicate ValidEntry(e: Entry)
    decreases e, 2
  {
    Valid(e.key) && Valid(e.value)
  }

  /** The number in so many bytes, the most significant first. */
  function Number(n: nat, width: nat): (b: Bytes)
    ensures |b| == width
  {
    if width == 0 then [] else Number(n / 256, width - 1) + [n % 256]
  }

  /** The marker for a length or a number of one, two, four or eight bytes. */
  function ByWidth(width: nat, one: byte, two: byte, four: byte, eight: byte): byte {
    if width == 1 then one else if width == 2 then two else if width == 4 then four else eight
  }

  function ExtMarker(size: nat): byte {
    if size == 1 then 0xd4 else if size == 2 then 0xd5 else if size == 4 then 0xd6 else if size == 8 then 0xd7 else 0xd8
  }

  function Write(i: Item): (b: Bytes)
    requires Valid(i)
    ensures b != []
    decreases i, 1
  {
    match i
    case Nil => [0xc0]
    case Bool(b) => if b then [0xc3] else [0xc2]
    case PositiveFixInt(n) => [n]
    case NegativeFixInt(k) => [0x100 - k]
    case UInt(w, n) => [ByWidth(w, 0xcc, 0xcd, 0xce, 0xcf)] + Number(n, w)
    case SInt(w, n) => [ByWidth(w, 0xd0, 0xd1, 0xd2, 0xd3)] + Number(if n < 0 then n + Bound(w) else n, w)
    case Float(bits) => [if |bits| == 4 then 0xca else 0xcb] + bits
    case FixStr(text) => [0xa0 + |text|] + text
    case Str(w, text) => [ByWidth(w, 0xd9, 0xda, 0xdb, 0)] + Number(|text|, w) + text
    case Bin(w, data) => [ByWidth(w, 0xc4, 0xc5, 0xc6, 0)] + Number(|data|, w) + data
    case FixExt(tag, data) => [ExtMarker(|data|)] + [tag] + data
    case Ext(w, tag, data) => [ByWidth(w, 0xc7, 0xc8, 0xc9, 0)] + Number(|data|, w) + [tag] + data
    case FixArray(items) => [0x90 + |items|] + WriteAll(items)
    case Arr(w, items) => [ByWidth(w, 0, 0xdc, 0xdd, 0)] + Number(|items|, w) + WriteAll(items)
    case FixMap(es) => [0x80 + |es|] + WriteEntries(es)
    case Map(w, es) => [ByWidth(w, 0, 0xde, 0xdf, 0)] + Number(|es|, w) + WriteEntries(es)
  }

  function WriteAll(items: seq<Item>): Bytes
    requires forall k | 0 <= k < |items| :: Valid(items[k])
    decreases items, 0
  {
    if items == [] then [] else Write(items[0]) + WriteAll(items[1..])
  }

  function WriteEntry(e: Entry): Bytes
    requires ValidEntry(e)
    decreases e, 2
  {
    Write(e.key) + Write(e.value)
  }

  function WriteEntries(es: seq<Entry>): Bytes
    requires forall k | 0 <= k < |es| :: ValidEntry(es[k])
    decreases es, 0
  {
    if es == [] then [] else WriteEntry(es[0]) + WriteEntries(es[1..])
  }

  // ------------------------------------------------------------------------
  // Numbers.
  // ------------------------------------------------------------------------

  lemma {:induction false} NumberBack(n: nat, width: nat, bound: nat)
    requires n < bound && bound == Weight(width)
    ensures BigEndian(Number(n, width)) == n
    decreases width
  {
    if width > 0 {
      var b := Number(n, width);
      assert b[..|b|-1] == Number(n / 256, width - 1) && b[|b|-1] == n % 256;
      NumberBack(n / 256, width - 1, Weight(width - 1));
    }
  }

  /** The number of values of so many bytes. */
  function Weight(width: nat): nat {
    if width == 0 then 1 else 256 * Weight(width - 1)
  }

  lemma BoundIsWeight(width: nat)
    requires Bound(width) > 0
    ensures Bound(width) == Weight(width) && (width == 1 || width == 2 || width == 4 || width == 8)
  {
    assert Weight(1) == 0x100 && Weight(2) == 0x1_0000 && Weight(3) == 0x100_0000 && Weight(4) == 0x1_0000_0000;
    assert Weight(5) == 0x100_0000_0000 && Weight(6) == 0x1_0000_0000_0000 && Weight(7) == 0x100_0000_0000_0000;
  }

  lemma LengthBack(n: nat, width: nat)
    requires n < Bound(width)
    ensures BigEndian(Number(n, width)) == n
  {
    BoundIsWeight(width);
    NumberBack(n, width, Bound(width));
  }

  // ------------------------------------------------------------------------
  // Every item is read as one value.
  // ------------------------------------------------------------------------

  /** A marker, a length of so many bytes, and as many bytes as it says and `fixed` more. */
  lemma ScalarRead(m: byte, length: Bytes, payload: Bytes, x: Bytes)
    requires ShapeOf(m).Octets? && |length| == ShapeOf(m).width && |payload| == BigEndian(length) + ShapeOf(m).fixed
    ensures var b := [m] + length + payload; ParseOne(b + x).Done? && ParseOne(b + x).used == |b|
  {
    ScalarEncoded(m, length, payload, ShapeOf(m), x);
    assert ([m] + length + payload + x)[0] == m;
  }

  lemma NodeRead(m: byte, length: Bytes, count: nat, items: Bytes, x: Bytes)
    requires ShapeOf(m).Items? && |length| == ShapeOf(m).width
    requires count == ShapeOf(m).factor * (BigEndian(length) + ShapeOf(m).fixed)
    requires ParseMany(items + x, count).Done? && ParseMany(items + x, count).used == |items|
    ensures var b := [m] + length + items; ParseOne(b + x).Done? && ParseOne(b + x).used == |b|
  {
    var b := [m] + length + items + x;
    assert b[0] == m && b[1..1 + |length|] == length && b[1 + |length|..] == items + x;
  }

  /** A marker whose family has a fixed number of bytes. */
  lemma PayloadRead(m: byte, payload: Bytes, x: Bytes)
    requires ShapeOf(m) == Octets(0, |payload|)
    ensures var b := [m] + payload; ParseOne(b + x).Done? && ParseOne(b + x).used == |b|
  {
    assert [m] + [] + payload == [m] + payload;
    ScalarRead(m, [], payload, x);
  }

  lemma SizedRead(m: byte, w: nat, data: Bytes, x: Bytes)
    requires ShapeOf(m) == Octets(w, 0) && |data| < Bound(w)
    ensures var b := [m] + Number(|data|, w) + data; ParseOne(b + x).Done? && ParseOne(b + x).used == |b|
  {
    LengthBack(|data|, w);
    ScalarRead(m, Number(|data|, w), data, x);
  }

  lemma ExtRead(m: byte, w: nat, tag: byte, data: Bytes, x: Bytes)
    requires ShapeOf(m) == Octets(w, 1) && |data| < Bound(w)
    ensures var b := [m] + Number(|data|, w) + [tag] + data; ParseOne(b + x).Done? && ParseOne(b + x).used == |b|
  {
    LengthBack(|data|, w);
    ScalarRead(m, Number(|data|, w), [tag] + data, x);
    assert [m] + Number(|data|, w) + ([tag] + data) == [m] + Number(|data|, w) + [tag] + data;
  }

  /** What the reader takes each family of scalars for. */
  lemma Families(w: nat)
    ensures w == 1 || w == 2 || w == 4 || w == 8 ==>
              && ShapeOf(ByWidth(w, 0xcc, 0xcd, 0xce, 0xcf)) == Octets(0, w)
              && ShapeOf(ByWidth(w, 0xd0, 0xd1, 0xd2, 0xd3)) == Octets(0, w)
    ensures w == 1 || w == 2 || w == 4 ==>
              && ShapeOf(ByWidth(w, 0xd9, 0xda, 0xdb, 0)) == Octets(w, 0)
              && ShapeOf(ByWidth(w, 0xc4, 0xc5, 0xc6, 0)) == Octets(w, 0)
              && ShapeOf(ByWidth(w, 0xc7, 0xc8, 0xc9, 0)) == Octets(w, 1)
    ensures w == 2 || w == 4 ==>
              && ShapeOf(ByWidth(w, 0, 0xdc, 0xdd, 0)) == Items(w, 0, 1)
              && ShapeOf(ByWidth(w, 0, 0xde, 0xdf, 0)) == Items(w, 0, 2)
  {
    assert Power(1) == 2 && Power(2) == 4 && Power(3) == 8;
  }

  lemma FixedExtensions(size: nat)
    requires size == 1 || size == 2 || size == 4 || size == 8 || size == 16
    ensures ShapeOf(ExtMarker(size)) == Octets(0, 1 + size)
  {
    assert Power(1) == 2 && Power(2) == 4 && Power(3) == 8 && Power(4) == 16;
  }

  lemma FixExtRead(tag: byte, data: Bytes, x: Bytes)
    requires Valid(FixExt(tag, data))
    ensures var b := [ExtMarker(|data|)] + [tag] + data; ParseOne(b + x).Done? && ParseOne(b + x).used == |b|
  {
    FixedExtensions(|data|);
    PayloadRead(ExtMarker(|data|), [tag] + data, x);
    assert [ExtMarker(|data|)] + [tag] + data == [ExtMarker(|data|)] + ([tag] + data);
  }

  lemma LeafRead(i: Item, x: Bytes)
    requires Valid(i) && !i.FixArray? && !i.Arr? && !i.FixMap? && !i.Map?
    ensures ParseOne(Write(i) + x).Done? && ParseOne(Write(i) + x).used == |Write(i)|
  {
    match i
    case UInt(w, n) => NumberRead(w, ByWidth(w, 0xcc, 0xcd, 0xce, 0xcf), n, x);
    case SInt(w, n) => NumberRead(w, ByWidth(w, 0xd0, 0xd1, 0xd2, 0xd3), if n < 0 then n + Bound(w) else n, x);
    case FixExt(tag, data) => FixExtRead(tag, data, x);
    case Str(w, text) => WideRead(i, w, x);
    case Bin(w, data) => WideRead(i, w, x);
    case Ext(w, tag, data) => WideRead(i, w, x);
    case _ => NarrowRead(i, x);
  }

  lemma NumberRead(w: nat, m: byte, n: nat, x: Bytes)
    requires Bound(w) > 0
    requires m == ByWidth(w, 0xcc, 0xcd, 0xce, 0xcf) || m == ByWidth(w, 0xd0, 0xd1, 0xd2, 0xd3)
    ensures var b := [m] + Number(n, w); ParseOne(b + x).Done? && ParseOne(b + x).used == |b|
  {
    BoundIsWeight(w);
    Families(w);
    PayloadRead(m, Number(n, w), x);
  }

  lemma WideRead(i: Item, w: nat, x: Bytes)
    requires Valid(i) && (i.Str? || i.Bin? || i.Ext?) && i.width == w
    ensures ParseOne(Write(i) + x).Done? && ParseOne(Write(i) + x).used == |Write(i)|
  {
    BoundIsWeight(w);
    Families(w);
    match i
    case Str(_, text) => SizedRead(ByWidth(w, 0xd9, 0xda, 0xdb, 0), w, text, x);
    case Bin(_, data) => SizedRead(ByWidth(w, 0xc4, 0xc5, 0xc6, 0), w, data, x);
    case Ext(_, tag, data) => ExtRead(ByWidth(w, 0xc7, 0xc8, 0xc9, 0), w, tag, data, x);
  }

  lemma NarrowRead(i: Item, x: Bytes)
    requires Valid(i) && (i.Nil? || i.Bool? || i.PositiveFixInt? || i.NegativeFixInt? || i.Float? || i.FixStr?)
    ensures ParseOne(Write(i) + x).Done? && ParseOne(Write(i) + x).used == |Write(i)|
  {
    var payload := if i.Float? then i.bits else if i.FixStr? then i.text else [];
    assert Write(i) == [Write(i)[0]] + payload;
    PayloadRead(Write(i)[0], payload, x);
  }

  /** Whatever follows it, an item is read as one value that ends where the item ends. */
  lemma {:induction false} ItemRead(i: Item, x: Bytes)
    requires Valid(i)
    ensures ParseOne(Write(i) + x).Done? && ParseOne(Write(i) + x).used == |Write(i)|
    decreases i, 1
  {
    match i
    case FixArray(items) =>
      ItemsRead(items, x);
      FixedNodeRead(0x90 + |items|, |items|, WriteAll(items), x);
    case Arr(w, items) =>
      ItemsRead(items, x);
      WideNodeRead(ByWidth(w, 0, 0xdc, 0xdd, 0), w, |items|, 1, WriteAll(items), x);
    case FixMap(es) =>
      EntriesRead(es, x);
      FixedNodeRead(0x80 + |es|, 2 * |es|, WriteEntries(es), x);
    case Map(w, es) =>
      EntriesRead(es, x);
      WideNodeRead(ByWidth(w, 0, 0xde, 0xdf, 0), w, |es|, 2, WriteEntries(es), x);
    case _ => LeafRead(i, x);
  }

  lemma FixedNodeRead(m: byte, count: nat, items: Bytes, x: Bytes)
    requires (0x90 <= m < 0xa0 && count == m - 0x90) || (0x80 <= m < 0x90 && count == 2 * (m - 0x80))
    requires ParseMany(items + x, count).Done? && ParseMany(items + x, count).used == |items|
    ensures var b := [m] + items; ParseOne(b + x).Done? && ParseOne(b + x).used == |b|
  {
    assert [m] + [] + items == [m] + items;
    NodeRead(m, [], count, items, x);
  }

  lemma WideNodeRead(m: byte, w: nat, n: nat, factor: nat, items: Bytes, x: Bytes)
    requires 2 <= w <= 4 && n < Bound(w)
    requires if factor == 1 then m == ByWidth(w, 0, 0xdc, 0xdd, 0) else factor == 2 && m == ByWidth(w, 0, 0xde, 0xdf, 0)
    requires ParseMany(items + x, factor * n).Done? && ParseMany(items + x, factor * n).used == |items|
    ensures var b := [m] + Number(n, w) + items; ParseOne(b + x).Done? && ParseOne(b + x).used == |b|
  {
    BoundIsWeight(w);
    Families(w);
    LengthBack(n, w);
    NodeRead(m, Number(n, w), factor * n, items, x);
  }

  lemma {:induction false} ItemsRead(items: seq<Item>, x: Bytes)
    requires forall k | 0 <= k < |items| :: Valid(items[k])
    ensures ParseMany(WriteAll(items) + x, |items|).Done? && ParseMany(WriteAll(items) + x, |items|).used == |WriteAll(items)|
    decreases items, 0
  {
    if items != [] {
      var first, rest := Write(items[0]), WriteAll(items[1..]);
      ItemRead(items[0], rest + x);
      ItemsRead(items[1..], x);
      OneMore(first, rest, x, |items| - 1);
    }
  }

  lemma OneMore(first: Bytes, rest: Bytes, x: Bytes, count: nat)
    requires ParseOne(first + (rest + x)).Done? && ParseOne(first + (rest + x)).used == |first|
    requires ParseMany(rest + x, count).Done? && ParseMany(rest + x, count).used == |rest|
    ensures ParseMany(first + rest + x, count + 1).Done? && ParseMany(first + rest + x, count + 1).used == |first + rest|
  {
    Assoc(first, rest, x);
    assert (first + (rest + x))[|first|..] == rest + x;
  }

  lemma TwoMore(key: Bytes, value: Bytes, rest: Bytes, x: Bytes, count: nat)
    requires ParseOne(key + (value + (rest + x))).Done? && ParseOne(key + (value + (rest + x))).used == |key|
    requires ParseOne(value + (rest + x)).Done? && ParseOne(value + (rest + x)).used == |value|
    requires ParseMany(rest + x, count).Done? && ParseMany(rest + x, count).used == |rest|
    ensures var b := key + value + rest; ParseMany(b + x, count + 2).Done? && ParseMany(b + x, count + 2).used == |b|
  {
    Assoc(value, rest, x);
    Assoc(key, value, rest);
    OneMore(value, rest, x, count);
    OneMore(key, value + rest, x, count + 1);
  }

  lemma {:induction false} EntryRead(e: Entry, rest: Bytes, x: Bytes, count: nat)
    requires ValidEntry(e) && ParseMany(rest + x, count).Done? && ParseMany(rest + x, count).used == |rest|
    ensures var b := WriteEntry(e) + rest; ParseMany(b + x, count + 2).Done? && ParseMany(b + x, count + 2).used == |b|
    decreases e, 2
  {
    ItemRead(e.key, Write(e.value) + (rest + x));
    ItemRead(e.value, rest + x);
    TwoMore(Write(e.key), Write(e.value), rest, x, count);
  }

  /** The values behind a map's marker are two for each entry. */
  lemma {:induction false} EntriesRead(es: seq<Entry>, x: Bytes)
    requires forall k | 0 <= k < |es| :: ValidEntry(es[k])
    ensures var p := ParseMany(WriteEntries(es) + x, 2 * |es|); p.Done? && p.used == |WriteEntries(es)|
    decreases es, 0
  {
    if es != [] {
      var count := 2 * |es[1..]|;
      EntriesRead(es[1..], x);
      EntryRead(es[0], WriteEntries(es[1..]), x, count);
      assert 2 * |es| == count + 2;
    }
  }

  // ------------------------------------------------------------------------
  // And nothing else is.
  // ------------------------------------------------------------------------

  lemma LastByte(q: nat, r: byte)
    ensures (256 * q + r) / 256 == q && (256 * q + r) % 256 == r
  {
  }

  lemma {:induction false} NumberAgain(b: Bytes)
    ensures Number(BigEndian(b), |b|) == b && BigEndian(b) < Weight(|b|)
    decreases |b|
  {
    if b != [] {
      var init, last := b[..|b|-1], b[|b|-1];
      NumberAgain(init);
      LastByte(BigEndian(init), last);
      assert BigEndian(b) == 256 * BigEndian(init) + last;
      assert init + [last] == b;
    }
  }

  lemma LengthAgain(length: Bytes)
    requires |length| == 1 || |length| == 2 || |length| == 4 || |length| == 8
    ensures Number(BigEndian(length), |length|) == length && BigEndian(length) < Bound(|length|)
  {
    NumberAgain(length);
    BoundIsWeight(|length|);
  }

  /** A scalar that the reader knows is one of the items. */
  lemma ScalarIsItem(m: byte, length: Bytes, payload: Bytes) returns (i: Item)
    requires WellFormed(Scalar(m, length, payload))
    ensures Valid(i) && Write(i) == [m] + length + payload
  {
    if ShapeOf(m).width > 0 {
      i := SizedIsItem(m, length, payload);
    } else {
      assert [m] + length + payload == [m] + payload;
      if 0xcc <= m <= 0xd3 {
        i := NumberIsItem(m, payload);
      } else if 0xd4 <= m <= 0xd8 {
        i := FixExtIsItem(m, payload);
      } else {
        i := NarrowIsItem(m, payload);
      }
    }
  }

  lemma FixExtIsItem(m: byte, payload: Bytes) returns (i: Item)
    requires 0xd4 <= m <= 0xd8 && ShapeOf(m) == Octets(0, |payload|)
    ensures Valid(i) && Write(i) == [m] + payload
  {
    assert Power(1) == 2 && Power(2) == 4 && Power(3) == 8 && Power(4) == 16;
    i := FixExt(payload[0], payload[1..]);
    assert [m] + payload == [m] + [payload[0]] + payload[1..];
  }

  /** Which families have a length, and which marker belongs to it. */
  lemma SizedMarker(m: byte)
    requires ShapeOf(m).Octets? && ShapeOf(m).width > 0
    ensures var w := ShapeOf(m).width;
            && (w == 1 || w == 2 || w == 4)
            && if m <= 0xc6 then ShapeOf(m).fixed == 0 && m == ByWidth(w, 0xc4, 0xc5, 0xc6, 0)
               else if m <= 0xc9 then ShapeOf(m).fixed == 1 && m == ByWidth(w, 0xc7, 0xc8, 0xc9, 0)
               else ShapeOf(m).fixed == 0 && m == ByWidth(w, 0xd9, 0xda, 0xdb, 0)
  {
  }

  lemma BinIsItem(w: nat, length: Bytes, payload: Bytes)
    requires 1 <= w <= 4 && |payload| < Bound(w) && Number(|payload|, w) == length
    ensures Valid(Bin(w, payload)) && Write(Bin(w, payload)) == [ByWidth(w, 0xc4, 0xc5, 0xc6, 0)] + length + payload
    ensures Valid(Str(w, payload)) && Write(Str(w, payload)) == [ByWidth(w, 0xd9, 0xda, 0xdb, 0)] + length + payload
  {
  }

  lemma ExtIsItem(w: nat, length: Bytes, payload: Bytes)
    requires 1 <= w <= 4 && payload != [] && |payload| - 1 < Bound(w) && Number(|payload| - 1, w) == length
    ensures var i := Ext(w, payload[0], payload[1..]);
            Valid(i) && Write(i) == [ByWidth(w, 0xc7, 0xc8, 0xc9, 0)] + length + payload
  {
    TagApart([ByWidth(w, 0xc7, 0xc8, 0xc9, 0)] + length, payload);
  }

  lemma SizedIsItem(m: byte, length: Bytes, payload: Bytes) returns (i: Item)
    requires ShapeOf(m).Octets? && ShapeOf(m).width == |length| > 0 && |payload| == BigEndian(length) + ShapeOf(m).fixed
    ensures Valid(i) && Write(i) == [m] + length + payload
  {
    SizedMarker(m);
    LengthAgain(length);
    if 0xc7 <= m <= 0xc9 {
      i := Ext(|length|, payload[0], payload[1..]);
      ExtIsItem(|length|, length, payload);
    } else {
      i := if m <= 0xc6 then Bin(|length|, payload) else Str(|length|, payload);
      BinIsItem(|length|, length, payload);
    }
  }

  lemma TagApart(head: Bytes, payload: Bytes)
    requires payload != []
    ensures head + [payload[0]] + payload[1..] == head + payload
  {
  }

  lemma NarrowIsItem(m: byte, payload: Bytes) returns (i: Item)
    requires m < 0xc0 || m == 0xc0 || m == 0xc2 || m == 0xc3 || m == 0xca || m == 0xcb || m >= 0xe0
    requires ShapeOf(m) == Octets(0, |payload|)
    ensures Valid(i) && Write(i) == [m] + payload
  {
    i := if m < 0x80 then PositiveFixInt(m)
         else if m < 0xc0 then FixStr(payload)
         else if m == 0xc0 then Nil
         else if m <= 0xc3 then Bool(m == 0xc3)
         else if m <= 0xcb then Float(payload)
         else NegativeFixInt(0x100 - m);
    assert Write(i) == [m] + payload;
  }

  lemma NumberIsItem(m: byte, payload: Bytes) returns (i: Item)
    requires 0xcc <= m <= 0xd3 && ShapeOf(m) == Octets(0, |payload|)
    ensures Valid(i) && Write(i) == [m] + payload
  {
    if m <= 0xcf {
      i := UnsignedIsItem(m, payload);
    } else {
      i := SignedIsItem(m, payload);
    }
  }

  /** The size that the marker of a number says. */
  lemma NumberSize(m: byte, size: nat)
    requires 0xcc <= m <= 0xd3 && ShapeOf(m) == Octets(0, size)
    ensures size == 1 || size == 2 || size == 4 || size == 8
    ensures m <= 0xcf ==> m == ByWidth(size, 0xcc, 0xcd, 0xce, 0xcf)
    ensures 0xd0 <= m ==> m == ByWidth(size, 0xd0, 0xd1, 0xd2, 0xd3)
  {
    assert Power(1) == 2 && Power(2) == 4 && Power(3) == 8;
  }

  lemma UnsignedIsItem(m: byte, payload: Bytes) returns (i: Item)
    requires 0xcc <= m <= 0xcf && ShapeOf(m) == Octets(0, |payload|)
    ensures Valid(i) && Write(i) == [m] + payload
  {
    NumberSize(m, |payload|);
    LengthAgain(payload);
    i := UInt(|payload|, BigEndian(payload));
  }

  lemma SignedIsItem(m: byte, payload: Bytes) returns (i: Item)
    requires 0xd0 <= m <= 0xd3 && ShapeOf(m) == Octets(0, |payload|)
    ensures Valid(i) && Write(i) == [m] + payload
  {
    var w, n := |payload|, BigEndian(payload);
    NumberSize(m, w);
    LengthAgain(payload);
    i := SignedOf(w, n);
  }

  /** The whole number that `n` is in two's complement. */
  lemma SignedOf(w: nat, n: nat) returns (i: Item)
    requires n < Bound(w)
    ensures i.SInt? && i.width == w && Valid(i) && n == if i.i < 0 then i.i + Bound(w) else i.i
  {
    i := SInt(w, if 2 * n < Bound(w) then n else n - Bound(w));
  }

  /** Every value that the reader knows is one of the items, and is written alike. */
  lemma {:induction false} ValueIsItem(v: Value) returns (i: Item)
    requires WellFormed(v)
    ensures Valid(i) && Write(i) == Encode(v)
    decreases v, 1
  {
    match v
    case Scalar(m, length, payload) => i := ScalarIsItem(m, length, payload);
    case Node(m, length, items) =>
      if 0x90 <= m < 0xa0 || 0xdc <= m <= 0xdd {
        var all := ValuesAreItems(items);
        i := ArrayIsItem(m, length, items, all);
      } else {
        var all := ValuesAreEntries(items);
        i := MapIsItem(m, length, items, all);
      }
  }

  lemma ArrayIsItem(m: byte, length: Bytes, values: seq<Value>, items: seq<Item>) returns (i: Item)
    requires (0x90 <= m < 0xa0 || 0xdc <= m <= 0xdd) && FitsShape(Node(m, length, values), ShapeOf(m)) && |items| == |values|
    requires (forall k | 0 <= k < |items| :: Valid(items[k])) && WriteAll(items) == EncodeAll(values)
    ensures Valid(i) && Write(i) == Encode(Node(m, length, values))
  {
    if m < 0xa0 {
      i := FixArray(items);
      assert [m] + length + EncodeAll(values) == [m] + EncodeAll(values);
    } else {
      i := Arr(|length|, items);
      WideNodeIsItem(m, length, |items|);
    }
  }

  /** The length and the marker of an array or a map of more than fifteen. */
  lemma WideNodeIsItem(m: byte, length: Bytes, n: nat)
    requires 0xdc <= m <= 0xdf && |length| == ShapeOf(m).width && n == BigEndian(length)
    ensures (|length| == 2 || |length| == 4) && n < Bound(|length|) && Number(n, |length|) == length
    ensures m == if m <= 0xdd then ByWidth(|length|, 0, 0xdc, 0xdd, 0) else ByWidth(|length|, 0, 0xde, 0xdf, 0)
  {
    LengthAgain(length);
  }

  lemma MapIsItem(m: byte, length: Bytes, values: seq<Value>, es: seq<Entry>) returns (i: Item)
    requires (0x80 <= m < 0x90 || 0xde <= m <= 0xdf) && FitsShape(Node(m, length, values), ShapeOf(m)) && 2 * |es| == |values|
    requires (forall k | 0 <= k < |es| :: ValidEntry(es[k])) && WriteEntries(es) == EncodeAll(values)
    ensures Valid(i) && Write(i) == Encode(Node(m, length, values))
  {
    if m < 0x90 {
      i := FixMap(es);
      assert [m] + length + EncodeAll(values) == [m] + EncodeAll(values);
    } else {
      i := Map(|length|, es);
      WideNodeIsItem(m, length, |es|);
    }
  }

  lemma {:induction false} ValuesAreItems(values: seq<Value>) returns (items: seq<Item>)
    requires forall k | 0 <= k < |values| :: WellFormed(values[k])
    ensures |items| == |values| && (forall k | 0 <= k < |items| :: Valid(items[k])) && WriteAll(items) == EncodeAll(values)
    decreases values, 0
  {
    items := [];
    if values != [] {
      var first := ValueIsItem(values[0]);
      var rest := ValuesAreItems(values[1..]);
      items := [first] + rest;
      assert items[1..] == rest;
    }
  }

  lemma {:induction false} ValuesAreEntries(values: seq<Value>) returns (es: seq<Entry>)
    requires (forall k | 0 <= k < |values| :: WellFormed(values[k])) && |values| % 2 == 0
    ensures 2 * |es| == |values| && (forall k | 0 <= k < |es| :: ValidEntry(es[k])) && WriteEntries(es) == EncodeAll(values)
    decreases values, 0
  {
    es := [];
    if values != [] {
      var key := ValueIsItem(values[0]);
      var value := ValueIsItem(values[1]);
      var rest := ValuesAreEntries(values[2..]);
      es := [Entry(key, value)] + rest;
      assert es[1..] == rest;
      EncodeTwo(values);
    }
  }

  lemma EncodeTwo(values: seq<Value>)
    requires |values| >= 2
    ensures EncodeAll(values) == Encode(values[0]) + Encode(values[1]) + EncodeAll(values[2..])
  {
    assert values[1..][1..] == values[2..] && values[1..][0] == values[1];
    Assoc(Encode(values[0]), Encode(values[1]), EncodeAll(values[2..]));
  }

  /** Whatever is read off the front of the input is an item of the format. */
  lemma ReadIsItem(b: Bytes) returns (i: Item)
    requires ParseOne(b).Done?
    ensures Valid(i) && Write(i) == b[..ParseOne(b).used]
  {
    EncodeParsed(b);
    i := ValueIsItem(ParseOne(b).value);
  }

  /** Less than an item is never enough. */
  lemma PartNeedsMore(i: Item, n: nat)
    requires Valid(i) && n < |Write(i)|
    ensures ParseOne(Write(i)[..n]).More?
  {
    var b, x := Write(i)[..n], Write(i)[n..];
    assert b + x == Write(i) && Write(i) + [] == Write(i);
    ItemRead(i, []);
    if !ParseOne(b).More? {
      ParseOneStable(b, x);
    }
  }

  /** The one marker without a family is refused. */
  lemma ReservedIsInvalid(x: Bytes)
    ensures ParseOne([0xc1] + x).Invalid?
  {
  }

  // ------------------------------------------------------------------------
  // Streams of items.
  // ------------------------------------------------------------------------

  /** The items are of the type asked for. */
  predicate Accepted(target: Target, items: seq<Item>) {
    forall k | 0 <= k < |items| ::
      Valid(items[k]) && var p := ParseOne(Write(items[k])); p.Done? && target.accepts(p.value)
  }

  lemma {:induction false} DrainItems(target: Target, items: seq<Item>)
    requires Consistent(target) && Accepted(target, items)
    ensures var d := Drain(target, WriteAll(items));
            && !d.failed && d.buf == [] && |d.frames| == |items|
            && forall k | 0 <= k < |items| :: d.frames[k].vec == Write(items[k])
    decreases |items|
  {
    if items != [] {
      var first, rest := Write(items[0]), WriteAll(items[1..]);
      ItemRead(items[0], []);
      assert first + [] == first;
      ParseOneStable(first, rest);
      assert (first + rest)[|first|..] == rest && (first + rest)[..|first|] == first;
      DrainItems(target, items[1..]);
    }
  }

  /** Items written one after the other become one frame each, of exactly their bytes, however the bytes are cut into reads. */
  lemma FramesAreItems(target: Target, items: seq<Item>, chunks: seq<Bytes>)
    requires Consistent(target) && Accepted(target, items) && Concat(chunks) == WriteAll(items)
    ensures var s := FedAll(target, Session([], [], false), chunks);
            && !s.failed && s.buf == [] && |s.frames| == |items|
            && forall k | 0 <= k < |items| :: s.frames[k].vec == Write(items[k])
  {
    FromTheStart(target, chunks);
    DrainItems(target, items);
  }
}
