/**
  Framing of MessagePack messages: `MsgPackCodec::decode` and the decoding loop of
  `start_msgpack_rpc` in cli/src/msgpack_rpc.rs. Values keep their marker and the bytes of
  their length, so that a value determines the bytes it was read from.
 */
module MsgPack {
  import opened Wrappers

  type Bytes = seq<byte>

  // ------------------------------------------------------------------------
  // The format.
  // ------------------------------------------------------------------------

  /**
    What follows a marker: `width` bytes with a big-endian number, to which `fixed` is added,
    and then that many bytes, or `factor` times that many values.
   */
  datatype Shape = Reserved | Octets(width: nat, fixed: nat) | Items(width: nat, fixed: nat, factor: nat)

  function ShapeOf(m: byte): Shape {
    if m < 0x80 then Octets(0, 0)                       // positive fixint
    else if m < 0x90 then Items(0, m - 0x80, 2)         // fixmap
    else if m < 0xa0 then Items(0, m - 0x90, 1)         // fixarray
    else if m < 0xc0 then Octets(0, m - 0xa0)           // fixstr
    else if m == 0xc1 then Reserved
    else if m <= 0xc3 then Octets(0, 0)                 // nil, false, true
    else if m <= 0xc6 then Octets(Width(m - 0xc4), 0)   // bin 8, 16, 32
    else if m <= 0xc9 then Octets(Width(m - 0xc7), 1)   // ext 8, 16, 32
    else if m == 0xca then Octets(0, 4)                 // float 32
    else if m == 0xcb then Octets(0, 8)                 // float 64
    else if m <= 0xcf then Octets(0, Power(m - 0xcc))   // uint 8, 16, 32, 64
    else if m <= 0xd3 then Octets(0, Power(m - 0xd0))   // int 8, 16, 32, 64
    else if m <= 0xd8 then Octets(0, 1 + Power(m - 0xd4)) // fixext 1, 2, 4, 8, 16
    else if m <= 0xdb then Octets(Width(m - 0xd9), 0)   // str 8, 16, 32
    else if m <= 0xdd then Items(Width(m - 0xdb), 0, 1) // array 16, 32
    else if m <= 0xdf then Items(Width(m - 0xdd), 0, 2) // map 16, 32
    else Octets(0, 0)                                   // negative fixint
  }

  function Width(k: nat): nat {
    if k == 0 then 1 else if k == 1 then 2 else 4
  }

  function Power(k: nat): nat {
    if k == 0 then 1 else 2 * Power(k - 1)
  }

  function BigEndian(b: Bytes): nat {
    if b == [] then 0 else 256 * BigEndian(b[..|b|-1]) + b[|b|-1]
  }

  datatype Value =
    | Scalar(marker: byte, length: Bytes, payload: Bytes)
    | Node(marker: byte, length: Bytes, items: seq<Value>)

  predicate WellFormed(v: Value)
    decreases v, 1
  {
    FitsShape(v, ShapeOf(v.marker))
  }

  predicate FitsShape(v: Value, shape: Shape)
    decreases v, 0
  {
    match v
    case Scalar(_, length, payload) =>
      shape.Octets? && |length| == shape.width && |payload| == BigEndian(length) + shape.fixed
    case Node(_, length, items) =>
      && shape.Items? && |length| == shape.width && |items| == shape.factor * (BigEndian(length) + shape.fixed)
      && forall i | 0 <= i < |items| :: WellFormed(items[i])
  }

  function Encode(v: Value): (b: Bytes)
    ensures |b| > 0
    decreases v, 1
  {
    match v
    case Scalar(m, length, payload) => [m] + length + payload
    case Node(m, length, items) => [m] + length + EncodeAll(items)
  }

  function EncodeAll(items: seq<Value>): Bytes
    decreases items, 0
  {
    if items == [] then [] else Encode(items[0]) + EncodeAll(items[1..])
  }

  // ------------------------------------------------------------------------
  // Reading a value off the front of the input.
  // ------------------------------------------------------------------------

  /** The end of the input came too early, or the input is wrong, or a value took `used` bytes. */
  datatype Parsed<+T> = More | Invalid | Done(value: T, used: nat)

  function ParseOne(b: Bytes): (p: Parsed<Value>)
    ensures p.Done? ==> 1 <= p.used <= |b|
    decreases |b|, 1
  {
    if b == [] then More else ParseShaped(b, ShapeOf(b[0]))
  }

  /** The same, when the marker is known to announce `shape`. */
  function ParseShaped(b: Bytes, shape: Shape): (p: Parsed<Value>)
    requires b != []
    ensures p.Done? ==> 1 <= p.used <= |b|
    decreases |b|, 0
  {
    if shape.Reserved? then Invalid
    else
      var head := 1 + shape.width;
      if |b| < head then More
      else
        var length := b[1..head];
        var count := BigEndian(length) + shape.fixed;
        if shape.Octets? then
          if |b| < head + count then More
          else Done(Scalar(b[0], length, b[head..head + count]), head + count)
        else
          match ParseMany(b[head..], shape.factor * count)
          case More => More
          case Invalid => Invalid
          case Done(items, used) => Done(Node(b[0], length, items), head + used)
  }

  function ParseMany(b: Bytes, count: nat): (p: Parsed<seq<Value>>)
    ensures p.Done? ==> p.used <= |b| && |p.value| == count
    decreases |b|, 2
  {
    if count == 0 then Done([], 0)
    else
      match ParseOne(b)
      case More => More
      case Invalid => Invalid
      case Done(v, used) =>
        match ParseMany(b[used..], count - 1)
        case More => More
        case Invalid => Invalid
        case Done(vs, rest) => Done([v] + vs, used + rest)
  }

  lemma SliceOfMore(b: Bytes, x: Bytes, i: nat, j: nat)
    requires i <= j <= |b|
    ensures (b + x)[i..j] == b[i..j]
  {
  }

  lemma RestOfMore(b: Bytes, x: Bytes, i: nat)
    requires i <= |b|
    ensures (b + x)[i..] == b[i..] + x
  {
  }

  /** A verdict on some input does not change when more input arrives. */
  lemma {:induction false} ParseOneStable(b: Bytes, x: Bytes)
    requires !ParseOne(b).More?
    ensures ParseOne(b + x) == ParseOne(b)
    decreases |b|, 1
  {
    ParseShapedStable(b, ShapeOf(b[0]), x);
  }

  lemma {:induction false} ParseShapedStable(b: Bytes, shape: Shape, x: Bytes)
    requires b != [] && !ParseShaped(b, shape).More?
    ensures ParseShaped(b + x, shape) == ParseShaped(b, shape)
    decreases |b|, 0
  {
    if shape.Octets? {
      OctetsStable(b, shape, x);
    } else if shape.Items? {
      var head := 1 + shape.width;
      var count := shape.factor * (BigEndian(b[1..head]) + shape.fixed);
      ParseManyStable(b[head..], count, x);
      ItemsStable(b, shape, x, count);
    }
  }

  lemma OctetsStable(b: Bytes, shape: Shape, x: Bytes)
    requires b != [] && shape.Octets? && !ParseShaped(b, shape).More?
    ensures ParseShaped(b + x, shape) == ParseShaped(b, shape)
  {
    var head := 1 + shape.width;
    SliceOfMore(b, x, 1, head);
    SliceOfMore(b, x, head, head + BigEndian(b[1..head]) + shape.fixed);
  }

  lemma ItemsStable(b: Bytes, shape: Shape, x: Bytes, count: nat)
    requires b != [] && shape.Items? && 1 + shape.width <= |b|
    requires count == shape.factor * (BigEndian(b[1..1 + shape.width]) + shape.fixed)
    requires ParseMany(b[1 + shape.width..] + x, count) == ParseMany(b[1 + shape.width..], count)
    ensures ParseShaped(b + x, shape) == ParseShaped(b, shape)
  {
    SliceOfMore(b, x, 1, 1 + shape.width);
    RestOfMore(b, x, 1 + shape.width);
  }

  lemma {:induction false} ParseManyStable(b: Bytes, count: nat, x: Bytes)
    requires !ParseMany(b, count).More?
    ensures ParseMany(b + x, count) == ParseMany(b, count)
    decreases |b|, 2
  {
    if count > 0 {
      ParseOneStable(b, x);
      var p := ParseOne(b);
      if p.Done? {
        ParseManyStable(b[p.used..], count - 1, x);
        RestOfMore(b, x, p.used);
      }
    }
  }

  /** Reading back what was written, whatever follows it. */
  lemma {:induction false} ParseEncoded(v: Value, x: Bytes)
    requires WellFormed(v)
    ensures ParseOne(Encode(v) + x) == Done(v, |Encode(v)|)
    decreases v, 1
  {
    var b, shape := Encode(v) + x, ShapeOf(v.marker);
    assert b[0] == v.marker;
    match v
    case Scalar(m, length, payload) =>
      ScalarEncoded(m, length, payload, shape, x);
    case Node(m, length, items) =>
      ParseAllEncoded(items, x);
      NodeEncoded(m, length, items, shape, x);
  }

  lemma ScalarEncoded(m: byte, length: Bytes, payload: Bytes, shape: Shape, x: Bytes)
    requires shape.Octets? && |length| == shape.width && |payload| == BigEndian(length) + shape.fixed
    ensures var e := [m] + length + payload;
            ParseShaped(e + x, shape) == Done(Scalar(m, length, payload), |e|)
  {
    var b := [m] + length + payload + x;
    var head := 1 + |length|;
    assert b[1..head] == length && b[head..head + |payload|] == payload;
  }

  lemma NodeEncoded(m: byte, length: Bytes, items: seq<Value>, shape: Shape, x: Bytes)
    requires shape.Items? && |length| == shape.width && |items| == shape.factor * (BigEndian(length) + shape.fixed)
    requires ParseMany(EncodeAll(items) + x, |items|) == Done(items, |EncodeAll(items)|)
    ensures var e := [m] + length + EncodeAll(items);
            ParseShaped(e + x, shape) == Done(Node(m, length, items), |e|)
  {
    var b := [m] + length + EncodeAll(items) + x;
    var head := 1 + |length|;
    assert b[1..head] == length && b[head..] == EncodeAll(items) + x;
  }

  lemma {:induction false} ParseAllEncoded(items: seq<Value>, x: Bytes)
    requires forall i | 0 <= i < |items| :: WellFormed(items[i])
    ensures ParseMany(EncodeAll(items) + x, |items|) == Done(items, |EncodeAll(items)|)
    decreases items, 0
  {
    if items != [] {
      var first, rest := Encode(items[0]), EncodeAll(items[1..]);
      Assoc(first, rest, x);
      assert [items[0]] + items[1..] == items;
      ParseEncoded(items[0], rest + x);
      ParseAllEncoded(items[1..], x);
      ParseCons(items[0], first, items[1..], rest, x);
    }
  }

  lemma ParseCons(v: Value, first: Bytes, vs: seq<Value>, rest: Bytes, x: Bytes)
    requires ParseOne(first + (rest + x)) == Done(v, |first|)
    requires ParseMany(rest + x, |vs|) == Done(vs, |rest|)
    ensures ParseMany(first + (rest + x), |vs| + 1) == Done([v] + vs, |first| + |rest|)
  {
    assert (first + (rest + x))[|first|..] == rest + x;
  }

  /** Writing again what was read gives the bytes it was read from. */
  lemma {:induction false} EncodeParsed(b: Bytes)
    requires ParseOne(b).Done?
    ensures WellFormed(ParseOne(b).value) && Encode(ParseOne(b).value) == b[..ParseOne(b).used]
    decreases |b|, 1
  {
    EncodeShaped(b, ShapeOf(b[0]));
  }

  lemma TwoParts(b: Bytes, k: nat, more: nat)
    requires k + more <= |b|
    ensures b[..k] + b[k..][..more] == b[..k + more]
  {
  }

  lemma CutApart(b: Bytes, k: nat)
    requires k <= |b|
    ensures b[..k] + b[k..] == b
  {
  }

  lemma ThreeParts(b: Bytes, head: nat, used: nat)
    requires 1 <= head <= used <= |b|
    ensures [b[0]] + b[1..head] + b[head..used] == b[..used] && b[head..][..used - head] == b[head..used]
  {
  }

  lemma {:induction false} EncodeShaped(b: Bytes, shape: Shape)
    requires b != [] && ParseShaped(b, shape).Done?
    ensures var p := ParseShaped(b, shape);
            p.value.marker == b[0] && FitsShape(p.value, shape) && Encode(p.value) == b[..p.used]
    decreases |b|, 0
  {
    var head := 1 + shape.width;
    var p := ParseShaped(b, shape);
    ThreeParts(b, head, p.used);
    if shape.Items? {
      EncodeAllParsed(b[head..], |p.value.items|);
    }
  }

  lemma {:induction false} EncodeAllParsed(b: Bytes, count: nat)
    requires ParseMany(b, count).Done?
    ensures var p := ParseMany(b, count);
            && (forall i | 0 <= i < |p.value| :: WellFormed(p.value[i]))
            && EncodeAll(p.value) == b[..p.used]
    decreases |b|, 2
  {
    if count > 0 {
      EncodeParsed(b);
      var k := ParseOne(b).used;
      EncodeAllParsed(b[k..], count - 1);
      var q := ParseMany(b[k..], count - 1);
      assert ([ParseOne(b).value] + q.value)[1..] == q.value;
      TwoParts(b, k, q.used);
    }
  }

  // ------------------------------------------------------------------------
  // Frames.
  // ------------------------------------------------------------------------

  /** A decoded object and the bytes it came from. */
  datatype Decoded = Decoded(obj: Value, vec: Bytes)

  datatype DecodeResult = NeedMore | Fault | Frame(decoded: Decoded)

  /**
    The type asked for: which values are of it, and which beginnings of values are refused before
    they are complete.
   */
  datatype Target = Target(accepts: Value -> bool, refuses: Bytes -> bool)

  /** What is refused early would be refused later; and nothing is refused before it begins. */
  ghost predicate Consistent(target: Target) {
    && !target.refuses([])
    && forall buf, more | ParseOne(buf).More? && target.refuses(buf) ::
         && (ParseOne(buf + more).More? ==> target.refuses(buf + more))
         && (ParseOne(buf + more).Done? ==> !target.accepts(ParseOne(buf + more).value))
  }

  /** `decode`, and what it leaves in the buffer. */
  function DecodeOne(target: Target, buf: Bytes): (DecodeResult, Bytes) {
    match ParseOne(buf)
    case More => (if target.refuses(buf) then Fault else NeedMore, buf)
    case Invalid => (Fault, buf)
    case Done(v, used) =>
      if target.accepts(v) then (Frame(Decoded(v, buf[..used])), buf[used..]) else (Fault, buf)
  }

  /** What a reader has made of its input so far. */
  datatype Session = Session(frames: seq<Decoded>, buf: Bytes, failed: bool)

  /** Decoding until more input is needed, or an error ends the connection. */
  function Drain(target: Target, buf: Bytes): (s: Session)
    ensures |s.buf| <= |buf|
    decreases |buf|
  {
    match ParseOne(buf)
    case More => Session([], buf, target.refuses(buf))
    case Invalid => Session([], buf, true)
    case Done(v, used) =>
      if target.accepts(v) then
        var rest := Drain(target, buf[used..]);
        rest.(frames := [Decoded(v, buf[..used])] + rest.frames)
      else
        Session([], buf, true)
  }

  /** One read of the loop. */
  function Fed(target: Target, s: Session, chunk: Bytes): Session {
    if s.failed then s
    else
      var d := Drain(target, s.buf + chunk);
      d.(frames := s.frames + d.frames)
  }

  function FedAll(target: Target, s: Session, chunks: seq<Bytes>): Session
    decreases |chunks|
  {
    if chunks == [] then s else FedAll(target, Fed(target, s, chunks[0]), chunks[1..])
  }

  function Raw(frames: seq<Decoded>): Bytes {
    if frames == [] then [] else frames[0].vec + Raw(frames[1..])
  }

  predicate Exact(target: Target, f: Decoded) {
    WellFormed(f.obj) && Encode(f.obj) == f.vec && target.accepts(f.obj)
  }

  lemma RawCons(f: Decoded, rest: seq<Decoded>)
    ensures Raw([f] + rest) == f.vec + Raw(rest)
  {
    assert ([f] + rest)[1..] == rest;
  }

  lemma FrameFirst(f: Decoded, rest: Session)
    ensures Raw([f] + rest.frames) + rest.buf == f.vec + (Raw(rest.frames) + rest.buf)
  {
    RawCons(f, rest.frames);
    Assoc(f.vec, Raw(rest.frames), rest.buf);
  }

  /** The bytes of the frames and the buffer are the bytes of the input. */
  lemma {:induction false} DrainConserves(target: Target, buf: Bytes)
    ensures Raw(Drain(target, buf).frames) + Drain(target, buf).buf == buf
    decreases |buf|
  {
    var p := ParseOne(buf);
    if p.Done? && target.accepts(p.value) {
      DrainConserves(target, buf[p.used..]);
      FrameFirst(Decoded(p.value, buf[..p.used]), Drain(target, buf[p.used..]));
      CutApart(buf, p.used);
    }
  }

  /** Every frame re-encodes to the bytes it came from. */
  lemma {:induction false} DrainIsExact(target: Target, buf: Bytes)
    ensures forall f | f in Drain(target, buf).frames :: Exact(target, f)
    decreases |buf|
  {
    var p := ParseOne(buf);
    if p.Done? && target.accepts(p.value) {
      EncodeParsed(buf);
      DrainIsExact(target, buf[p.used..]);
    }
  }

  /** Decoding what is left after `d`, as one session with it. */
  function Then(d: Session, e: Session): Session {
    Session(d.frames + e.frames, e.buf, e.failed)
  }

  lemma ThenAssociates(f: Decoded, d: Session, e: Session)
    ensures Then(Session([f] + d.frames, d.buf, d.failed), e) == Then(Session([f], [], false), Then(d, e))
  {
    assert [f] + d.frames + e.frames == [f] + (d.frames + e.frames);
  }

  /** What arrives later does not change what was decoded before. */
  lemma {:induction false} DrainMore(target: Target, buf: Bytes, x: Bytes)
    requires Consistent(target)
    ensures var d := Drain(target, buf);
            Drain(target, buf + x) ==
            if d.failed then d.(buf := d.buf + x) else Then(d, Drain(target, d.buf + x))
    decreases |buf|
  {
    var p := ParseOne(buf);
    if p.More? {
      assert [] + Drain(target, buf + x).frames == Drain(target, buf + x).frames;
    } else {
      ParseOneStable(buf, x);
      if p.Done? && target.accepts(p.value) {
        SliceOfMore(buf, x, 0, p.used);
        RestOfMore(buf, x, p.used);
        DrainMore(target, buf[p.used..], x);
        var d := Drain(target, buf[p.used..]);
        ThenAssociates(Decoded(p.value, buf[..p.used]), d, Drain(target, d.buf + x));
      }
    }
  }

  /** Sessions that a peer cannot tell apart: same frames, same verdict, and the same leftover unless it failed. */
  predicate Same(a: Session, b: Session) {
    a.frames == b.frames && a.failed == b.failed && (!a.failed ==> a.buf == b.buf)
  }

  /** Two reads decode what one read of both decodes. */
  lemma FeedTwice(target: Target, s: Session, x: Bytes, y: Bytes)
    requires Consistent(target)
    ensures Same(Fed(target, Fed(target, s, x), y), Fed(target, s, x + y))
  {
    if !s.failed {
      Assoc(s.buf, x, y);
      DrainMore(target, s.buf + x, y);
      var d := Drain(target, s.buf + x);
      Assoc(s.frames, d.frames, Drain(target, d.buf + y).frames);
    }
  }

  /** A session that stops for want of input. */
  ghost predicate Settled(target: Target, s: Session) {
    s.failed || (ParseOne(s.buf).More? && !target.refuses(s.buf))
  }

  lemma {:induction false} DrainSettles(target: Target, buf: Bytes)
    ensures Settled(target, Drain(target, buf))
    decreases |buf|
  {
    var p := ParseOne(buf);
    if p.Done? && target.accepts(p.value) {
      DrainSettles(target, buf[p.used..]);
    }
  }

  /**
    Framing does not depend on fragmentation: however the bytes of the peer are cut into
    reads, the frames, their raw bytes, the first error and the leftover are those of a
    single read of all of them.
   */
  lemma {:induction false} FragmentationIndependent(target: Target, s: Session, chunks: seq<Bytes>)
    requires Consistent(target) && Settled(target, s)
    ensures Same(FedAll(target, s, chunks), Fed(target, s, Concat(chunks)))
    decreases |chunks|
  {
    if chunks == [] {
      assert s.buf + [] == s.buf;
      assert s.frames + [] == s.frames;
    } else {
      var s1 := Fed(target, s, chunks[0]);
      if !s.failed {
        DrainSettles(target, s.buf + chunks[0]);
      }
      FragmentationIndependent(target, s1, chunks[1..]);
      FeedTwice(target, s, chunks[0], Concat(chunks[1..]));
    }
  }

  /** What a new reader makes of its input, however it is cut. */
  lemma FromTheStart(target: Target, chunks: seq<Bytes>)
    requires Consistent(target)
    ensures Same(FedAll(target, Session([], [], false), chunks), Drain(target, Concat(chunks)))
  {
    FragmentationIndependent(target, Session([], [], false), chunks);
    assert [] + Concat(chunks) == Concat(chunks);
    assert [] + Drain(target, Concat(chunks)).frames == Drain(target, Concat(chunks)).frames;
  }

  /** Until an error, every byte that was read is in exactly one frame or still in the buffer. */
  lemma {:induction false} NothingIsLost(target: Target, chunks: seq<Bytes>)
    requires Consistent(target)
    ensures var s := FedAll(target, Session([], [], false), chunks);
            && (!s.failed ==> Raw(s.frames) + s.buf == Concat(chunks))
            && Raw(s.frames) <= Concat(chunks)
            && forall f | f in s.frames :: Exact(target, f)
  {
    FragmentationIndependent(target, Session([], [], false), chunks);
    DrainConserves(target, Concat(chunks));
    DrainIsExact(target, Concat(chunks));
    assert [] + Concat(chunks) == Concat(chunks);
    var d := Drain(target, Concat(chunks));
    assert [] + d.frames == d.frames;
  }

  /** Messages that are written one after the other are read as they were written, however they are cut. */
  lemma {:induction false} MessagesArrive(target: Target, msgs: seq<Value>, chunks: seq<Bytes>)
    requires Consistent(target) && forall m | m in msgs :: WellFormed(m) && target.accepts(m)
    requires Concat(chunks) == EncodeAll(msgs)
    ensures var s := FedAll(target, Session([], [], false), chunks);
            && !s.failed && s.buf == [] && |s.frames| == |msgs|
            && forall i | 0 <= i < |msgs| :: s.frames[i] == Decoded(msgs[i], Encode(msgs[i]))
  {
    FragmentationIndependent(target, Session([], [], false), chunks);
    DrainEncoded(target, msgs);
    assert [] + Concat(chunks) == Concat(chunks);
  }

  lemma {:induction false} DrainEncoded(target: Target, msgs: seq<Value>)
    requires Consistent(target) && forall m | m in msgs :: WellFormed(m) && target.accepts(m)
    ensures var d := Drain(target, EncodeAll(msgs));
            && !d.failed && d.buf == [] && |d.frames| == |msgs|
            && forall i | 0 <= i < |msgs| :: d.frames[i] == Decoded(msgs[i], Encode(msgs[i]))
    decreases |msgs|
  {
    if msgs != [] {
      var first, rest := Encode(msgs[0]), EncodeAll(msgs[1..]);
      ParseEncoded(msgs[0], rest);
      assert (first + rest)[|first|..] == rest && (first + rest)[..|first|] == first;
      DrainEncoded(target, msgs[1..]);
    }
  }

  // ------------------------------------------------------------------------
  // The decoder and the reading loop, over a buffer advanced in place.
  // ------------------------------------------------------------------------

  class BytesMut {
    var data: Bytes

    constructor ()
      ensures data == []
    {
      data := [];
    }

    method Extend(chunk: Bytes)
      modifies this
      ensures data == old(data) + chunk
    {
      data := data + chunk;
    }

    method Advance(n: nat)
      requires n <= |data|
      modifies this
      ensures data == old(data)[n..]
    {
      data := data[n..];
    }
  }

  /** One turn of decoding. */
  lemma DrainStep(target: Target, buf: Bytes)
    ensures var (r, rest) := DecodeOne(target, buf);
            match r
            case NeedMore => rest == buf && Drain(target, buf) == Session([], buf, false)
            case Fault => rest == buf && Drain(target, buf) == Session([], buf, true)
            case Frame(d) => |rest| < |buf| && Drain(target, buf) == Then(Session([d], [], false), Drain(target, rest))
  {
  }

  class MsgPackCodec {
    const target: Target

    constructor (target: Target)
      ensures this.target == target
    {
      this.target := target;
    }

    method Decode(src: BytesMut) returns (r: DecodeResult)
      modifies src
      ensures (r, src.data) == DecodeOne(target, old(src.data))
    {
      match ParseOne(src.data) {
        case More =>
          return if target.refuses(src.data) then Fault else NeedMore;
        case Invalid =>
          return Fault;
        case Done(v, used) =>
          if !target.accepts(v) {
            return Fault;
          }
          var vec := src.data[..used];
          src.Advance(used);
          return Frame(Decoded(v, vec));
      }
    }

    /** One read of the service loop: frames are dispatched until `decode` asks for more. */
    method Feed(src: BytesMut, chunk: Bytes) returns (frames: seq<Decoded>, failed: bool)
      modifies src
      ensures Session(frames, src.data, failed) == Drain(target, old(src.data) + chunk)
    {
      src.Extend(chunk);
      frames, failed := [], false;
      while true
        invariant !failed
        invariant Then(Session(frames, [], false), Drain(target, src.data)) == Drain(target, old(src.data) + chunk)
        decreases |src.data|
      {
        DrainStep(target, src.data);
        var r := Decode(src);
        match r {
          case NeedMore =>
            return;
          case Fault =>
            failed := true;
            return;
          case Frame(d) =>
            ghost var rest := Drain(target, src.data);
            assert frames + ([d] + rest.frames) == frames + [d] + rest.frames;
            frames := frames + [d];
        }
      }
    }
  }
}
