/**
 * The framing layer (`Enquadramento`): frames are `type ++ length ++ payload`, the length
 * field being big-endian and 2 bytes wide for text and ping frames, 4 bytes for binary
 * frames. Outbound frames are built in one piece; inbound bytes drive a three-state
 * decoder (Idle, RxLength, RxData) that hands `(payload[0], payload[1..], type)` upward
 * when a frame completes, and an inter-byte timeout resets it.
 *
 * Timers are an armed/disarmed flag; a timeout is an explicit event.
 */
module Framing {
  import opened Wrappers
  import opened Bytes

  /** The byte values of the three frame types (text message, binary, ping). */
  datatype TypeCodes = TypeCodes(text: byte, binary: byte, ping: byte)

  predicate Distinct(c: TypeCodes)
  {
    c.text != c.binary && c.text != c.ping && c.binary != c.ping
  }

  predicate IsType(c: TypeCodes, t: byte)
  {
    t == c.text || t == c.binary || t == c.ping
  }

  /** Width of the length field a frame type carries (binary frames use 4 bytes). */
  function WidthOf(c: TypeCodes, t: byte): nat
  {
    if t == c.text then 2 else if t == c.binary then 4 else 2
  }

  // ---------------------------------------------------------------------------------------
  // Outbound frames

  /**
   * The length field for `n` payload bytes in a field of `width` bytes. A length that does
   * not fit (or a width other than 2 or 4) yields no field at all.
   */
  function LengthField(width: nat, n: nat): (f: seq<byte>)
    ensures (width == 2 && n <= MaxValue(2)) || (width == 4 && n <= MaxValue(4)) ==>
              |f| == width && FromBE(f) == n
    ensures !((width == 2 && n <= 65535) || (width == 4 && n <= 4294967295)) ==> f == []
  {
    if width == 2 && n <= 65535 then ToBE(n, 2)
    else if width == 4 && n <= 4294967295 then ToBE(n, 4)
    else []
  }

  /** A frame: the type byte, the length field, then the payload bytes unchanged. */
  function Encode(t: byte, width: nat, payload: seq<byte>): (frame: seq<byte>)
    ensures |frame| == 1 + |LengthField(width, |payload|)| + |payload|
    ensures frame[0] == t
    ensures frame[|frame| - |payload|..] == payload
  {
    [t] + LengthField(width, |payload|) + payload
  }

  /** Frames whose payload fits the field: `1 + width + |payload|` bytes, decodable length. */
  lemma EncodeFits(t: byte, width: nat, payload: seq<byte>)
    requires width == 2 || width == 4
    requires |payload| <= MaxValue(width)
    ensures var f := Encode(t, width, payload);
      |f| == 1 + width + |payload| && f[0] == t &&
      FromBE(f[1..1 + width]) == |payload| && f[1 + width..] == payload
  {
    var f := Encode(t, width, payload);
    assert f[1..1 + width] == LengthField(width, |payload|);
  }

  /** An oversize payload loses its length field but is still sent whole. */
  lemma EncodeOversize(t: byte, width: nat, payload: seq<byte>)
    requires width == 2 || width == 4
    requires |payload| > MaxValue(width)
    ensures Encode(t, width, payload) == [t] + payload
    ensures |Encode(t, width, payload)| == 1 + |payload|
  {
  }

  // ---------------------------------------------------------------------------------------
  // The decoder

  datatype Phase = Idle | RxLength | RxData

  /**
   * Decoder state. `kind` is the stored type byte of the frame being received (the source
   * starts it at integer 0, never read before a type byte overwrites it); `ping` records
   * that a ping frame started and survives resets until a ping frame is sent.
   */
  datatype Decoder = Decoder(
    phase: Phase,
    width: nat,             // bytes of length field expected
    expected: nat,          // payload length announced by the length field
    lengthField: seq<byte>, // length bytes received so far
    data: seq<byte>,        // payload bytes received so far
    kind: byte,
    ping: bool,
    timerArmed: bool)

  /** What a completed frame hands to the ARQ layer. */
  datatype Delivery = Delivery(control: byte, data: seq<byte>, kind: byte)

  function Init(): Decoder
  {
    Decoder(Idle, 0, 0, [], [], 0, false, false)
  }

  /** Per-phase invariant on the accumulators. */
  predicate Inv(d: Decoder)
  {
    match d.phase
    case Idle => d.width == 0 && d.expected == 0 && d.lengthField == [] && d.data == []
    case RxLength =>
      (d.width == 2 || d.width == 4) && |d.lengthField| < d.width && d.data == [] && d.expected == 0
    case RxData =>
      (d.width == 2 || d.width == 4) && |d.lengthField| == d.width &&
      d.expected == FromBE(d.lengthField) &&
      (|d.data| < d.expected || (d.expected == 0 && d.data == []))
  }

  /** Clears the counters and both accumulators; phase, type, ping flag and timer stay. */
  function Cleared(d: Decoder): Decoder
  {
    d.(width := 0, expected := 0, lengthField := [], data := [])
  }

  function OnIdle(c: TypeCodes, d: Decoder, b: byte): (d': Decoder)
    ensures !IsType(c, b) ==> d' == d
    ensures IsType(c, b) ==>
      d' == d.(phase := RxLength, kind := b, width := WidthOf(c, b), timerArmed := true,
               ping := d.ping || (b == c.ping && b != c.text && b != c.binary))
  {
    if b == c.text then
      d.(kind := b, width := 2, timerArmed := true, phase := RxLength)
    else if b == c.binary then
      d.(kind := b, width := 4, timerArmed := true, phase := RxLength)
    else if b == c.ping then
      d.(kind := b, width := 2, timerArmed := true, ping := true, phase := RxLength)
    else
      d
  }

  function OnLength(d: Decoder, b: byte): Decoder
  {
    if |d.lengthField| < d.width - 1 then
      d.(lengthField := d.lengthField + [b], phase := RxLength, timerArmed := true)
    else if |d.lengthField| == d.width - 1 then
      var f := d.lengthField + [b];
      d.(lengthField := f, expected := FromBE(f), phase := RxData, timerArmed := true)
    else
      d
  }

  function OnData(d: Decoder, b: byte): (Decoder, Option<Delivery>)
  {
    if |d.data| < d.expected - 1 then
      (d.(data := d.data + [b], timerArmed := true, phase := RxData), None)
    else if |d.data| == d.expected - 1 then
      var p := d.data + [b];
      (Cleared(d).(phase := Idle, timerArmed := false), Some(Delivery(p[0], p[1..], d.kind)))
    else
      (d, None)
  }

  /** One received byte (`handle_fsm`). */
  function Step(c: TypeCodes, d: Decoder, b: byte): (r: (Decoder, Option<Delivery>))
    ensures r.1.Some? ==> d.phase == RxData && r.0 == Timeout(d) && r.1.value.kind == d.kind
    ensures r.1.Some? ==> [r.1.value.control] + r.1.value.data == d.data + [b]
    ensures r.1.None? && d.phase != Idle ==> r.0.timerArmed || r.0 == d
  {
    match d.phase
    case Idle => (OnIdle(c, d, b), None)
    case RxLength => (OnLength(d, b), None)
    case RxData => OnData(d, b)
  }

  /** The inter-byte timeout (`handle_timeout`): reset to Idle, never surfaced upward. */
  function Timeout(d: Decoder): (d': Decoder)
    ensures d'.phase == Idle && !d'.timerArmed && Inv(d')
    ensures d'.lengthField == [] && d'.data == []
    ensures d'.ping == d.ping && d'.kind == d.kind
  {
    Cleared(d).(phase := Idle, timerArmed := false)
  }

  /**
   * The timer is armed only while a frame is being received, so a timeout can only reach a
   * decoder that is not Idle; on an Idle decoder with the timer off it would change nothing.
   */
  lemma IdleTimeoutChangesNothing(d: Decoder)
    requires Inv(d) && d.phase == Idle && !d.timerArmed
    ensures Timeout(d) == d
  {
  }

  /**
   * A send request from the ARQ layer (`envia`): the frame written to the line, if the type
   * is one of the three codes. Sending a ping frame clears the ping flag.
   */
  function Send(c: TypeCodes, d: Decoder, payload: seq<byte>, t: byte): (r: (Decoder, Option<seq<byte>>))
    ensures !IsType(c, t) ==> r == (d, None)
    ensures IsType(c, t) ==> r.1 == Some(Encode(t, WidthOf(c, t), payload))
    ensures r.0 == d || (t == c.ping && r.0 == d.(ping := false))
  {
    if t == c.text then (d, Some(Encode(c.text, 2, payload)))
    else if t == c.binary then (d, Some(Encode(c.binary, 4, payload)))
    else if t == c.ping then (d.(ping := false), Some(Encode(c.ping, 2, payload)))
    else (d, None)
  }

  /** Feeds a sequence of bytes, collecting the deliveries in order. */
  function Feed(c: TypeCodes, d: Decoder, bs: seq<byte>): (r: (Decoder, seq<Delivery>))
    ensures |r.1| <= |bs|
    decreases |bs|
  {
    if |bs| == 0 then (d, [])
    else
      var first := Step(c, d, bs[0]);
      var rest := Feed(c, first.0, bs[1..]);
      (rest.0, Delivered(first.1) + rest.1)
  }

  function Delivered(o: Option<Delivery>): seq<Delivery>
  {
    if o.Some? then [o.value] else []
  }

  // ---------------------------------------------------------------------------------------
  // Properties

  /** Every step keeps the per-phase invariant, and a step delivers only from RxData. */
  lemma StepInv(c: TypeCodes, d: Decoder, b: byte)
    requires Inv(d)
    ensures Inv(Step(c, d, b).0)
    ensures Step(c, d, b).1.Some? ==> d.phase == RxData && Step(c, d, b).0.phase == Idle
  {
    if d.phase == RxLength && |d.lengthField| == d.width - 1 {
      FromBEBound(d.lengthField + [b]);
    }
  }

  /** Bytes outside the three type codes are dropped in Idle without any state change. */
  lemma IdleResync(c: TypeCodes, d: Decoder, b: byte)
    requires d.phase == Idle && !IsType(c, b)
    ensures Step(c, d, b) == (d, None)
  {
  }

  lemma {:induction false} FeedConcat(c: TypeCodes, d: Decoder, a: seq<byte>, b: seq<byte>)
    ensures Feed(c, d, a + b).0 == Feed(c, Feed(c, d, a).0, b).0
    ensures Feed(c, d, a + b).1 == Feed(c, d, a).1 + Feed(c, Feed(c, d, a).0, b).1
    decreases |a|
  {
    if |a| > 0 {
      assert (a + b)[0] == a[0];
      assert (a + b)[1..] == a[1..] + b;
      FeedConcat(c, Step(c, d, a[0]).0, a[1..], b);
    } else {
      assert a + b == b;
    }
  }

  /** RxLength consumes exactly `width` bytes, then expects their big-endian value. */
  lemma {:induction false} FeedLength(c: TypeCodes, d: Decoder, bs: seq<byte>)
    requires d.phase == RxLength && d.width >= 1
    requires |bs| >= 1 && |d.lengthField| + |bs| == d.width
    ensures Feed(c, d, bs).1 == []
    ensures Feed(c, d, bs).0 ==
      d.(lengthField := d.lengthField + bs, expected := FromBE(d.lengthField + bs),
         phase := RxData, timerArmed := true)
    decreases |bs|
  {
    if |bs| == 1 {
      assert bs == [bs[0]];
      FeedLengthLast(c, d, bs[0]);
    } else {
      var d1 := d.(lengthField := d.lengthField + [bs[0]], timerArmed := true);
      FeedLengthStep(c, d, bs[0]);
      FeedLength(c, d1, bs[1..]);
      assert d.lengthField + [bs[0]] + bs[1..] == d.lengthField + bs;
    }
  }

  lemma FeedLengthStep(c: TypeCodes, d: Decoder, b: byte)
    requires d.phase == RxLength && |d.lengthField| < d.width - 1
    ensures Step(c, d, b) == (d.(lengthField := d.lengthField + [b], timerArmed := true), None)
  {
  }

  lemma FeedLengthLast(c: TypeCodes, d: Decoder, b: byte)
    requires d.phase == RxLength && d.width >= 1 && |d.lengthField| == d.width - 1
    ensures Feed(c, d, [b]) ==
      (d.(lengthField := d.lengthField + [b], expected := FromBE(d.lengthField + [b]), phase := RxData, timerArmed := true), [])
  {
    var d1 := d.(lengthField := d.lengthField + [b], expected := FromBE(d.lengthField + [b]), phase := RxData, timerArmed := true);
    assert Step(c, d, b) == (d1, None);
    assert [b][1..] == [];
    assert Feed(c, d1, []) == (d1, []);
    assert Delivered(None) == [];
    assert Feed(c, d, [b]) == (Feed(c, d1, []).0, Delivered(None) + Feed(c, d1, []).1);
    assert Delivered(None) + Feed(c, d1, []).1 == [];
    assert Feed(c, d, [b]).0 == d1;
  }

  /** With `L >= 1` expected, the `L`-th payload byte delivers once and returns to Idle. */
  lemma {:induction false} FeedData(c: TypeCodes, d: Decoder, bs: seq<byte>)
    requires d.phase == RxData && d.expected >= 1
    requires |bs| >= 1 && |d.data| + |bs| == d.expected
    ensures var p := d.data + bs;
      Feed(c, d, bs).1 == [Delivery(p[0], p[1..], d.kind)]
    ensures Feed(c, d, bs).0 == Cleared(d).(phase := Idle, timerArmed := false)
    decreases |bs|
  {
    var d1 := Step(c, d, bs[0]).0;
    if |bs| == 1 {
      assert Feed(c, d1, bs[1..]).1 == [];
      assert bs == [bs[0]];
    } else {
      assert d1 == d.(data := d.data + [bs[0]], timerArmed := true);
      FeedData(c, d1, bs[1..]);
      assert d.data + [bs[0]] + bs[1..] == d.data + bs;
    }
  }

  /** Fewer payload bytes than announced: they are accumulated and nothing is delivered. */
  lemma {:induction false} FeedDataPartial(c: TypeCodes, d: Decoder, bs: seq<byte>)
    requires d.phase == RxData && |d.data| + |bs| < d.expected
    ensures Feed(c, d, bs).1 == []
    ensures Feed(c, d, bs).0 == if |bs| == 0 then d else d.(data := d.data + bs, timerArmed := true)
    decreases |bs|
  {
    if |bs| > 0 {
      var d1 := Step(c, d, bs[0]).0;
      assert d1 == d.(data := d.data + [bs[0]], timerArmed := true);
      FeedDataPartial(c, d1, bs[1..]);
      assert d.data + [bs[0]] + bs[1..] == d.data + bs;
    }
  }

  /** A declared length of 0 never completes: every byte is swallowed without any effect. */
  lemma {:induction false} ZeroLengthNeverCompletes(c: TypeCodes, d: Decoder, bs: seq<byte>)
    requires d.phase == RxData && d.expected == 0 && d.data == []
    ensures Feed(c, d, bs).0 == d
    ensures Feed(c, d, bs).1 == []
    decreases |bs|
  {
    if |bs| > 0 {
      ZeroLengthNeverCompletes(c, d, bs[1..]);
    }
  }

  /** The decoder state after a frame of type `t` completed from a clean Idle state. */
  function AfterFrame(c: TypeCodes, d: Decoder, t: byte): Decoder
  {
    Decoder(Idle, 0, 0, [], [], t, d.ping || t == c.ping, false)
  }

  /**
   * Round trip: a decoder in Idle fed the frame for a payload `p` with `1 <= |p| <=` the
   * field's maximum delivers `(p[0], p[1..], t)` exactly once and ends back in Idle.
   */
  lemma RoundTrip(c: TypeCodes, d: Decoder, t: byte, p: seq<byte>)
    requires Distinct(c) && IsType(c, t)
    requires d.phase == Idle && Inv(d)
    requires 1 <= |p| <= MaxValue(WidthOf(c, t))
    ensures Feed(c, d, Encode(t, WidthOf(c, t), p)).0 == AfterFrame(c, d, t)
    ensures Feed(c, d, Encode(t, WidthOf(c, t), p)).1 == [Delivery(p[0], p[1..], t)]
  {
    var frame := Encode(t, WidthOf(c, t), p);
    var pre := frame[..|frame| - 1];
    var last := p[|p| - 1];
    FramePrefix(c, d, t, p);
    FeedConcat(c, d, pre, [last]);
    FrameLastByte(c, d, t, p);
    FeedOne(c, Feed(c, d, pre).0, last);
    assert [] + [Delivery(p[0], p[1..], t)] == [Delivery(p[0], p[1..], t)];
  }

  lemma FeedOne(c: TypeCodes, d: Decoder, b: byte)
    ensures Feed(c, d, [b]) == (Step(c, d, b).0, Delivered(Step(c, d, b).1))
  {
    assert [b][1..] == [];
    assert Delivered(Step(c, d, b).1) + [] == Delivered(Step(c, d, b).1);
  }

  /** The type byte and a fitting length field take an Idle decoder to the data phase. */
  lemma FeedHeader(c: TypeCodes, d: Decoder, t: byte, n: nat)
    requires Distinct(c) && IsType(c, t)
    requires d.phase == Idle && Inv(d)
    requires n <= MaxValue(WidthOf(c, t))
    ensures Feed(c, d, [t] + LengthField(WidthOf(c, t), n)).1 == []
    ensures Feed(c, d, [t] + LengthField(WidthOf(c, t), n)).0 ==
      Decoder(RxData, WidthOf(c, t), n, LengthField(WidthOf(c, t), n), [], t, d.ping || t == c.ping, true)
  {
    var w := WidthOf(c, t);
    var field := LengthField(w, n);
    FeedConcat(c, d, [t], field);
    var d1 := Step(c, d, t).0;
    assert Feed(c, d, [t]).0 == d1;
    assert Feed(c, d, [t]).1 == [];
    assert d1 == d.(phase := RxLength, kind := t, width := w, timerArmed := true, ping := d.ping || t == c.ping);
    FeedLength(c, d1, field);
    assert d1.lengthField + field == field;
  }

  /**
   * The decoder just before the last byte of a frame: every byte but the last is absorbed
   * without a delivery, leaving the payload minus its last byte in the data accumulator.
   */
  lemma FramePrefix(c: TypeCodes, d: Decoder, t: byte, p: seq<byte>)
    requires Distinct(c) && IsType(c, t)
    requires d.phase == Idle && Inv(d)
    requires 1 <= |p| <= MaxValue(WidthOf(c, t))
    ensures var frame := Encode(t, WidthOf(c, t), p);
      && frame == frame[..|frame| - 1] + [p[|p| - 1]]
      && Feed(c, d, frame[..|frame| - 1]).1 == []
      && Feed(c, d, frame[..|frame| - 1]).0 ==
         Decoder(RxData, WidthOf(c, t), |p|, LengthField(WidthOf(c, t), |p|), p[..|p| - 1], t,
                 d.ping || t == c.ping, true)
  {
    var header := [t] + LengthField(WidthOf(c, t), |p|);
    var init := p[..|p| - 1];
    FrameSplit(t, WidthOf(c, t), p);
    FeedHeader(c, d, t, |p|);
    FeedConcat(c, d, header, init);
    FeedDataPartial(c, Feed(c, d, header).0, init);
    assert [] + init == init;
  }

  /** The last payload byte completes the frame the prefix began. */
  lemma FrameLastByte(c: TypeCodes, d: Decoder, t: byte, p: seq<byte>)
    requires 1 <= |p|
    ensures var pending := Decoder(RxData, WidthOf(c, t), |p|, LengthField(WidthOf(c, t), |p|), p[..|p| - 1], t,
                                   d.ping || t == c.ping, true);
      Step(c, pending, p[|p| - 1]) == (AfterFrame(c, d, t), Some(Delivery(p[0], p[1..], t)))
  {
    assert p[..|p| - 1] + [p[|p| - 1]] == p;
  }

  lemma FrameSplit(t: byte, width: nat, p: seq<byte>)
    requires |p| >= 1
    ensures var frame := Encode(t, width, p);
      && frame[..|frame| - 1] == [t] + LengthField(width, |p|) + p[..|p| - 1]
      && frame == frame[..|frame| - 1] + [p[|p| - 1]]
  {
    var frame := Encode(t, width, p);
    assert frame == [t] + LengthField(width, |p|) + p;
    assert p == p[..|p| - 1] + [p[|p| - 1]];
  }

  /**
   * Timeout self-heal: after a partial frame and a timeout, a well-formed frame decodes
   * exactly as from a fresh decoder (up to the ping flag the partial frame may have set).
   */
  lemma SelfHeal(c: TypeCodes, d: Decoder, partial: seq<byte>, t: byte, p: seq<byte>)
    requires Distinct(c) && IsType(c, t)
    requires 1 <= |p| <= MaxValue(WidthOf(c, t))
    ensures var h := Timeout(Feed(c, d, partial).0);
      Feed(c, h, Encode(t, WidthOf(c, t), p)).0 == AfterFrame(c, h, t) &&
      Feed(c, h, Encode(t, WidthOf(c, t), p)).1 == [Delivery(p[0], p[1..], t)]
  {
    RoundTrip(c, Timeout(Feed(c, d, partial).0), t, p);
  }
}
