/**
 * The serial link stack: the framing decoder below the ARQ layer. A completed frame is
 * handed to the ARQ receive event together with the decoder's ping flag; the ARQ layer's
 * transmissions go through the framing send (which writes the frame and, for a ping frame,
 * clears the ping flag); its deliveries go up to the application.
 *
 * In the program the application's reply to a delivery is a nested call made after the
 * ARQ layer has finished updating its state; here it is the next `AppSend` event.
 */
module Link {
  import opened Wrappers
  import opened Bytes
  import Framing
  import Arq

  datatype Config = Config(types: Framing.TypeCodes, arq: Arq.Config)

  /** Distinct codes in both layers, and the ARQ layer's ACK and echo types are framing types. */
  predicate WellFormed(cfg: Config)
  {
    Framing.Distinct(cfg.types) && Arq.Distinct(cfg.arq.codes) &&
    cfg.arq.text == cfg.types.text && cfg.arq.ping == cfg.types.ping
  }

  datatype Link = Link(dec: Framing.Decoder, arq: Arq.Arq)

  datatype Event =
    | Wire(bytes: seq<byte>)                     // written to the serial line
    | Up(command: Option<byte>, data: seq<byte>) // handed to the application
    | Hold                                       // the application is told to stop sending

  datatype Out = Out(next: Link, events: seq<Event>)

  function Init(): Link
  {
    Link(Framing.Init(), Arq.Init())
  }

  /** One ARQ action carried out below or above the ARQ layer. */
  function LowerOne(cfg: Config, dec: Framing.Decoder, act: Arq.Action): (Framing.Decoder, seq<Event>)
  {
    match act
    case Transmit(frame, kind) =>
      if kind.None? then (dec, [])
      else
        var s := Framing.Send(cfg.types, dec, frame, kind.value);
        (s.0, if s.1.Some? then [Wire(s.1.value)] else [])
    case Deliver(command, data) => (dec, [Up(command, data)])
    case HoldApp => (dec, [Hold])
  }

  /** The ARQ layer's actions carried out in order. */
  function Lower(cfg: Config, dec: Framing.Decoder, acts: seq<Arq.Action>): (Framing.Decoder, seq<Event>)
    decreases |acts|
  {
    if |acts| == 0 then (dec, [])
    else
      var first := LowerOne(cfg, dec, acts[0]);
      var rest := Lower(cfg, first.0, acts[1..]);
      (rest.0, first.1 + rest.1)
  }

  /** One byte read from the serial line. */
  function ByteIn(cfg: Config, l: Link, b: byte): (o: Out)
    ensures Framing.Step(cfg.types, l.dec, b).1.None? ==> o == Out(l.(dec := Framing.Step(cfg.types, l.dec, b).0), [])
    ensures o.next.arq.seqTx != l.arq.seqTx ==> l.arq.phase == Arq.Wait
  {
    var s := Framing.Step(cfg.types, l.dec, b);
    match s.1
    case None => Out(Link(s.0, l.arq), [])
    case Some(del) =>
      var o := Arq.Receive(cfg.arq, l.arq, del.control, del.data, del.kind, s.0.ping);
      var low := Lower(cfg, s.0, o.actions);
      Out(Link(low.0, o.next), low.1)
  }

  function BytesIn(cfg: Config, l: Link, bs: seq<byte>): Out
    decreases |bs|
  {
    if |bs| == 0 then Out(l, [])
    else
      var first := ByteIn(cfg, l, bs[0]);
      var rest := BytesIn(cfg, first.next, bs[1..]);
      Out(rest.next, first.events + rest.events)
  }

  /** A send request from the application. */
  function AppSend(cfg: Config, l: Link, data: seq<byte>, kind: byte): (o: Out)
    ensures o.next.arq.seqTx == l.arq.seqTx && o.next.arq.seqRx == l.arq.seqRx && o.next.arq.kind == Some(kind)
    ensures l.arq.phase == Arq.Wait ==> o.events == [] && o.next.dec == l.dec
    ensures l.arq.phase == Arq.Idle ==> o.next.arq.phase == Arq.Wait && |o.events| >= 1 && o.events[0] == Hold
  {
    var o := Arq.Send(cfg.arq, l.arq, data, kind);
    var low := Lower(cfg, l.dec, o.actions);
    Out(Link(low.0, o.next), low.1)
  }

  /** The ARQ retransmission timeout; it fires only while the ARQ timer is armed. */
  function ArqTimeout(cfg: Config, l: Link): Out
  {
    var o := Arq.Timeout(cfg.arq, l.arq);
    var low := Lower(cfg, l.dec, o.actions);
    Out(Link(low.0, o.next), low.1)
  }

  /** The framing inter-byte timeout. */
  function FrameTimeout(l: Link): Out
  {
    Out(l.(dec := Framing.Timeout(l.dec)), [])
  }

  /**
   * The bytes a transmission of `frame` as type `kind` puts on the line: nothing when the
   * type is unset or not one of the three frame types.
   */
  function Written(cfg: Config, frame: seq<byte>, kind: Option<byte>): seq<Event>
  {
    if kind.Some? && Framing.IsType(cfg.types, kind.value) then
      [Wire(Framing.Encode(kind.value, Framing.WidthOf(cfg.types, kind.value), frame))]
    else []
  }

  /** The one-byte ACK frame with the given parity, as written on the line. */
  function AckFrame(cfg: Config, parity: Arq.Bit): seq<byte>
  {
    Framing.Encode(cfg.types.text, 2, [Arq.AckCode(cfg.arq.codes, parity)])
  }

  // ---------------------------------------------------------------------------------------
  // Properties

  lemma LowerTransmit(cfg: Config, dec: Framing.Decoder, frame: seq<byte>, kind: Option<byte>)
    requires Framing.Distinct(cfg.types)
    ensures LowerOne(cfg, dec, Arq.Transmit(frame, kind)).1 == Written(cfg, frame, kind)
    ensures LowerOne(cfg, dec, Arq.Transmit(frame, kind)).0 ==
            if kind == Some(cfg.types.ping) then dec.(ping := false) else dec
  {
  }

  lemma LowerPair(cfg: Config, dec: Framing.Decoder, x: Arq.Action, y: Arq.Action)
    ensures var first := LowerOne(cfg, dec, x);
      && Lower(cfg, dec, [x, y]).0 == LowerOne(cfg, first.0, y).0
      && Lower(cfg, dec, [x, y]).1 == first.1 + LowerOne(cfg, first.0, y).1
  {
    var first := LowerOne(cfg, dec, x);
    var second := LowerOne(cfg, first.0, y);
    assert [x, y][1..] == [y];
    assert [y][1..] == [];
    assert Lower(cfg, first.0, [y]).0 == second.0;
    assert Lower(cfg, first.0, [y]).1 == second.1 + [];
  }

  /** Bytes that complete no frame only move the decoder; the ARQ layer sees nothing. */
  lemma {:induction false} QuietBytes(cfg: Config, l: Link, bs: seq<byte>)
    requires Framing.Feed(cfg.types, l.dec, bs).1 == []
    ensures BytesIn(cfg, l, bs).next == Link(Framing.Feed(cfg.types, l.dec, bs).0, l.arq)
    ensures BytesIn(cfg, l, bs).events == []
    decreases |bs|
  {
    if |bs| > 0 {
      var s := Framing.Step(cfg.types, l.dec, bs[0]);
      assert s.1 == None;
      QuietBytes(cfg, Link(s.0, l.arq), bs[1..]);
    }
  }

  lemma {:induction false} BytesInConcat(cfg: Config, l: Link, a: seq<byte>, b: seq<byte>)
    ensures BytesIn(cfg, l, a + b).next == BytesIn(cfg, BytesIn(cfg, l, a).next, b).next
    ensures BytesIn(cfg, l, a + b).events ==
            BytesIn(cfg, l, a).events + BytesIn(cfg, BytesIn(cfg, l, a).next, b).events
    decreases |a|
  {
    if |a| > 0 {
      var first := ByteIn(cfg, l, a[0]);
      assert (a + b)[0] == a[0];
      assert (a + b)[1..] == a[1..] + b;
      BytesInConcat(cfg, first.next, a[1..], b);
      var whole := BytesIn(cfg, first.next, a[1..] + b);
      assert BytesIn(cfg, l, a + b) == Out(whole.next, first.events + whole.events);
      assert BytesIn(cfg, l, a) == Out(BytesIn(cfg, first.next, a[1..]).next, first.events + BytesIn(cfg, first.next, a[1..]).events);
    } else {
      assert a + b == b;
    }
  }

  /**
   * A whole frame from an Idle decoder reaches the ARQ layer exactly once: the line events
   * and the final state are those of the ARQ receive event for `(p[0], p[1..], t)`, run with
   * the decoder back in Idle and its ping flag raised if a ping frame was seen.
   */
  lemma FrameArrives(cfg: Config, l: Link, t: byte, p: seq<byte>)
    requires WellFormed(cfg) && Framing.IsType(cfg.types, t)
    requires l.dec.phase == Framing.Idle && Framing.Inv(l.dec)
    requires 1 <= |p| <= MaxValue(Framing.WidthOf(cfg.types, t))
    ensures var frame := Framing.Encode(t, Framing.WidthOf(cfg.types, t), p);
      var after := Framing.AfterFrame(cfg.types, l.dec, t);
      var o := Arq.Receive(cfg.arq, l.arq, p[0], p[1..], t, after.ping);
      && BytesIn(cfg, l, frame).next == Link(Lower(cfg, after, o.actions).0, o.next)
      && BytesIn(cfg, l, frame).events == Lower(cfg, after, o.actions).1
  {
    var w := Framing.WidthOf(cfg.types, t);
    var frame := Framing.Encode(t, w, p);
    var pre := frame[..|frame| - 1];
    var last := p[|p| - 1];
    Framing.FramePrefix(cfg.types, l.dec, t, p);
    QuietBytes(cfg, l, pre);
    BytesInConcat(cfg, l, pre, [last]);
    var mid := BytesIn(cfg, l, pre).next;
    LastByteIn(cfg, mid, l.dec, t, p);
    BytesInOne(cfg, mid, last);
  }

  /** The last payload byte hands the frame to the ARQ layer and carries out its actions. */
  lemma LastByteIn(cfg: Config, m: Link, d: Framing.Decoder, t: byte, p: seq<byte>)
    requires 1 <= |p|
    requires m.dec == Framing.Decoder(Framing.RxData, Framing.WidthOf(cfg.types, t), |p|,
                                      Framing.LengthField(Framing.WidthOf(cfg.types, t), |p|), p[..|p| - 1], t,
                                      d.ping || t == cfg.types.ping, true)
    ensures var after := Framing.AfterFrame(cfg.types, d, t);
      var o := Arq.Receive(cfg.arq, m.arq, p[0], p[1..], t, after.ping);
      ByteIn(cfg, m, p[|p| - 1]) == Out(Link(Lower(cfg, after, o.actions).0, o.next), Lower(cfg, after, o.actions).1)
  {
    Framing.FrameLastByte(cfg.types, d, t, p);
  }

  lemma BytesInOne(cfg: Config, l: Link, b: byte)
    ensures BytesIn(cfg, l, [b]) == ByteIn(cfg, l, b)
  {
    assert [b][1..] == [];
    assert ByteIn(cfg, l, b).events + [] == ByteIn(cfg, l, b).events;
  }

  /**
   * A fresh DATA frame (control byte `DATA_seqRx`) of a text or binary type, with the ARQ
   * layer in Wait or no ping pending: the ACK frame for the DATA's parity is written and
   * the payload after the control byte goes up exactly once, tagged with the frame type.
   */
  lemma FreshDataFrame(cfg: Config, l: Link, t: byte, data: seq<byte>)
    requires WellFormed(cfg) && (t == cfg.types.text || t == cfg.types.binary)
    requires l.dec.phase == Framing.Idle && Framing.Inv(l.dec)
    requires 1 + |data| <= MaxValue(Framing.WidthOf(cfg.types, t))
    requires l.arq.phase == Arq.Wait || !l.dec.ping
    ensures var o := BytesIn(cfg, l, Framing.Encode(t, Framing.WidthOf(cfg.types, t), [Arq.DataCode(cfg.arq.codes, l.arq.seqRx)] + data));
      && o.events == [Wire(AckFrame(cfg, l.arq.seqRx)), Up(Some(t), data)]
      && o.next.dec == Framing.AfterFrame(cfg.types, l.dec, t)
      && o.next.arq.seqRx == Arq.Flip(l.arq.seqRx) && o.next.arq.seqTx == l.arq.seqTx
      && o.next.arq.phase == l.arq.phase
  {
    var p := [Arq.DataCode(cfg.arq.codes, l.arq.seqRx)] + data;
    FrameArrives(cfg, l, t, p);
    assert p[1..] == data;
    var after := Framing.AfterFrame(cfg.types, l.dec, t);
    Arq.FreshData(cfg.arq, l.arq, data, t, after.ping);
    var o := Arq.Receive(cfg.arq, l.arq, p[0], data, t, after.ping);
    assert o.actions == [o.actions[0], o.actions[1]];
    LowerPair(cfg, after, o.actions[0], o.actions[1]);
    LowerTransmit(cfg, after, [Arq.AckCode(cfg.arq.codes, l.arq.seqRx)], Some(cfg.types.text));
    var first := LowerOne(cfg, after, o.actions[0]);
    assert first == (after, [Wire(AckFrame(cfg, l.arq.seqRx))]);
    assert LowerOne(cfg, first.0, o.actions[1]) == (after, [Up(Some(t), data)]);
  }

  /** A repeated DATA frame writes the ACK for its own parity again and delivers nothing. */
  lemma DuplicateDataFrame(cfg: Config, l: Link, t: byte, data: seq<byte>)
    requires WellFormed(cfg) && Framing.IsType(cfg.types, t)
    requires l.dec.phase == Framing.Idle && Framing.Inv(l.dec)
    requires 1 + |data| <= MaxValue(Framing.WidthOf(cfg.types, t))
    ensures var parity := Arq.Flip(l.arq.seqRx);
      var o := BytesIn(cfg, l, Framing.Encode(t, Framing.WidthOf(cfg.types, t), [Arq.DataCode(cfg.arq.codes, parity)] + data));
      && o.events == [Wire(AckFrame(cfg, parity))]
      && o.next.dec == Framing.AfterFrame(cfg.types, l.dec, t)
      && o.next.arq == Arq.Stamped(l.arq, data, t)
  {
    var p := [Arq.DataCode(cfg.arq.codes, Arq.Flip(l.arq.seqRx))] + data;
    FrameArrives(cfg, l, t, p);
    assert p[1..] == data;
    var after := Framing.AfterFrame(cfg.types, l.dec, t);
    Arq.DuplicateData(cfg.arq, l.arq, data, t, after.ping);
    var acts := [Arq.Transmit([Arq.AckCode(cfg.arq.codes, Arq.Flip(l.arq.seqRx))], Some(cfg.arq.text))];
    assert Lower(cfg, after, acts).1 == LowerOne(cfg, after, acts[0]).1 + [];
  }

  /**
   * Ping echo: a fresh DATA frame of ping type with the ARQ layer Idle is acknowledged and
   * its data written straight back in a ping frame behind the current `DATA_seqTx`; nothing
   * goes up, the ping flag is cleared, and the ARQ layer waits for the echo's ACK with the
   * frame type of the last application send still recorded for retransmissions.
   */
  lemma PingFrameEcho(cfg: Config, l: Link, data: seq<byte>)
    requires WellFormed(cfg)
    requires l.dec.phase == Framing.Idle && Framing.Inv(l.dec)
    requires l.arq.phase == Arq.Idle
    requires 1 + |data| <= MaxValue(2)
    ensures var t := cfg.types.ping;
      var echo := [Arq.DataCode(cfg.arq.codes, l.arq.seqTx)] + data;
      var o := BytesIn(cfg, l, Framing.Encode(t, 2, [Arq.DataCode(cfg.arq.codes, l.arq.seqRx)] + data));
      && o.events == [Wire(AckFrame(cfg, l.arq.seqRx)), Wire(Framing.Encode(t, 2, echo))]
      && o.next.dec == Framing.AfterFrame(cfg.types, l.dec, t).(ping := false)
      && o.next.arq.phase == Arq.Wait && o.next.arq.msg == echo && o.next.arq.kind == l.arq.kind
  {
    var t := cfg.types.ping;
    var p := [Arq.DataCode(cfg.arq.codes, l.arq.seqRx)] + data;
    FrameArrives(cfg, l, t, p);
    assert p[1..] == data;
    var after := Framing.AfterFrame(cfg.types, l.dec, t);
    assert after.ping;
    Arq.PingEcho(cfg.arq, l.arq, data, t);
    var o := Arq.Receive(cfg.arq, l.arq, p[0], data, t, true);
    LowerPair(cfg, after, o.actions[0], o.actions[1]);
  }

  /**
   * A send from Idle tells the application to hold and writes `DATA_seqTx ++ data` as a
   * frame of the requested type (nothing is written for a byte that is no frame type); a
   * send while the ARQ layer waits is dropped, only recording the type and data.
   */
  lemma SendHandling(cfg: Config, l: Link, data: seq<byte>, kind: byte)
    ensures var o := AppSend(cfg, l, data, kind);
      && (l.arq.phase == Arq.Idle ==>
            o.events == [Hold] + Written(cfg, [Arq.DataCode(cfg.arq.codes, l.arq.seqTx)] + data, Some(kind)) &&
            o.next.arq.phase == Arq.Wait)
      && (l.arq.phase == Arq.Wait ==>
            o.events == [] && o.next == Link(l.dec, l.arq.(kind := Some(kind), received := data)))
  {
    var o := Arq.Send(cfg.arq, l.arq, data, kind);
    if l.arq.phase == Arq.Idle {
      LowerPair(cfg, l.dec, o.actions[0], o.actions[1]);
    }
  }

  /**
   * A retransmission timeout, with the ARQ timer armed and below the ceiling, writes the
   * stored frame again as the type recorded by the last send, whatever frame that was, and
   * nothing when no send has happened yet.
   */
  lemma Retransmission(cfg: Config, l: Link)
    requires l.arq.phase == Arq.Wait && l.arq.timerArmed && l.arq.attempts != cfg.arq.limit
    ensures ArqTimeout(cfg, l).events == Written(cfg, l.arq.msg, l.arq.kind)
    ensures ArqTimeout(cfg, l).next.arq.attempts == l.arq.attempts + 1
  {
    var acts := [Arq.Transmit(l.arq.msg, l.arq.kind)];
    assert Lower(cfg, l.dec, acts).1 == LowerOne(cfg, l.dec, acts[0]).1 + [];
  }
}
