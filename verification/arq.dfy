/**
 * The stop-and-wait ARQ layer (`Arq`): an alternating-bit protocol with one transmit and one
 * receive sequence bit, states Idle and Wait, a control byte (DATA_0, DATA_1, ACK_0, ACK_1)
 * in front of each payload, duplicate suppression with re-acknowledgement, and bounded
 * retransmission where the retry count is compared to the ceiling by equality.
 *
 * Each event is a pure step returning the next state and the actions it causes: frames
 * handed to the framing layer (with the frame type they are sent as) and payloads handed
 * to the application layer. The framing layer's ping flag is an input of the receive event.
 */
module Arq {
  import opened Wrappers
  import opened Bytes

  type Bit = x: int | 0 <= x < 2

  function Flip(b: Bit): Bit
  {
    1 - b
  }

  /** The byte values of the four control codes. */
  datatype ControlCodes = ControlCodes(data0: byte, data1: byte, ack0: byte, ack1: byte)

  predicate Distinct(k: ControlCodes)
  {
    k.data0 != k.data1 && k.data0 != k.ack0 && k.data0 != k.ack1 &&
    k.data1 != k.ack0 && k.data1 != k.ack1 && k.ack0 != k.ack1
  }

  function DataCode(k: ControlCodes, s: Bit): byte
  {
    if s == 1 then k.data1 else k.data0
  }

  function AckCode(k: ControlCodes, s: Bit): byte
  {
    if s == 1 then k.ack1 else k.ack0
  }

  /**
   * Configuration: the control codes, the framing type codes used for acknowledgements
   * (text) and for the ping echo, and the retransmission ceiling (3 in the application).
   */
  datatype Config = Config(codes: ControlCodes, text: byte, ping: byte, limit: nat)

  datatype Phase = Idle | Wait

  /**
   * ARQ state. `kind` is the frame type of the last send request (`None` before the first:
   * the program starts it at the integer 0, which equals no frame type byte),
   * `msg` the last frame built (retransmitted unchanged), `received` the data of the last
   * event and `command` the frame type of the last received frame.
   */
  datatype Arq = Arq(
    phase: Phase,
    seqTx: Bit,
    seqRx: Bit,
    kind: Option<byte>,
    attempts: nat,
    msg: seq<byte>,
    received: seq<byte>,
    command: Option<byte>,
    timerArmed: bool)

  datatype Action =
    | Transmit(frame: seq<byte>, kind: Option<byte>)  // handed to the framing layer
    | Deliver(command: Option<byte>, data: seq<byte>) // handed to the application layer
    | HoldApp                                          // the application is told to stop sending

  datatype Out = Out(next: Arq, actions: seq<Action>)

  function Init(): (a: Arq)
    ensures a.phase == Idle && !a.timerArmed && a.attempts == 0
    ensures a.kind == None && a.seqTx == a.seqRx
  {
    Arq(Idle, 0, 0, None, 0, [], [], None, false)
  }

  /** Acknowledges: a fresh DATA is acknowledged with `seqRx` (then flipped), a repeated one with the old bit. */
  function Ack(cfg: Config, a: Arq, resend: bool): Out
  {
    var s := if resend then Flip(a.seqRx) else a.seqRx;
    var next := if resend then a else a.(seqRx := Flip(a.seqRx));
    Out(next, [Transmit([AckCode(cfg.codes, s)], Some(cfg.text))])
  }

  /** Retransmits the stored frame unchanged and counts the attempt. */
  function Resend(a: Arq): Out
  {
    Out(a.(attempts := a.attempts + 1, timerArmed := true), [Transmit(a.msg, a.kind)])
  }

  /** Gives up after the ceiling: back to Idle, counter reset, timer off, nothing reported. */
  function Abandon(a: Arq): Arq
  {
    a.(attempts := 0, phase := Idle, timerArmed := false)
  }

  function OnIdle(cfg: Config, a: Arq, control: Option<byte>, ping: bool): (o: Out)
    ensures control.None? ==>
      && o.next.phase == Wait && o.next.timerArmed && o.next.attempts == 0
      && o.next.msg == [DataCode(cfg.codes, a.seqTx)] + a.received
      && o.actions == [HoldApp, Transmit(o.next.msg, a.kind)]
    ensures control.Some? ==>
      o.next.seqTx == a.seqTx && o.next.attempts == a.attempts && o.next.kind == a.kind && o.next.timerArmed == a.timerArmed
    ensures control.Some? && a.phase == Idle && o.next.phase == Wait ==> ping
  {
    match control
    case None =>
      var m := [DataCode(cfg.codes, a.seqTx)] + a.received;
      Out(a.(msg := m, attempts := 0, timerArmed := true, phase := Wait), [HoldApp, Transmit(m, a.kind)])
    case Some(ctrl) =>
      if ctrl == DataCode(cfg.codes, a.seqRx) then
        var ack := Ack(cfg, a.(phase := Idle), false);
        var a1 := ack.next;
        if ping then
          var m := [DataCode(cfg.codes, a1.seqTx)] + a1.received;
          Out(a1.(msg := m, phase := Wait), ack.actions + [Transmit(m, Some(cfg.ping))])
        else
          Out(a1, ack.actions + [Deliver(a1.command, a1.received)])
      else if ctrl == DataCode(cfg.codes, Flip(a.seqRx)) then
        Ack(cfg, a.(phase := Idle), true)
      else
        Out(a, [])
  }

  function OnWait(cfg: Config, a: Arq, control: Option<byte>): (o: Out)
    ensures o.next.seqTx != a.seqTx <==> control == Some(AckCode(cfg.codes, a.seqTx))
    ensures a.phase == Wait && o.next.phase == Idle ==> !o.next.timerArmed
    ensures o.next.seqRx != a.seqRx ==> control == Some(DataCode(cfg.codes, a.seqRx))
  {
    match control
    case None => Out(a, [])
    case Some(ctrl) =>
      if ctrl == AckCode(cfg.codes, a.seqTx) then
        Out(a.(seqTx := Flip(a.seqTx), phase := Idle, timerArmed := false), [])
      else if ctrl == DataCode(cfg.codes, a.seqRx) then
        var ack := Ack(cfg, a, false);
        Out(ack.next, ack.actions + [Deliver(ack.next.command, ack.next.received)])
      else if ctrl == DataCode(cfg.codes, Flip(a.seqRx)) then
        Ack(cfg, a, true)
      else if ctrl == AckCode(cfg.codes, Flip(a.seqTx)) then
        Expire(cfg, a)
      else
        Out(a, [])
  }

  /** `handle_fsm`: records the data of the event, then dispatches on the phase. */
  function HandleFsm(cfg: Config, a: Arq, control: Option<byte>, data: seq<byte>, ping: bool): Out
  {
    var a0 := a.(received := data);
    if a0.phase == Idle then OnIdle(cfg, a0, control, ping) else OnWait(cfg, a0, control)
  }

  /** A send request from the application (`envia`). */
  function Send(cfg: Config, a: Arq, data: seq<byte>, kind: byte): (o: Out)
    ensures a.phase == Idle ==>
      o.actions == [HoldApp, Transmit([DataCode(cfg.codes, a.seqTx)] + data, Some(kind))] &&
      o.next == a.(kind := Some(kind), received := data, msg := [DataCode(cfg.codes, a.seqTx)] + data,
                   attempts := 0, timerArmed := true, phase := Wait)
    ensures a.phase == Wait ==> o.actions == [] && o.next == a.(kind := Some(kind), received := data)
  {
    HandleFsm(cfg, a.(kind := Some(kind)), None, data, false)
  }

  /** A frame handed up by the framing layer (`notifica`); `ping` is the framing ping flag. */
  function Receive(cfg: Config, a: Arq, control: byte, data: seq<byte>, kind: byte, ping: bool): (o: Out)
    ensures o.next.command == Some(kind) && o.next.received == data
    ensures o.next.seqTx != a.seqTx ==> a.phase == Wait && control == AckCode(cfg.codes, a.seqTx)
    ensures o.next.seqRx != a.seqRx ==> control == DataCode(cfg.codes, a.seqRx)
    ensures forall i :: 0 <= i < |o.actions| && o.actions[i].Deliver? ==> o.actions[i].data == data
  {
    HandleFsm(cfg, a.(command := Some(kind)), Some(control), data, ping)
  }

  /**
   * The body of `handle_timeout`, also run by a wrong-parity ACK: in Wait, abandon at the
   * ceiling and retransmit below it; nothing in Idle.
   */
  function Expire(cfg: Config, a: Arq): Out
  {
    if a.phase == Wait then
      if a.attempts == cfg.limit then Out(Abandon(a), []) else Resend(a)
    else
      Out(a, [])
  }

  /**
   * The retransmission timeout. The event loop calls `handle_timeout` only while the timer
   * is armed, so a disarmed timer never fires; in Idle nothing happens.
   */
  function Timeout(cfg: Config, a: Arq): (o: Out)
    ensures !a.timerArmed || a.phase == Idle ==> o == Out(a, [])
    ensures a.timerArmed && a.phase == Wait && a.attempts == cfg.limit ==>
      o.next == a.(attempts := 0, phase := Idle, timerArmed := false) && o.actions == []
    ensures a.timerArmed && a.phase == Wait && a.attempts != cfg.limit ==>
      o.next == a.(attempts := a.attempts + 1) && o.actions == [Transmit(a.msg, a.kind)]
  {
    if a.timerArmed then Expire(cfg, a) else Out(a, [])
  }

  // ---------------------------------------------------------------------------------------
  // Observations on action lists

  /** The payloads handed to the application, in order. */
  function Delivered(acts: seq<Action>): seq<seq<byte>>
  {
    if |acts| == 0 then []
    else (if acts[0].Deliver? then [acts[0].data] else []) + Delivered(acts[1..])
  }

  /** The frames handed to the framing layer, in order. */
  function Transmitted(acts: seq<Action>): seq<seq<byte>>
  {
    if |acts| == 0 then []
    else (if acts[0].Transmit? then [acts[0].frame] else []) + Transmitted(acts[1..])
  }

  lemma DeliveredPair(x: Action, y: Action)
    ensures Delivered([x, y]) ==
            (if x.Deliver? then [x.data] else []) + (if y.Deliver? then [y.data] else [])
  {
    assert [x, y][1..] == [y];
    assert [y][1..] == [];
    assert Delivered([y]) == (if y.Deliver? then [y.data] else []) + Delivered([]);
  }

  predicate IsAck(cfg: Config, frame: seq<byte>)
  {
    |frame| == 1 && (frame[0] == cfg.codes.ack0 || frame[0] == cfg.codes.ack1)
  }

  /** The state after the bookkeeping every receive does before dispatching. */
  function Stamped(a: Arq, data: seq<byte>, kind: byte): Arq
  {
    a.(command := Some(kind), received := data)
  }

  // ---------------------------------------------------------------------------------------
  // Properties

  /**
   * Fresh DATA (parity equal to `seqRx`), in either phase: exactly one ACK, carrying the
   * DATA's parity, goes out first; `seqRx` flips and `seqTx` stays; outside the ping case
   * the payload is delivered exactly once.
   */
  lemma FreshData(cfg: Config, a: Arq, data: seq<byte>, kind: byte, ping: bool)
    requires Distinct(cfg.codes)
    ensures var o := Receive(cfg, a, DataCode(cfg.codes, a.seqRx), data, kind, ping);
      && o.actions[0] == Transmit([AckCode(cfg.codes, a.seqRx)], Some(cfg.text))
      && |o.actions| == 2
      && o.next.seqRx == Flip(a.seqRx) && o.next.seqTx == a.seqTx
      && (a.phase == Wait || !ping ==> o.actions[1] == Deliver(Some(kind), data) && Delivered(o.actions) == [data])
      && (a.phase == Wait || !ping ==> o.next.phase == a.phase)
  {
    var o := Receive(cfg, a, DataCode(cfg.codes, a.seqRx), data, kind, ping);
    assert o.actions == [o.actions[0], o.actions[1]];
    DeliveredPair(o.actions[0], o.actions[1]);
  }

  /**
   * Duplicate DATA (parity different from `seqRx`): the ACK for the DATA's own parity is
   * sent again, nothing is delivered, and sequence bits and phase are unchanged.
   */
  lemma DuplicateData(cfg: Config, a: Arq, data: seq<byte>, kind: byte, ping: bool)
    requires Distinct(cfg.codes)
    ensures var o := Receive(cfg, a, DataCode(cfg.codes, Flip(a.seqRx)), data, kind, ping);
      && o.actions == [Transmit([AckCode(cfg.codes, Flip(a.seqRx))], Some(cfg.text))]
      && Delivered(o.actions) == []
      && o.next == Stamped(a, data, kind)
  {
  }

  /** The matching ACK in Wait completes the exchange; in Idle an ACK changes nothing. */
  lemma AckHandling(cfg: Config, a: Arq, data: seq<byte>, kind: byte, parity: Bit, ping: bool)
    requires Distinct(cfg.codes)
    ensures var o := Receive(cfg, a, AckCode(cfg.codes, parity), data, kind, ping);
      && (a.phase == Idle ==> o.next == Stamped(a, data, kind) && o.actions == [])
      && (a.phase == Wait && parity == a.seqTx ==>
            o.next == Stamped(a, data, kind).(seqTx := Flip(a.seqTx), phase := Idle, timerArmed := false) &&
            o.actions == [])
  {
  }

  /**
   * A wrong-parity ACK in Wait runs the body of the retransmission timeout, whether or not
   * the timer is armed: with the timer armed it is handled exactly like a timeout, and with
   * the timer off (after a ping echo) it still retransmits below the ceiling and arms the
   * timer, where a timeout would never fire.
   */
  lemma WrongAckIsTimeout(cfg: Config, a: Arq, data: seq<byte>, kind: byte, ping: bool)
    requires Distinct(cfg.codes) && a.phase == Wait
    ensures var o := Receive(cfg, a, AckCode(cfg.codes, Flip(a.seqTx)), data, kind, ping);
      && (a.timerArmed ==> o == Timeout(cfg, Stamped(a, data, kind)))
      && (!a.timerArmed && a.attempts != cfg.limit ==>
            o == Out(Stamped(a, data, kind).(attempts := a.attempts + 1, timerArmed := true), [Transmit(a.msg, a.kind)]))
  {
  }

  /**
   * The ping case: fresh DATA in Idle while the framing ping flag is set is not delivered;
   * after the ACK the received data goes back as `DATA_seqTx ++ data` in a ping frame and
   * the layer waits, without resetting the retry count or reloading the timer.
   */
  lemma PingEcho(cfg: Config, a: Arq, data: seq<byte>, kind: byte)
    requires Distinct(cfg.codes) && a.phase == Idle
    ensures var o := Receive(cfg, a, DataCode(cfg.codes, a.seqRx), data, kind, true);
      var echo := [DataCode(cfg.codes, a.seqTx)] + data;
      && o.actions == [Transmit([AckCode(cfg.codes, a.seqRx)], Some(cfg.text)), Transmit(echo, Some(cfg.ping))]
      && Delivered(o.actions) == []
      && o.next == Stamped(a, data, kind).(seqRx := Flip(a.seqRx), msg := echo, phase := Wait)
  {
    var o := Receive(cfg, a, DataCode(cfg.codes, a.seqRx), data, kind, true);
    assert o.actions[1..] == [Transmit([DataCode(cfg.codes, a.seqTx)] + data, Some(cfg.ping))];
    DeliveredPair(o.actions[0], o.actions[1]);
  }

  /** The timer is off whenever the layer is Idle: every way into Idle disarms it. */
  predicate IdleQuiet(a: Arq)
  {
    a.phase == Idle ==> !a.timerArmed
  }

  /** The initial state is quiet, and every event keeps the timer off in Idle. */
  lemma IdleQuietKept(cfg: Config, a: Arq, control: byte, data: seq<byte>, kind: byte, ping: bool)
    requires IdleQuiet(a)
    ensures IdleQuiet(Init())
    ensures IdleQuiet(Receive(cfg, a, control, data, kind, ping).next)
    ensures IdleQuiet(Send(cfg, a, data, kind).next)
    ensures IdleQuiet(Timeout(cfg, a).next)
  {
  }

  /**
   * The ping echo is never retransmitted by the timer: the echo enters Wait without arming
   * it, so from a quiet Idle any number of timeouts that follow do nothing.
   */
  lemma EchoNotRetransmitted(cfg: Config, a: Arq, data: seq<byte>, kind: byte, n: nat)
    requires Distinct(cfg.codes) && a.phase == Idle && IdleQuiet(a)
    ensures var o := Receive(cfg, a, DataCode(cfg.codes, a.seqRx), data, kind, true);
      && o.next.phase == Wait && !o.next.timerArmed
      && Timeouts(cfg, o.next, n) == Out(o.next, [])
  {
    var o := Receive(cfg, a, DataCode(cfg.codes, a.seqRx), data, kind, true);
    PingEcho(cfg, a, data, kind);
    IdleTimeoutsDoNothing(cfg, o.next, n);
  }

  /**
   * `seqTx` changes only on the matching ACK in Wait; `seqRx` changes only on fresh DATA.
   * Send requests and timeouts leave both bits alone.
   */
  lemma SequenceBitsChangeOnlyOnProgress(cfg: Config, a: Arq, control: byte, data: seq<byte>, kind: byte, ping: bool)
    requires Distinct(cfg.codes)
    ensures var n := Receive(cfg, a, control, data, kind, ping).next;
      && (n.seqTx != a.seqTx <==> a.phase == Wait && control == AckCode(cfg.codes, a.seqTx))
      && (n.seqRx != a.seqRx <==> control == DataCode(cfg.codes, a.seqRx))
    ensures Send(cfg, a, data, kind).next.seqTx == a.seqTx && Send(cfg, a, data, kind).next.seqRx == a.seqRx
    ensures Timeout(cfg, a).next.seqTx == a.seqTx && Timeout(cfg, a).next.seqRx == a.seqRx
  {
  }

  /** The retry count never passes the ceiling, whatever event arrives. */
  lemma AttemptsBounded(cfg: Config, a: Arq, control: byte, data: seq<byte>, kind: byte, ping: bool)
    requires a.attempts <= cfg.limit
    ensures Receive(cfg, a, control, data, kind, ping).next.attempts <= cfg.limit
    ensures Send(cfg, a, data, kind).next.attempts <= cfg.limit
    ensures Timeout(cfg, a).next.attempts <= cfg.limit
  {
  }

  /** `n` retransmission timeouts in a row, collecting the actions. */
  function Timeouts(cfg: Config, a: Arq, n: nat): Out
    decreases n
  {
    if n == 0 then Out(a, [])
    else
      var first := Timeout(cfg, a);
      var rest := Timeouts(cfg, first.next, n - 1);
      Out(rest.next, first.actions + rest.actions)
  }

  /** `n` copies of the same retransmission. */
  function Copies(frame: seq<byte>, kind: Option<byte>, n: nat): (r: seq<Action>)
    ensures |r| == n
    ensures forall i :: 0 <= i < n ==> r[i] == Transmit(frame, kind)
  {
    if n == 0 then [] else [Transmit(frame, kind)] + Copies(frame, kind, n - 1)
  }

  /** While below the ceiling, each timeout in Wait resends the unchanged frame and counts it. */
  lemma {:induction false} TimeoutsBelowCeiling(cfg: Config, a: Arq, n: nat)
    requires a.phase == Wait && a.timerArmed && a.attempts + n <= cfg.limit
    ensures Timeouts(cfg, a, n).next == a.(attempts := a.attempts + n)
    ensures Timeouts(cfg, a, n).actions == Copies(a.msg, a.kind, n)
    decreases n
  {
    if n > 0 {
      var a1 := Timeout(cfg, a).next;
      TimeoutsBelowCeiling(cfg, a1, n - 1);
      assert Timeout(cfg, a).actions == [Transmit(a.msg, a.kind)];
    }
  }

  /**
   * Bounded retransmission: from a fresh send (count 0, timer armed) in Wait with the ACK
   * never arriving, exactly `limit` retransmissions of the unchanged frame happen; the next
   * timeout abandons the message (Idle, count 0, timer off), and further timeouts do nothing.
   */
  lemma {:induction false} ExactlyLimitRetransmissions(cfg: Config, a: Arq, extra: nat)
    requires a.phase == Wait && a.timerArmed && a.attempts == 0
    ensures var o := Timeouts(cfg, a, cfg.limit + 1 + extra);
      && o.actions == Copies(a.msg, a.kind, cfg.limit)
      && |Transmitted(o.actions)| == cfg.limit
      && o.next == a.(attempts := 0, phase := Idle, timerArmed := false)
  {
    TimeoutsBelowCeiling(cfg, a, cfg.limit);
    var w := Timeouts(cfg, a, cfg.limit).next;
    var idle := a.(attempts := 0, phase := Idle, timerArmed := false);
    TimeoutsSplit(cfg, a, cfg.limit, 1 + extra);
    assert Timeout(cfg, w).next == idle && Timeout(cfg, w).actions == [];
    IdleTimeoutsDoNothing(cfg, idle, extra);
    TransmittedCopies(a.msg, a.kind, cfg.limit);
  }

  lemma {:induction false} TimeoutsSplit(cfg: Config, a: Arq, m: nat, n: nat)
    ensures Timeouts(cfg, a, m + n).next == Timeouts(cfg, Timeouts(cfg, a, m).next, n).next
    ensures Timeouts(cfg, a, m + n).actions ==
            Timeouts(cfg, a, m).actions + Timeouts(cfg, Timeouts(cfg, a, m).next, n).actions
    decreases m
  {
    if m > 0 {
      TimeoutsSplit(cfg, Timeout(cfg, a).next, m - 1, n);
      assert m + n - 1 == (m - 1) + n;
    }
  }

  lemma {:induction false} IdleTimeoutsDoNothing(cfg: Config, a: Arq, n: nat)
    requires a.phase == Idle || !a.timerArmed
    ensures Timeouts(cfg, a, n).next == a && Timeouts(cfg, a, n).actions == []
    decreases n
  {
    if n > 0 {
      IdleTimeoutsDoNothing(cfg, a, n - 1);
    }
  }

  lemma {:induction false} TransmittedCopies(frame: seq<byte>, kind: Option<byte>, n: nat)
    ensures Transmitted(Copies(frame, kind, n)) == seq(n, _ => frame)
    decreases n
  {
    if n > 0 {
      TransmittedCopies(frame, kind, n - 1);
      assert Copies(frame, kind, n)[1..] == Copies(frame, kind, n - 1);
    }
  }
}
