/**
 * Properties of the DAF's two-step processes and development requests: registration,
 * the session timeout, the factory resets and the operation-mode confirmation.
 */
module DafSessions {
  import opened Wrappers
  import opened Bytes
  import opened Json
  import WorkingMemory
  import Messages
  import opened Daf
  import opened DafProperties

  /** Past the violation and session gates, a request reaches its handler. */
  lemma RouteProceed(s: Daf, msg: Object, c: Checks)
    requires "msg" in msg && !s.ms.violado && Gate(s, msg["msg"]) == Proceed
    ensures Process(s, msg, c) == Dispatch(s, msg, c)
  {
  }

  // ---------------------------------------------------------------------------------------
  // Registration

  /**
   * Registration of an inactive device: request 1 with a payload holding only a nonce
   * opens the process and arms the timer; request 2 with a payload of exactly the two keys
   * and the operation mode completes it, making the device ready and registered.
   */
  lemma RegistrationFlow(s: Daf, first: Object, c1: Checks, second: Object, c2: Checks)
    requires !s.ms.violado && !s.operacao && s.ms.estado == Inativo && HexValue(s.ms.versaoSB).Some?
    requires Request(first, 1, {"msg", "jwt"}) && c1.jwt.Some? && c1.jwt.value.Keys == {"nnc"}
    requires Request(second, 2, {"msg", "jwt"}) && c2.jwt.Some? && c2.jwt.value.Keys == {"chs", "chp", "mop"}
    requires IsNumber(c2.jwt.value["mop"])
    ensures var r1 := Process(s, first, c1);
      var r2 := Process(r1.next, second, c2);
      && r1.response == Token
      && r1.next == s.(operacao := true, lastMsg := Some(1), timerArmed := true)
      && r2.response == Success
      && r2.next == s.(ms := s.ms.(estado := Pronto, regok := true, mop := c2.jwt.value["mop"]),
                       lastMsg := Some(2), timerArmed := false)
  {
    RequestValid(first, 1, {"msg", "jwt"});
    RequestValid(second, 2, {"msg", "jwt"});
    assert |c1.jwt.value| == |c1.jwt.value.Keys| == 1;
    assert |c2.jwt.value| == |c2.jwt.value.Keys| == 3;
    RouteProceed(s, first, c1);
    var r1 := Process(s, first, c1);
    assert Gate(r1.next, second["msg"]) == Proceed;
    RouteProceed(r1.next, second, c2);
  }

  // ---------------------------------------------------------------------------------------
  // Authorisation

  /**
   * Authorising a document: request 3 issues a nonce and opens the session; request 4 with
   * a correct HMAC for a document hash not yet retained then passes the gate, retains the
   * new record, counts it in `NumDFe` and the counter, spends the nonce and closes the
   * session.
   */
  lemma AuthorisationFlow(s: Daf, first: Object, c1: Checks, second: Object, c2: Checks)
    requires Inv(s) && !s.ms.violado && !s.operacao && s.ms.estado == Pronto && c2.hmacOk
    requires Request(first, 3, {"msg"}) && Request(second, 4, {"msg", "fdf", "hdf", "pdv", "red"})
    requires !WorkingMemory.Exists(s.mt, "hdf", second["hdf"])
    requires HexValue(s.ms.versaoSB).Some? && 0 <= s.ms.contador + 1 < 0x1_0000_0000
    ensures var session := s.(nonce := Some(c1.nonce), lastMsg := Some(3), operacao := true, timerArmed := true);
      Process(s, first, c1) == Reply(session, NonceIssued(c1.nonce))
    ensures var r := Process(s.(nonce := Some(c1.nonce), lastMsg := Some(3), operacao := true, timerArmed := true), second, c2);
      && r.response.Authorization?
      && r.next.ms.contador == s.ms.contador + 1
      && r.next.ms.numDFe == s.ms.numDFe + 1
      && r.next.mt == s.mt + [Retention(s.ms, second, c2, HexValue(s.ms.versaoSB).value)]
      && r.next.nonce == Some("") && !r.next.operacao && r.next.lastMsg == Some(4) && !r.next.timerArmed
      && Inv(r.next)
  {
    var t := s.(nonce := Some(c1.nonce), lastMsg := Some(3), operacao := true, timerArmed := true);
    AuthenticationStep(s, first, c1);
    NewAuthorisation(t, second, c2);
  }

  /** Request 3 to a ready device with no open process issues the nonce and opens the session. */
  lemma AuthenticationStep(s: Daf, first: Object, c1: Checks)
    requires Request(first, 3, {"msg"}) && !s.ms.violado && s.ms.estado == Pronto && !s.operacao
    ensures Process(s, first, c1)
         == Reply(s.(nonce := Some(c1.nonce), lastMsg := Some(3), operacao := true, timerArmed := true), NonceIssued(c1.nonce))
  {
    Messages.ValidMatchesTable(first);
  }

  /** While registration is open, request 1 is rejected and the process stays open. */
  lemma RegistrationNotRepeated(s: Daf, msg: Object, c: Checks)
    requires !s.ms.violado && s.operacao && s.lastMsg == Some(1)
    requires Request(msg, 1, {"msg", "jwt"})
    ensures Process(s, msg, c) == Fail(s, 2) && Process(s, msg, c).next.operacao
  {
    SessionGate(s, msg, c);
  }

  // ---------------------------------------------------------------------------------------
  // Timeout

  /**
   * The session timer, while armed, cancels the open process of an inactive or ready
   * device: the nonce is discarded and every request passes the session gate again. A
   * blocked or unusable device refuses the cancellation, so its process stays open, but the
   * timer is disarmed all the same. A disarmed timer never fires, so a second timeout
   * changes nothing.
   */
  lemma TimeoutCancels(s: Daf, code: JValue)
    ensures !s.timerArmed ==> Timeout(s) == s
    ensures s.timerArmed && (s.ms.estado == Inativo || s.ms.estado == Pronto) ==>
      && Timeout(s) == s.(operacao := false, nonce := None, lastMsg := Some(14), timerArmed := false)
      && Gate(Timeout(s), code) == Proceed
    ensures s.timerArmed && (s.ms.estado == Bloqueado || s.ms.estado == Inutilizado) ==>
      Timeout(s) == s.(lastMsg := None, timerArmed := false)
    ensures Timeout(Timeout(s)) == Timeout(s)
  {
  }

  // ---------------------------------------------------------------------------------------
  // Development requests

  /**
   * The factory reset is the one request a violated device still serves. It empties the
   * working memory, writes the factory parameters (clearing the violation) and keeps a
   * non-empty device identifier; a second reset then changes nothing.
   */
  lemma FactoryResetTwice(s: Daf, msg: Object, c1: Checks, c2: Checks)
    requires "msg" in msg && msg["msg"] == JInt(9999) && Gate(s, msg["msg"]) == Proceed
    ensures var r := Process(s, msg, c1);
      && r.response == Success
      && r.next == s.(operacao := false, mt := [], nonce := None,
                      ms := FactoryParams(s.current, if |s.ms.iddaf| > 0 then s.ms.iddaf else c1.deviceId))
      && !r.next.ms.violado && r.next.ms.estado == Inativo && Inv(r.next)
      && (|r.next.ms.iddaf| > 0 ==> Process(r.next, msg, c2) == r)
  {
    var r := Process(s, msg, c1);
    assert r == FactoryReset(s, c1);
    assert Gate(r.next, msg["msg"]) == Proceed;
    assert Process(r.next, msg, c2) == FactoryReset(r.next, c2);
  }

  /** Request 9997 resets to the factory parameters under the fresh identifier it draws, whatever the old one. */
  lemma NewIdentityUsesFreshId(s: Daf, msg: Object, c: Checks)
    requires "msg" in msg && msg["msg"] == JInt(9997) && !s.ms.violado && Gate(s, msg["msg"]) == Proceed
    requires |c.deviceId| > 0
    ensures var r := Process(s, msg, c);
      && r.response == Success
      && r.next == s.(operacao := false, mt := [], nonce := None, ms := FactoryParams(s.current, c.deviceId))
      && Inv(r.next)
  {
    assert Process(s, msg, c) == NewIdentity(s, c);
  }

  /**
   * Request 9998 violates the device; from then on every request but 9999 gets the
   * unusable report, and 9999 restores the factory parameters.
   */
  lemma ViolationUntilReset(s: Daf, violate: Object, c1: Checks, other: Object, c2: Checks)
    requires "msg" in violate && violate["msg"] == JInt(9998) && !s.ms.violado && Gate(s, violate["msg"]) == Proceed
    requires "msg" in other && !Messages.IsCode(other["msg"], 9999)
    ensures var r := Process(s, violate, c1);
      && r == Reply(s.(ms := s.ms.(violado := true)), Success)
      && Process(r.next, other, c2) == Inutilize(r.next)
      && Process(r.next, other, c2).next.ms.estado == Inutilizado
  {
    assert Process(s, violate, c1) == Dispatch(s, violate, c1);
  }

  // ---------------------------------------------------------------------------------------
  // Operation-mode confirmation (13)

  /**
   * As written, a confirmation whose mode is an integer other than 0 or 1 does the failure
   * bookkeeping and then raises instead of answering, so the process stays open.
   */
  lemma ConfirmModeAsWrittenRaises(s: Daf, msg: Object, c: Checks)
    requires s.operacao && Request(msg, 13, {"msg", "jwt"})
    requires c.jwt == Some(map["mop" := JInt(2)])
    ensures ConfirmModeAsWritten(s, msg, c).response == Crash
    ensures ConfirmModeAsWritten(s, msg, c).next == Fail(s, 2).next
    ensures ConfirmModeAsWritten(s, msg, c).next.operacao
  {
    RequestValid(msg, 13, {"msg", "jwt"});
  }

  /**
   * The corrected confirmation never raises; it differs from the code as written only in
   * answering the unknown mode with a malformed-request failure. It succeeds exactly for a
   * payload holding the single integer mode 0 or 1, which becomes the stored mode.
   */
  lemma ConfirmModeCorrected(s: Daf, msg: Object, c: Checks)
    requires "msg" in msg
    ensures var r := ConfirmMode(s, msg, c);
      var w := ConfirmModeAsWritten(s, msg, c);
      && r.response != Crash
      && (w.response != Crash ==> w == r)
      && (w.response == Crash ==> r == Fail(s, 2) && w.next == r.next)
      && (r.response == Success <==>
            s.operacao && Messages.Valid(msg) && PayloadPresent(c.jwt) && ModePayload(c.jwt.value) &&
            (PyEq(c.jwt.value["mop"], JInt(0)) || PyEq(c.jwt.value["mop"], JInt(1))))
      && (r.response == Success ==>
            r.next == s.(ms := s.ms.(mop := c.jwt.value["mop"]), operacao := false, lastMsg := Some(13)))
  {
  }

  /**
   * The corrected processor differs from the program only where the program raises in the
   * mode confirmation: there it answers the malformed-request failure instead, from the
   * same state. Everywhere else the two agree, so the corrected processor never raises
   * where the program answers.
   */
  lemma ProcessCorrectedOnlyAnswers(s: Daf, msg: Object, c: Checks)
    ensures var w := Process(s, msg, c);
      var r := ProcessCorrected(s, msg, c);
      && r.next == w.next
      && (r.response == w.response || (w.response == Crash && r.response == Failure(2)))
  {
    if "msg" in msg && !(s.ms.violado && !Messages.IsCode(msg["msg"], 9999)) && Gate(s, msg["msg"]) == Proceed
       && Messages.CodeOf(msg["msg"]) == Some(13) {
      assert Process(s, msg, c) == ConfirmModeAsWritten(s.(timerArmed := false), msg, c);
      ConfirmModeCorrected(s.(timerArmed := false), msg, c);
    }
  }
}
