/**
 * Properties of the DAF's remaining request handlers: the removal of the registration,
 * the change of operation mode, the information query, the opening of an update, the
 * certificate update, the download of a retained authorisation and the fingerprint.
 */
module DafServices {
  import opened Wrappers
  import opened Bytes
  import opened Json
  import WorkingMemory
  import Messages
  import opened Daf
  import opened DafProperties

  // ---------------------------------------------------------------------------------------
  // Removal of the registration (6, 7)

  /**
   * Removing the registration of a ready device without retained authorisations: request 6
   * with a nonce opens the process and arms the timer; request 7 with the event `REMOVER`
   * makes the device inactive and unregistered and closes the process.
   */
  lemma RemovalFlow(s: Daf, first: Object, c1: Checks, second: Object, c2: Checks)
    requires !s.ms.violado && !s.operacao && s.ms.estado == Pronto && s.ms.numDFe == 0
    requires Request(first, 6, {"msg", "jwt"}) && PayloadPresent(c1.jwt) && "nnc" in c1.jwt.value
    requires Request(second, 7, {"msg", "jwt"}) && PayloadPresent(c2.jwt)
    requires "evn" in c2.jwt.value && c2.jwt.value["evn"] == JStr("REMOVER")
    ensures var r1 := Process(s, first, c1);
      && r1 == Reply(s.(operacao := true, lastMsg := Some(6), timerArmed := true), Token)
      && Process(r1.next, second, c2) ==
           Reply(s.(ms := s.ms.(estado := Inativo, regok := false), lastMsg := Some(7), timerArmed := false), Success)
  {
    RequestValid(first, 6, {"msg", "jwt"});
    RequestValid(second, 7, {"msg", "jwt"});
    var r1 := Process(s, first, c1);
    assert r1 == RemoveRegistration(s.(timerArmed := true), first, c1);
    assert Gate(r1.next, second["msg"]) == Proceed;
  }

  /**
   * Request 6 outside the ready state fails with the wrong-state code, and with retained
   * authorisations it fails with the retained-authorisation code; a payload that does not
   * verify fails with the invalid-signature code.
   */
  lemma RemovalGuards(s: Daf, msg: Object, c: Checks)
    requires !s.ms.violado && !s.operacao && Request(msg, 6, {"msg", "jwt"})
    ensures s.ms.estado != Pronto ==> Process(s, msg, c) == Fail(s, 1)
    ensures s.ms.estado == Pronto && s.ms.numDFe != 0 ==> Process(s, msg, c) == Fail(s, 7)
    ensures s.ms.estado == Pronto && s.ms.numDFe == 0 && !PayloadPresent(c.jwt) ==> Process(s, msg, c) == Fail(s, 3)
  {
    RequestValid(msg, 6, {"msg", "jwt"});
  }

  // ---------------------------------------------------------------------------------------
  // Change of operation mode (12, 13)

  /**
   * Changing the operation mode: request 12 with a payload holding only a nonce opens the
   * process; request 13 with a payload holding only an integer mode 0 or 1 stores that
   * mode and closes the process. Nothing else changes.
   */
  lemma ModeChangeFlow(s: Daf, first: Object, c1: Checks, second: Object, c2: Checks)
    requires !s.ms.violado && !s.operacao && s.ms.estado == Pronto && s.ms.numDFe == 0
    requires Request(first, 12, {"msg", "jwt"}) && c1.jwt.Some? && c1.jwt.value.Keys == {"nnc"}
    requires Request(second, 13, {"msg", "jwt"}) && c2.jwt.Some? && c2.jwt.value.Keys == {"mop"}
    requires IsNumber(c2.jwt.value["mop"]) && AsNumber(c2.jwt.value["mop"]) in {0, 1}
    ensures var r1 := Process(s, first, c1);
      && r1 == Reply(s.(operacao := true, lastMsg := Some(12), timerArmed := true), Token)
      && Process(r1.next, second, c2) ==
           Reply(s.(ms := s.ms.(mop := c2.jwt.value["mop"]), lastMsg := Some(13), timerArmed := false), Success)
  {
    RequestValid(first, 12, {"msg", "jwt"});
    RequestValid(second, 13, {"msg", "jwt"});
    assert |c1.jwt.value| == |c1.jwt.value.Keys| == 1;
    assert |c2.jwt.value| == |c2.jwt.value.Keys| == 1;
    var r1 := Process(s, first, c1);
    assert r1 == ChangeMode(s.(timerArmed := true), first, c1);
    assert Gate(r1.next, second["msg"]) == Proceed;
    assert Process(r1.next, second, c2) == ConfirmModeAsWritten(r1.next.(timerArmed := false), second, c2);
  }

  /**
   * An integer mode other than 0 or 1 in the confirmation: the program forgets the last
   * message, disarms the timer and then raises, so the mode change stays open; the
   * corrected processor answers the malformed-request failure from the same state.
   */
  lemma ModeChangeUnknownMode(s: Daf, first: Object, c1: Checks, second: Object, c2: Checks)
    requires !s.ms.violado && !s.operacao && s.ms.estado == Pronto && s.ms.numDFe == 0
    requires Request(first, 12, {"msg", "jwt"}) && c1.jwt.Some? && c1.jwt.value.Keys == {"nnc"}
    requires Request(second, 13, {"msg", "jwt"}) && c2.jwt.Some? && c2.jwt.value.Keys == {"mop"}
    requires IsNumber(c2.jwt.value["mop"]) && AsNumber(c2.jwt.value["mop"]) !in {0, 1}
    ensures var r1 := Process(s, first, c1);
      && Process(r1.next, second, c2) ==
           Reply(s.(operacao := true, lastMsg := None, timerArmed := false), Crash)
      && ProcessCorrected(r1.next, second, c2) == Fail(r1.next, 2)
  {
    RequestValid(first, 12, {"msg", "jwt"});
    RequestValid(second, 13, {"msg", "jwt"});
    assert |c1.jwt.value| == |c1.jwt.value.Keys| == 1;
    assert |c2.jwt.value| == |c2.jwt.value.Keys| == 1;
    var r1 := Process(s, first, c1);
    assert r1 == ChangeMode(s.(timerArmed := true), first, c1);
    assert Gate(r1.next, second["msg"]) == Proceed;
    assert Process(r1.next, second, c2) == ConfirmModeAsWritten(r1.next.(timerArmed := false), second, c2);
  }

  // ---------------------------------------------------------------------------------------
  // Information (8), update request (9), certificate (10), download (11), fingerprint (15)

  /**
   * The information query reports the state, the smaller of the two limits, `NumDFe` and
   * the counter, recording only the last message; an unusable device gets the wrong-state
   * failure, and a stored version that is not hexadecimal raises.
   */
  lemma InformationReport(s: Daf, msg: Object, c: Checks)
    requires "msg" in msg && Messages.IsCode(msg["msg"], 8) && !s.ms.violado && !s.operacao
    ensures s.ms.estado == Inutilizado ==> Process(s, msg, c) == Fail(s, 1)
    ensures s.ms.estado != Inutilizado && HexValue(s.ms.versaoSB).None? ==> Process(s, msg, c) == Reply(s, Crash)
    ensures s.ms.estado != Inutilizado && HexValue(s.ms.versaoSB).Some? ==>
      var r := Process(s, msg, c);
      && r.next == s.(lastMsg := Some(8))
      && r.response.Information?
      && r.response.est == s.ms.estado && r.response.ndf == s.ms.numDFe && r.response.cnt == s.ms.contador
      && r.response.mxd <= s.ms.maxDFe && r.response.mxd <= s.ms.maxDFeModel
      && (r.response.mxd == s.ms.maxDFe || r.response.mxd == s.ms.maxDFeModel)
  {
  }

  /**
   * Request 9 opens an update process for an inactive or ready device without retained
   * authorisations; until it is cancelled by request 14 every other request is rejected as
   * malformed. With retained authorisations it fails, and in any other state too.
   */
  lemma UpdateRequestOpens(s: Daf, msg: Object, c: Checks, other: Object, c2: Checks)
    requires "msg" in msg && Messages.IsCode(msg["msg"], 9) && !s.ms.violado && !s.operacao
    requires "msg" in other
    ensures s.ms.estado != Inativo && s.ms.estado != Pronto ==> Process(s, msg, c) == Fail(s, 1)
    ensures (s.ms.estado == Inativo || s.ms.estado == Pronto) && s.ms.numDFe != 0 ==> Process(s, msg, c) == Fail(s, 7)
    ensures (s.ms.estado == Inativo || s.ms.estado == Pronto) && s.ms.numDFe == 0 ==>
      var r := Process(s, msg, c);
      && r == Reply(s.(operacao := true, lastMsg := Some(9), timerArmed := true), Success)
      && (Messages.IsCode(other["msg"], 14) ==>
            Process(r.next, other, c2) == Reply(s.(lastMsg := Some(14), nonce := None, timerArmed := false), Success))
      && (!Messages.IsCode(other["msg"], 14) ==> Process(r.next, other, c2) == Fail(r.next, 2))
  {
  }

  /**
   * A certificate update succeeds iff the new certificate is signed under the current one
   * and the firmware signature it carries verifies under the new one; then the carried
   * signature becomes the stored one and nothing else changes. The first check that fails
   * names the failure.
   */
  lemma CertificateUpdate(s: Daf, msg: Object, c: Checks)
    requires Request(msg, 10, {"msg", "crt", "sig"}) && !s.ms.violado && !s.operacao
    requires s.ms.estado != Inutilizado
    ensures Process(s, msg, c).response == Success <==> c.certificateOk && c.firmwareOk
    ensures c.certificateOk && c.firmwareOk ==>
      Process(s, msg, c).next == s.(ms := s.ms.(assinaturaSEF := c.signature))
    ensures !c.certificateOk ==> Process(s, msg, c) == Fail(s, 10)
    ensures c.certificateOk && !c.firmwareOk ==> Process(s, msg, c) == Fail(s, 12)
  {
    RequestValid(msg, 10, {"msg", "crt", "sig"});
  }

  /**
   * Downloading a retained authorisation answers the claims, the fragment and the hash of
   * the one record with that identifier, and records only the last message; an identifier
   * held by no record, or by several, is reported as not found.
   */
  lemma DownloadRetained(s: Daf, msg: Object, c: Checks)
    requires Inv(s) && !s.ms.violado && !s.operacao && (s.ms.estado == Pronto || s.ms.estado == Bloqueado)
    requires Request(msg, 11, {"msg", "aut"})
    ensures !WorkingMemory.Exists(s.mt, "aut", msg["aut"]) ==> Process(s, msg, c) == Fail(s, 6)
    ensures forall i | WorkingMemory.UniqueMatchAt(s.mt, "aut", msg["aut"], i) ::
      && StoredClaims(s.mt[i]).Some? && "fdf" in s.mt[i] && "hdf" in s.mt[i]
      && Process(s, msg, c) ==
           Reply(s.(lastMsg := Some(11)), Retained(StoredClaims(s.mt[i]).value, s.mt[i]["fdf"], s.mt[i]["hdf"]))
  {
    RequestValid(msg, 11, {"msg", "aut"});
    assert Process(s, msg, c) == Download(s, msg);
    forall i | WorkingMemory.UniqueMatchAt(s.mt, "aut", msg["aut"], i)
      ensures StoredClaims(s.mt[i]).Some? && "fdf" in s.mt[i] && "hdf" in s.mt[i]
      ensures Download(s, msg) ==
                Reply(s.(lastMsg := Some(11)), Retained(StoredClaims(s.mt[i]).value, s.mt[i]["fdf"], s.mt[i]["hdf"]))
    {
      WorkingMemory.GetUnique(s.mt, "aut", msg["aut"], i);
      assert s.mt[i].Keys == WorkingMemory.Fields;
    }
  }

  /** The fingerprint is issued to a ready or blocked device and recorded as the last message. */
  lemma FingerprintIssued(s: Daf, msg: Object, c: Checks)
    requires "msg" in msg && msg["msg"] == JInt(15) && !s.ms.violado && !s.operacao
    ensures s.ms.estado == Pronto || s.ms.estado == Bloqueado ==> Process(s, msg, c) == Reply(s.(lastMsg := Some(15)), Token)
    ensures s.ms.estado == Inativo || s.ms.estado == Inutilizado ==> Process(s, msg, c) == Fail(s, 1)
  {
  }
}
