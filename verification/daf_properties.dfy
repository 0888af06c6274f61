/**
 * Properties of the DAF request processor: the gates, the failure bookkeeping, the
 * retained-authorisation counters, the listing range, the update bookkeeping and the
 * development resets.
 */
module DafProperties {
  import opened Wrappers
  import opened Bytes
  import opened Json
  import WorkingMemory
  import Image
  import Messages
  import opened Daf

  /** `NumDFe` counts the retained authorisations, each a record with the stored fields. */
  predicate Inv(s: Daf)
  {
    s.ms.numDFe == |s.mt| && WorkingMemory.WellFormed(s.mt)
  }

  /** A request with code `n` and exactly the keys `keys`. */
  predicate Request(msg: Object, n: int, keys: set<string>)
  {
    "msg" in msg && msg["msg"] == JInt(n) && msg.Keys == keys
  }

  /** A request with exactly the keys its code requires is valid. */
  lemma RequestValid(msg: Object, n: int, keys: set<string>)
    requires Request(msg, n, keys) && Messages.RuleFor(n) == Messages.ExactKeys(keys)
    ensures Messages.Valid(msg)
  {
    Messages.ValidMatchesTable(msg);
  }

  // ---------------------------------------------------------------------------------------
  // Gates and failures

  /**
   * On a violated device every request but 9999 is answered with the unusable report
   * (raising when the stored version is not hexadecimal): the device becomes unusable
   * and nothing else changes.
   */
  lemma ViolatedDeviceIsUnusable(s: Daf, msg: Object, c: Checks)
    requires "msg" in msg && s.ms.violado && !Messages.IsCode(msg["msg"], 9999)
    ensures var r := Process(s, msg, c);
      && r.next == s.(ms := s.ms.(estado := Inutilizado))
      && (r.response == Unusable <==> HexValue(s.ms.versaoSB).Some?)
      && (r.response == Crash <==> HexValue(s.ms.versaoSB).None?)
  {
  }

  /**
   * The session gate: during a process opened by 1, 3, 6 or 12, request 14 cancels, the
   * matching confirmation is dispatched and anything else is rejected as malformed; a
   * process opened by 9 only accepts 14.
   */
  lemma SessionGate(s: Daf, msg: Object, c: Checks)
    requires "msg" in msg && !s.ms.violado && s.operacao && s.lastMsg.Some?
    ensures var k := s.lastMsg.value; var code := msg["msg"];
      && (k in {1, 3, 6, 9, 12} && Messages.IsCode(code, 14) ==> Process(s, msg, c) == Cancel(s))
      && (k in {1, 3, 6, 12} && !Messages.IsCode(code, 14) && !Messages.IsCode(code, Confirmation(k)) ==>
            Process(s, msg, c) == Fail(s, 2))
      && (k in {1, 3, 6, 12} && Messages.IsCode(code, Confirmation(k)) ==> Process(s, msg, c) == Dispatch(s, msg, c))
      && (k == 9 && !Messages.IsCode(code, 14) ==> Process(s, msg, c) == Fail(s, 2))
  {
    var k := s.lastMsg.value;
    var code := msg["msg"];
    if k in {1, 3, 6, 12} && Messages.IsCode(code, Confirmation(k)) {
      assert !Messages.IsCode(code, 14) by {
        PyEqEquivalence(code, JInt(Confirmation(k)), JInt(14));
      }
    }
  }

  /**
   * A request for authentication opens a session in which only the authorisation (4) and
   * the cancellation (14) are accepted: any other request that follows is rejected as
   * malformed, even the factory reset.
   */
  lemma AuthenticationOpensSession(s: Daf, first: Object, c1: Checks, second: Object, c2: Checks)
    requires Request(first, 3, {"msg"}) && !s.ms.violado && s.ms.estado == Pronto && !s.operacao
    requires "msg" in second && !Messages.IsCode(second["msg"], 4) && !Messages.IsCode(second["msg"], 14)
    ensures var r := Process(s, first, c1);
      && r.response == NonceIssued(c1.nonce)
      && r.next == s.(nonce := Some(c1.nonce), lastMsg := Some(3), operacao := true, timerArmed := true)
      && Process(r.next, second, c2) == Fail(r.next, 2)
  {
    Messages.ValidMatchesTable(first);
  }

  /**
   * A failed request changes nothing but the last message, which is forgotten, and the
   * timer, which is disarmed; in particular an open process stays open.
   */
  lemma FailureLeavesStateAlone(s: Daf, msg: Object, c: Checks)
    ensures Process(s, msg, c).response.Failure? ==>
      Process(s, msg, c).next == s.(lastMsg := None, timerArmed := false)
  {
    if "msg" in msg && !(s.ms.violado && !Messages.IsCode(msg["msg"], 9999)) && Gate(s, msg["msg"]) == Proceed {
      DispatchFailure(s, msg, c);
    }
  }

  /** A reply that is a failure changes nothing of `s` but the last message and the timer. */
  predicate Clean(s: Daf, r: Reply)
  {
    r.response.Failure? ==> r.next == s.(lastMsg := None, timerArmed := false)
  }

  lemma DispatchFailure(s: Daf, msg: Object, c: Checks)
    requires "msg" in msg
    ensures Clean(s, Dispatch(s, msg, c))
  {
    match Messages.CodeOf(msg["msg"])
    case None =>
    case Some(n) =>
      if n <= 8 {
        SessionHandlersFailure(s, msg, c, n);
      } else {
        ServiceHandlersFailure(s, msg, c, n);
      }
  }

  /** A request is left without a reply exactly when no handler serves its code, and then nothing changes. */
  lemma DispatchAnswers(s: Daf, msg: Object, c: Checks)
    requires "msg" in msg
    ensures var r := Dispatch(s, msg, c);
      && (r.response == NoReply <==> Messages.CodeOf(msg["msg"]) !in HandledCodes)
      && (r.response == NoReply ==> r.next == s)
  {
    match Messages.CodeOf(msg["msg"])
    case None =>
    case Some(n) =>
      if n <= 4 {
        RegistrationHandlersAnswer(s, msg, c, n);
      } else if n <= 8 {
        RemovalHandlersAnswer(s, msg, c, n);
      } else if n <= 13 {
        ServiceHandlersAnswer(s, msg, c, n);
      } else {
        OtherHandlersAnswer(s, msg, c, n);
      }
  }

  lemma RegistrationHandlersAnswer(s: Daf, msg: Object, c: Checks, n: int)
    requires "msg" in msg && Messages.CodeOf(msg["msg"]) == Some(n) && n <= 4
    ensures Dispatch(s, msg, c).response == NoReply <==> Some(n) !in HandledCodes
  {
    if n == 1 {
      assert Register(s.(timerArmed := true), msg, c).response != NoReply;
    }     else if n == 2 {
      assert ConfirmRegistration(s.(timerArmed := false), msg, c).response != NoReply;
    }     else if n == 3 {
      assert RequestAuthentication(s.(timerArmed := true), msg, c).response != NoReply;
    }     else if n == 4 {
      assert Authorize(s.(timerArmed := false), msg, c).response != NoReply;
    }
  }

  lemma RemovalHandlersAnswer(s: Daf, msg: Object, c: Checks, n: int)
    requires "msg" in msg && Messages.CodeOf(msg["msg"]) == Some(n) && 4 < n <= 8
    ensures Dispatch(s, msg, c).response == NoReply <==> Some(n) !in HandledCodes
  {
    if n == 5 {
      assert Erase(s, msg, c).response != NoReply;
    }     else if n == 6 {
      assert RemoveRegistration(s.(timerArmed := true), msg, c).response != NoReply;
    }     else if n == 7 {
      assert ConfirmRemoval(s.(timerArmed := false), msg, c).response != NoReply;
    }     else if n == 8 {
      assert QueryInformation(s).response != NoReply;
    }
  }

  lemma ServiceHandlersAnswer(s: Daf, msg: Object, c: Checks, n: int)
    requires "msg" in msg && Messages.CodeOf(msg["msg"]) == Some(n) && 8 < n <= 13
    ensures Dispatch(s, msg, c).response == NoReply <==> Some(n) !in HandledCodes
  {
    if n == 9 {
      assert StartUpdate(s.(timerArmed := true)).response != NoReply;
    }     else if n == 10 {
      assert UpdateCertificate(s, msg, c).response != NoReply;
    }     else if n == 11 {
      assert Download(s, msg).response != NoReply;
    }     else if n == 12 {
      assert ChangeMode(s.(timerArmed := true), msg, c).response != NoReply;
    }     else if n == 13 {
      assert ConfirmModeAsWritten(s.(timerArmed := false), msg, c).response != NoReply;
    }
  }

  lemma OtherHandlersAnswer(s: Daf, msg: Object, c: Checks, n: int)
    requires "msg" in msg && Messages.CodeOf(msg["msg"]) == Some(n) && n > 13
    ensures Dispatch(s, msg, c).response == NoReply <==> Some(n) !in HandledCodes
  {
    if n == 14 {
      assert Cancel(s).response != NoReply;
    }     else if n == 15 {
      assert Fingerprint(s, msg).response != NoReply;
    }     else if n == 16 {
      assert ListAuthorisations(s, msg).response != NoReply;
    }     else if n == 9997 {
      assert NewIdentity(s, c).response != NoReply;
    }     else if n == 9999 {
      assert FactoryReset(s, c).response != NoReply;
    }
  }

  lemma SessionHandlersFailure(s: Daf, msg: Object, c: Checks, n: int)
    requires "msg" in msg && Messages.CodeOf(msg["msg"]) == Some(n) && n <= 8
    ensures Clean(s, Dispatch(s, msg, c))
  {
    if n == 1 {
      assert Clean(s, Register(s.(timerArmed := true), msg, c));
    } else if n == 2 {
      assert Clean(s, ConfirmRegistration(s.(timerArmed := false), msg, c));
    } else if n == 3 {
      assert Clean(s, RequestAuthentication(s.(timerArmed := true), msg, c));
    } else if n == 4 {
      AuthorizeFailure(s.(timerArmed := false), msg, c);
    } else if n == 5 {
      assert Clean(s, Erase(s, msg, c));
    } else if n == 6 {
      assert Clean(s, RemoveRegistration(s.(timerArmed := true), msg, c));
    } else if n == 7 {
      assert Clean(s, ConfirmRemoval(s.(timerArmed := false), msg, c));
    } else if n == 8 {
      assert Clean(s, QueryInformation(s));
    }
  }

  lemma ServiceHandlersFailure(s: Daf, msg: Object, c: Checks, n: int)
    requires "msg" in msg && Messages.CodeOf(msg["msg"]) == Some(n) && n > 8
    ensures Clean(s, Dispatch(s, msg, c))
  {
    if n == 9 {
      assert Clean(s, StartUpdate(s.(timerArmed := true)));
    } else if n == 10 {
      assert Clean(s, UpdateCertificate(s, msg, c));
    } else if n == 11 {
      assert Clean(s, Download(s, msg));
    } else if n == 12 {
      assert Clean(s, ChangeMode(s.(timerArmed := true), msg, c));
    } else if n == 13 {
      assert Clean(s, ConfirmModeAsWritten(s.(timerArmed := false), msg, c));
    } else if n == 14 {
      assert Clean(s, Cancel(s));
    } else if n == 15 {
      assert Clean(s, Fingerprint(s, msg));
    } else if n == 16 {
      assert Clean(s, ListAuthorisations(s, msg));
    }
  }

  lemma AuthorizeFailure(s: Daf, msg: Object, c: Checks)
    requires "msg" in msg && Messages.IsCode(msg["msg"], 4)
    ensures Clean(s, Authorize(s, msg, c))
  {
    if s.ms.estado == Pronto && Messages.Valid(msg) && s.nonce.Some? && c.hmacOk {
      var u := s.(nonce := Some(""));
      if !WorkingMemory.Exists(u.mt, "hdf", msg["hdf"]) {
        assert !Issue(u, msg, c).response.Failure?;
      } else {
        assert !Reissue(u, msg).response.Failure?;
      }
    }
  }

  // ---------------------------------------------------------------------------------------
  // Retained authorisations

  /** The record a new authorisation retains. */
  function Retention(ms: Params, msg: Object, c: Checks, vsb: int): WorkingMemory.Record
    requires "pdv" in msg && "fdf" in msg && "hdf" in msg
  {
    WorkingMemory.NewRecord(JStr(ms.iddaf), ms.mop, msg["pdv"], JInt(vsb), JInt(ms.contador + 1),
                            JStr(c.authorisation), msg["fdf"], msg["hdf"])
  }

  /**
   * An authorisation for a document hash that is not retained: the counter and `NumDFe`
   * grow by one, the new record is appended, the device blocks exactly when `NumDFe`
   * reaches the smaller limit, the nonce is spent and the process closes. The token's
   * counter and identifier are the new ones. The request comes either inside the session
   * a request for authentication opened, or after it closed with the nonce still kept.
   */
  lemma NewAuthorisation(s: Daf, msg: Object, c: Checks)
    requires Inv(s) && !s.ms.violado && s.ms.estado == Pronto && s.nonce.Some? && c.hmacOk
    requires !s.operacao || s.lastMsg == Some(3)
    requires Request(msg, 4, {"msg", "fdf", "hdf", "pdv", "red"})
    requires !WorkingMemory.Exists(s.mt, "hdf", msg["hdf"])
    requires HexValue(s.ms.versaoSB).Some? && 0 <= s.ms.contador + 1 < 0x1_0000_0000
    ensures var r := Process(s, msg, c);
      && r.next.ms.contador == s.ms.contador + 1
      && r.next.ms.numDFe == s.ms.numDFe + 1
      && r.next.mt == s.mt + [Retention(s.ms, msg, c, HexValue(s.ms.versaoSB).value)]
      && (r.next.ms.estado == Bloqueado <==> s.ms.numDFe + 1 == Min(s.ms.maxDFe, s.ms.maxDFeModel))
      && (r.next.ms.estado != Bloqueado ==> r.next.ms.estado == Pronto)
      && r.next.nonce == Some("") && !r.next.operacao && r.next.lastMsg == Some(4) && !r.next.timerArmed
      && r.response.Authorization?
      && StoredClaims(Retention(s.ms, msg, c, HexValue(s.ms.versaoSB).value)) == Some(r.response.claims)
      && r.response.claims["cnt"] == JInt(s.ms.contador + 1) && r.response.claims["aut"] == JStr(c.authorisation)
      && Inv(r.next)
  {
    RouteToIssue(s, msg, c);
    IssueEffects(s, msg, c);
  }

  /** An authorisation request that passes the guards, for a document hash not retained, issues a new one. */
  lemma RouteToIssue(s: Daf, msg: Object, c: Checks)
    requires !s.ms.violado && s.ms.estado == Pronto && s.nonce.Some? && c.hmacOk
    requires !s.operacao || s.lastMsg == Some(3)
    requires Request(msg, 4, {"msg", "fdf", "hdf", "pdv", "red"})
    requires !WorkingMemory.Exists(s.mt, "hdf", msg["hdf"])
    ensures Process(s, msg, c) == Issue(s.(timerArmed := false, nonce := Some("")), msg, c)
  {
    RequestValid(msg, 4, {"msg", "fdf", "hdf", "pdv", "red"});
    RouteAuthorize(s, msg, c);
  }

  /**
   * An authorisation request with no nonce issued (none since start-up, a reset, a new
   * identifier or a cancellation) raises when the missing nonce is decoded for the HMAC,
   * whatever the HMAC would have said; only the timer has been disarmed by then.
   */
  lemma AuthorisationWithoutNonce(s: Daf, msg: Object, c: Checks)
    requires !s.ms.violado && !s.operacao && s.ms.estado == Pronto && s.nonce.None?
    requires Request(msg, 4, {"msg", "fdf", "hdf", "pdv", "red"})
    ensures Process(s, msg, c) == Reply(s.(timerArmed := false), Crash)
  {
    RequestValid(msg, 4, {"msg", "fdf", "hdf", "pdv", "red"});
    RouteAuthorize(s, msg, c);
  }

  lemma RouteAuthorize(s: Daf, msg: Object, c: Checks)
    requires "msg" in msg && Messages.IsCode(msg["msg"], 4) && !s.ms.violado && Gate(s, msg["msg"]) == Proceed
    ensures Process(s, msg, c) == Authorize(s.(timerArmed := false), msg, c)
  {
  }

  /** The effects of a new authorisation, given that the version and the counter can be read and encoded. */
  lemma IssueEffects(s: Daf, msg: Object, c: Checks)
    requires Inv(s) && s.ms.estado == Pronto && "pdv" in msg && "fdf" in msg && "hdf" in msg
    requires HexValue(s.ms.versaoSB).Some? && 0 <= s.ms.contador + 1 < 0x1_0000_0000
    ensures var r := Issue(s.(timerArmed := false, nonce := Some("")), msg, c);
      && r.next.ms.contador == s.ms.contador + 1
      && r.next.ms.numDFe == s.ms.numDFe + 1
      && r.next.mt == s.mt + [Retention(s.ms, msg, c, HexValue(s.ms.versaoSB).value)]
      && (r.next.ms.estado == Bloqueado <==> s.ms.numDFe + 1 == Min(s.ms.maxDFe, s.ms.maxDFeModel))
      && (r.next.ms.estado != Bloqueado ==> r.next.ms.estado == Pronto)
      && r.next.nonce == Some("") && !r.next.operacao && r.next.lastMsg == Some(4) && !r.next.timerArmed
      && r.response.Authorization?
      && StoredClaims(Retention(s.ms, msg, c, HexValue(s.ms.versaoSB).value)) == Some(r.response.claims)
      && r.response.claims["cnt"] == JInt(s.ms.contador + 1) && r.response.claims["aut"] == JStr(c.authorisation)
      && Inv(r.next)
  {
    var t := s.(timerArmed := false, nonce := Some(""));
    var vsb := HexValue(s.ms.versaoSB).value;
    WorkingMemory.AddAlwaysInserts(s.mt, JStr(s.ms.iddaf), s.ms.mop, msg["pdv"], JInt(vsb), JInt(s.ms.contador + 1),
                                   JStr(c.authorisation), msg["fdf"], msg["hdf"]);
    var r := Issue(t, msg, c);
    var rec := Retention(s.ms, msg, c, vsb);
    var claims := map["daf" := JStr(s.ms.iddaf), "vsb" := JInt(vsb), "mop" := s.ms.mop, "pdv" := msg["pdv"],
                      "cnt" := JInt(s.ms.contador + 1), "aut" := JStr(c.authorisation)];
    assert r.response == Authorization(claims);
    var stored := StoredClaims(rec).value;
    assert stored.Keys == claims.Keys;
    assert forall k | k in stored :: stored[k] == claims[k];
    assert stored == claims;
  }

  /**
   * Counting the authorisation happens before the checks that may raise: when the counter
   * no longer fits four bytes the request raises with the counter already incremented and
   * nothing retained.
   */
  lemma CounterOverflowRaises(s: Daf, msg: Object, c: Checks)
    requires !s.ms.violado && s.ms.estado == Pronto && s.nonce.Some? && c.hmacOk
    requires !s.operacao || s.lastMsg == Some(3)
    requires Request(msg, 4, {"msg", "fdf", "hdf", "pdv", "red"})
    requires !WorkingMemory.Exists(s.mt, "hdf", msg["hdf"])
    requires s.ms.contador + 1 >= 0x1_0000_0000
    ensures var r := Process(s, msg, c);
      && r.response == Crash
      && r.next == s.(ms := s.ms.(contador := s.ms.contador + 1), nonce := Some(""), timerArmed := false)
  {
    Messages.ValidMatchesTable(msg);
  }

  /**
   * Authorising the same document twice: the second request finds the retained record and
   * answers with the same claims, and changes nothing.
   */
  lemma RepeatedAuthorisation(s: Daf, msg: Object, c1: Checks, c2: Checks)
    requires Inv(s) && !s.ms.violado && s.ms.estado == Pronto && s.nonce.Some? && c1.hmacOk && c2.hmacOk
    requires !s.operacao || s.lastMsg == Some(3)
    requires Request(msg, 4, {"msg", "fdf", "hdf", "pdv", "red"})
    requires WorkingMemory.MatchCount(s.mt, "hdf", msg["hdf"]) == 0
    requires HexValue(s.ms.versaoSB).Some? && 0 <= s.ms.contador + 1 < 0x1_0000_0000
    requires s.ms.numDFe + 1 != Min(s.ms.maxDFe, s.ms.maxDFeModel)
    ensures var first := Process(s, msg, c1);
      Process(first.next, msg, c2) == first
  {
    Messages.ValidMatchesTable(msg);
    WorkingMemory.NoMatch(s.mt, "hdf", msg["hdf"]);
    NewAuthorisation(s, msg, c1);
    var first := Process(s, msg, c1);
    var t := first.next;
    var rec := Retention(s.ms, msg, c1, HexValue(s.ms.versaoSB).value);
    PyEqEquivalence(msg["hdf"], msg["hdf"], msg["hdf"]);
    WorkingMemory.GetAppended(s.mt, rec, "hdf", msg["hdf"]);
    assert Reissue(t, msg) == first;
    assert Authorize(t, msg, c2) == Reissue(t, msg);
    assert Dispatch(t, msg, c2) == Authorize(t, msg, c2);
  }

  /**
   * Deleting a retained authorisation: the record goes, `NumDFe` drops by one and the
   * device is ready again. An identifier that is not retained is reported as not found.
   */
  lemma EraseRetained(s: Daf, msg: Object, c: Checks)
    requires Inv(s) && !s.ms.violado && !s.operacao && (s.ms.estado == Pronto || s.ms.estado == Bloqueado)
    requires Request(msg, 5, {"msg", "aut", "apg"})
    ensures var r := Process(s, msg, c);
      && (!WorkingMemory.Exists(s.mt, "aut", msg["aut"]) ==> r == Fail(s, 6))
      && (WorkingMemory.Exists(s.mt, "aut", msg["aut"]) && !c.hmacOk ==> r == Fail(s, 5))
      && (WorkingMemory.Exists(s.mt, "aut", msg["aut"]) && c.hmacOk ==>
            && r.response == Success
            && r.next.ms.numDFe == s.ms.numDFe - 1 && r.next.ms.estado == Pronto
            && WorkingMemory.Get(r.next.mt, "aut", msg["aut"]).None?
            && r.next.lastMsg == Some(5)
            && Inv(r.next))
  {
    Messages.ValidMatchesTable(msg);
    if WorkingMemory.Exists(s.mt, "aut", msg["aut"]) {
      WorkingMemory.RemoveFound(s.mt, msg["aut"]);
      WorkingMemory.RemoveKeepsWellFormed(s.mt, msg["aut"]);
    }
  }

  /**
   * The listing succeeds iff `0 < ini <= fim <= NumDFe`, and then answers the identifiers of
   * the records at positions `ini - 1` to `fim - 1`, in order; any other numeric range is
   * malformed, and a non-numeric start raises.
   */
  lemma ListingRange(s: Daf, msg: Object, c: Checks)
    requires Inv(s) && !s.ms.violado && !s.operacao && (s.ms.estado == Pronto || s.ms.estado == Bloqueado)
    requires Request(msg, 16, {"msg", "ini", "fim"})
    ensures !IsNumber(msg["ini"]) ==> Process(s, msg, c) == Reply(s, Crash)
    ensures IsNumber(msg["ini"]) && IsNumber(msg["fim"]) ==>
      var ini := AsNumber(msg["ini"]);
      var fim := AsNumber(msg["fim"]);
      var r := Process(s, msg, c);
      && (r.response.Identifiers? <==> 0 < ini <= fim <= s.ms.numDFe)
      && (r.response.Identifiers? ==>
            && |r.response.rts| == fim - ini + 1
            && (forall i :: 0 <= i < |r.response.rts| ==> r.response.rts[i] == s.mt[ini - 1 + i]["aut"])
            && r.next == s.(lastMsg := Some(16)))
      && (!r.response.Identifiers? ==> r == Fail(s, 2))
  {
    RequestValid(msg, 16, {"msg", "ini", "fim"});
    assert Process(s, msg, c) == ListAuthorisations(s, msg);
    ListingOutcome(s, msg);
  }

  lemma ListingOutcome(s: Daf, msg: Object)
    requires Inv(s) && (s.ms.estado == Pronto || s.ms.estado == Bloqueado)
    requires "msg" in msg && Messages.IsCode(msg["msg"], 16) && Messages.Valid(msg)
    ensures !IsNumber(msg["ini"]) ==> ListAuthorisations(s, msg) == Reply(s, Crash)
    ensures IsNumber(msg["ini"]) && IsNumber(msg["fim"]) ==>
      var ini := AsNumber(msg["ini"]);
      var fim := AsNumber(msg["fim"]);
      var r := ListAuthorisations(s, msg);
      && (r.response.Identifiers? <==> 0 < ini <= fim <= s.ms.numDFe)
      && (r.response.Identifiers? ==>
            && |r.response.rts| == fim - ini + 1
            && (forall i :: 0 <= i < |r.response.rts| ==> r.response.rts[i] == s.mt[ini - 1 + i]["aut"])
            && r.next == s.(operacao := false, lastMsg := Some(16)))
      && (!r.response.Identifiers? ==> r == Fail(s, 2))
  {
  }

  // ---------------------------------------------------------------------------------------
  // The invariant

  /** Every request keeps `NumDFe` equal to the number of well-formed retained records. */
  lemma ProcessKeepsInv(s: Daf, msg: Object, c: Checks)
    requires Inv(s)
    ensures Inv(Process(s, msg, c).next)
  {
    if "msg" in msg && !(s.ms.violado && !Messages.IsCode(msg["msg"], 9999)) && Gate(s, msg["msg"]) == Proceed {
      DispatchKeepsInv(s, msg, c);
    }
  }

  /** The handlers that touch the retained records keep the invariant; the others leave them alone. */
  lemma DispatchKeepsInv(s: Daf, msg: Object, c: Checks)
    requires Inv(s) && "msg" in msg
    ensures Inv(Dispatch(s, msg, c).next)
  {
    match Messages.CodeOf(msg["msg"])
    case None =>
    case Some(n) =>
      if n <= 8 {
        SessionHandlersKeepInv(s, msg, c, n);
      } else if n <= 12 {
        ServiceHandlersKeepInv(s, msg, c, n);
      } else {
        OtherHandlersKeepInv(s, msg, c, n);
      }
  }

  lemma SessionHandlersKeepInv(s: Daf, msg: Object, c: Checks, n: int)
    requires Inv(s) && "msg" in msg && Messages.CodeOf(msg["msg"]) == Some(n) && n <= 8
    ensures Inv(Dispatch(s, msg, c).next)
  {
    if n == 1 {
      assert Inv(Register(s.(timerArmed := true), msg, c).next);
    } else if n == 2 {
      assert Inv(ConfirmRegistration(s.(timerArmed := false), msg, c).next);
    } else if n == 3 {
      assert Inv(RequestAuthentication(s.(timerArmed := true), msg, c).next);
    } else if n == 4 {
      AuthorizeKeepsInv(s.(timerArmed := false), msg, c);
    } else if n == 5 {
      EraseKeepsInv(s, msg, c);
    } else if n == 6 {
      assert Inv(RemoveRegistration(s.(timerArmed := true), msg, c).next);
    } else if n == 7 {
      assert Inv(ConfirmRemoval(s.(timerArmed := false), msg, c).next);
    } else if n == 8 {
      assert Inv(QueryInformation(s).next);
    }
  }

  lemma ServiceHandlersKeepInv(s: Daf, msg: Object, c: Checks, n: int)
    requires Inv(s) && "msg" in msg && Messages.CodeOf(msg["msg"]) == Some(n) && 8 < n <= 12
    ensures Inv(Dispatch(s, msg, c).next)
  {
    if n == 9 {
      assert Inv(StartUpdate(s.(timerArmed := true)).next);
    } else if n == 10 {
      assert Inv(UpdateCertificate(s, msg, c).next);
    } else if n == 11 {
      assert Inv(Download(s, msg).next);
    } else if n == 12 {
      assert Inv(ChangeMode(s.(timerArmed := true), msg, c).next);
    }
  }

  lemma OtherHandlersKeepInv(s: Daf, msg: Object, c: Checks, n: int)
    requires Inv(s) && "msg" in msg && Messages.CodeOf(msg["msg"]) == Some(n) && n > 12
    ensures Inv(Dispatch(s, msg, c).next)
  {
    if n == 13 {
      assert Inv(ConfirmModeAsWritten(s.(timerArmed := false), msg, c).next);
    } else if n == 14 {
      assert Inv(Cancel(s).next);
    } else if n == 15 {
      assert Inv(Fingerprint(s, msg).next);
    } else if n == 16 {
      assert Inv(ListAuthorisations(s, msg).next);
    }
  }

  lemma EraseKeepsInv(s: Daf, msg: Object, c: Checks)
    requires Inv(s) && "msg" in msg && Messages.IsCode(msg["msg"], 5)
    ensures Inv(Erase(s, msg, c).next)
  {
    if (s.ms.estado == Pronto || s.ms.estado == Bloqueado) && Messages.Valid(msg) &&
       WorkingMemory.Exists(s.mt, "aut", msg["aut"]) && c.hmacOk {
      WorkingMemory.RemoveFound(s.mt, msg["aut"]);
      WorkingMemory.RemoveKeepsWellFormed(s.mt, msg["aut"]);
    }
  }

  lemma AuthorizeKeepsInv(s: Daf, msg: Object, c: Checks)
    requires Inv(s) && "msg" in msg && Messages.IsCode(msg["msg"], 4)
    ensures Inv(Authorize(s, msg, c).next)
  {
    if s.ms.estado == Pronto && Messages.Valid(msg) && s.nonce.Some? && c.hmacOk {
      var t := s.(nonce := Some(""));
      if !WorkingMemory.Exists(t.mt, "hdf", msg["hdf"]) {
        IssueKeepsInv(t, msg, c);
      }
    }
  }

  lemma IssueKeepsInv(s: Daf, msg: Object, c: Checks)
    requires Inv(s) && "pdv" in msg && "fdf" in msg && "hdf" in msg
    ensures Inv(Issue(s, msg, c).next)
  {
    var vsb := HexValue(s.ms.versaoSB);
    if vsb.Some? {
      WorkingMemory.AddAlwaysInserts(s.mt, JStr(s.ms.iddaf), s.ms.mop, msg["pdv"], JInt(vsb.value),
                                     JInt(s.ms.contador + 1), JStr(c.authorisation), msg["fdf"], msg["hdf"]);
    }
  }
}
