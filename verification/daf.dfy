/**
 * The DAF request processor (`DAF`): the violation and session gates in front of the
 * request handlers, the handlers' guard order and their effects on the secure-memory
 * parameters, the working memory of retained authorisations and the session fields, and
 * the software-base update entry point.
 *
 * The secure memory is seen here through the typed values the DAF reads and writes
 * (`Params`); the stored form and its conversions are the `SecureMemory` module. The
 * version is kept as the hexadecimal text it is stored as, because every read of it
 * converts with `int(text, 16)` and raises on text that is not hexadecimal.
 */
module Daf {
  import opened Wrappers
  import opened Bytes
  import opened Json
  import WorkingMemory
  import Image
  import Messages

  datatype Estado = Inativo | Pronto | Bloqueado | Inutilizado

  /** The secure-memory parameters the request handlers use. */
  datatype Params = Params(
    estado: Estado,
    violado: bool,
    regok: bool,
    numDFe: int,
    maxDFe: int,
    maxDFeModel: int,
    contador: int,
    falhas: int,           // `falhasAtualizacao`
    mop: JValue,           // `modoOperacao`
    iddaf: string,
    versaoSB: string,      // hexadecimal text
    assinaturaSEF: seq<byte>)

  datatype Daf = Daf(
    ms: Params,
    mt: WorkingMemory.Store,
    operacao: bool,        // a two-step process is open
    lastMsg: Option<int>,  // `last_msg`
    nonce: Option<string>,
    timerArmed: bool,      // the session timeout
    current: Image.Image,  // the running software base; read, never written
    partition: Option<Image.Image>)  // the candidate partition's content

  /**
   * The outcomes of the cryptographic steps of one request and the fresh values it draws:
   * the payload of the request's JWT when its signature verifies, the HMAC check of an
   * authorisation or a deletion, the two signature checks of a certificate update with the
   * decoded signature it carries, a fresh nonce, the identifier computed for a new
   * authorisation and a fresh device identifier.
   */
  datatype Checks = Checks(
    jwt: Option<Object>,
    hmacOk: bool,
    certificateOk: bool,
    firmwareOk: bool,
    signature: seq<byte>,
    nonce: string,
    authorisation: string,
    deviceId: string)

  /**
   * The reply to a request. Tokens are signed JSON whose content is given where a property
   * depends on it (`Authorization`, `Retained`); `Crash` is an exception escaping the
   * processor, and `NoReply` the `None` of an unknown code.
   */
  datatype Response =
    | Failure(res: int)
    | Success
    | Token
    | NonceIssued(nnc: string)
    | Authorization(claims: Object)
    | Retained(claims: Object, fdf: JValue, hdf: JValue)
    | Information(est: Estado, mxd: int, ndf: int, cnt: int)
    | Identifiers(rts: seq<JValue>)
    | Unusable
    | NoReply
    | Crash

  datatype Reply = Reply(next: Daf, response: Response)

  // ---------------------------------------------------------------------------------------
  // Shared steps

  function Min(a: int, b: int): int
  {
    if a <= b then a else b
  }

  /** `__gera_json_resposta_insucesso`: forgets the last message and disarms the timer. */
  function Fail(s: Daf, res: int): (r: Reply)
    ensures r.response == Failure(res)
    ensures r.next.lastMsg == None && !r.next.timerArmed
    ensures r.next.ms == s.ms && r.next.mt == s.mt && r.next.operacao == s.operacao && r.next.nonce == s.nonce
  {
    Reply(s.(lastMsg := None, timerArmed := false), Failure(res))
  }

  /**
   * `modo_inutilizado`: marks the device violated and unusable, then reports its
   * parameters; reading the version raises when its text is not hexadecimal.
   */
  function Inutilize(s: Daf): Reply
  {
    var t := s.(ms := s.ms.(violado := true, estado := Inutilizado));
    if HexValue(t.ms.versaoSB).None? then Reply(t, Crash) else Reply(t, Unusable)
  }

  /** A JWT payload that Python considers true: verified and not empty. */
  predicate PayloadPresent(jwt: Option<Object>)
  {
    jwt.Some? && |jwt.value| > 0
  }

  /** The parameters after a factory reset, for the running image and a device identifier. */
  function FactoryParams(current: Image.Image, id: string): Params
  {
    Params(Inativo, false, false, 0, 1000, 1000, 0, 0, JInt(0), id, ToHex(current.version), current.signature)
  }

  /** The memory reset keeps a non-empty identifier and uses a fresh one otherwise. */
  function KeptId(ms: Params, fallback: string): string
  {
    if |ms.iddaf| > 0 then ms.iddaf else fallback
  }

  // ---------------------------------------------------------------------------------------
  // The gates of `processa_pedido`

  /** The confirmation each opening request waits for. */
  function Confirmation(opening: int): int
  {
    if opening == 1 then 2 else if opening == 3 then 4 else if opening == 6 then 7 else 13
  }

  datatype Verdict = Proceed | Reject | CancelSession

  /** The request codes that have a handler; any other code is answered with `None`. */
  const HandledCodes: set<Option<int>> :=
    {Some(1), Some(2), Some(3), Some(4), Some(5), Some(6), Some(7), Some(8), Some(9), Some(10), Some(11),
     Some(12), Some(13), Some(14), Some(15), Some(16), Some(9997), Some(9998), Some(9999)}

  /**
   * The session gate: during an open process begun by request 1, 3, 6 or 12 only its
   * confirmation proceeds, request 14 cancels, anything else is rejected; a process begun
   * by request 9 only accepts 14. Outside a process every request proceeds.
   */
  function Gate(s: Daf, code: JValue): (v: Verdict)
    ensures v != Proceed ==> s.operacao && s.lastMsg.Some? && s.lastMsg.value in {1, 3, 6, 9, 12}
    ensures v == CancelSession <==>
      s.operacao && s.lastMsg.Some? && s.lastMsg.value in {1, 3, 6, 9, 12} && Messages.IsCode(code, 14)
  {
    if !s.operacao || s.lastMsg.None? then Proceed
    else
      var k := s.lastMsg.value;
      if k == 9 then (if Messages.IsCode(code, 14) then CancelSession else Reject)
      else if k in {1, 3, 6, 12} then
        if Messages.IsCode(code, 14) then CancelSession
        else if !Messages.IsCode(code, Confirmation(k)) then Reject
        else Proceed
      else Proceed
  }

  /**
   * `processa_pedido`: a request without a code raises; a violated device answers every
   * request but 9999 with the unusable report; then the session gate, then dispatch.
   */
  function Process(s: Daf, msg: Object, c: Checks): (r: Reply)
    ensures "msg" !in msg ==> r == Reply(s, Crash)
    ensures "msg" in msg && s.ms.violado && !Messages.IsCode(msg["msg"], 9999) ==>
      r.next == s.(ms := s.ms.(estado := Inutilizado)) && (r.response == Unusable || r.response == Crash)
    ensures r.next.mt != s.mt ==> "msg" in msg && Messages.CodeOf(msg["msg"]) in {Some(4), Some(5), Some(9997), Some(9999)}
  {
    if "msg" !in msg then Reply(s, Crash)
    else
      var code := msg["msg"];
      if s.ms.violado && !Messages.IsCode(code, 9999) then Inutilize(s)
      else
        match Gate(s, code)
        case CancelSession => Cancel(s)
        case Reject => Fail(s, 2)
        case Proceed => Dispatch(s, msg, c)
  }

  /**
   * The handler for each code, after arming (1, 3, 6, 9, 12) or disarming (2, 4, 7, 13) the
   * timer; an unknown code has no reply.
   */
  function Dispatch(s: Daf, msg: Object, c: Checks): (r: Reply)
    requires "msg" in msg
    ensures Messages.CodeOf(msg["msg"]) !in HandledCodes ==> r == Reply(s, NoReply)
    ensures r.next.mt != s.mt ==> Messages.CodeOf(msg["msg"]) in {Some(4), Some(5), Some(9997), Some(9999)}
  {
    match Messages.CodeOf(msg["msg"])
    case None => Reply(s, NoReply)
    case Some(n) =>
      if n == 1 then Register(s.(timerArmed := true), msg, c)
      else if n == 2 then ConfirmRegistration(s.(timerArmed := false), msg, c)
      else if n == 3 then RequestAuthentication(s.(timerArmed := true), msg, c)
      else if n == 4 then Authorize(s.(timerArmed := false), msg, c)
      else if n == 5 then Erase(s, msg, c)
      else if n == 6 then RemoveRegistration(s.(timerArmed := true), msg, c)
      else if n == 7 then ConfirmRemoval(s.(timerArmed := false), msg, c)
      else if n == 8 then QueryInformation(s)
      else if n == 9 then StartUpdate(s.(timerArmed := true))
      else if n == 10 then UpdateCertificate(s, msg, c)
      else if n == 11 then Download(s, msg)
      else if n == 12 then ChangeMode(s.(timerArmed := true), msg, c)
      else if n == 13 then ConfirmModeAsWritten(s.(timerArmed := false), msg, c)
      else if n == 14 then Cancel(s)
      else if n == 15 then Fingerprint(s, msg)
      else if n == 16 then ListAuthorisations(s, msg)
      else if n == 9997 then NewIdentity(s, c)
      else if n == 9998 then Reply(s.(ms := s.ms.(violado := true)), Success)
      else if n == 9999 then FactoryReset(s, c)
      else Reply(s, NoReply)
  }

  /**
   * The processor with the intended mode confirmation (`ConfirmMode`): request 13 that
   * passes the gates answers an unknown mode with a malformed-request failure instead of
   * raising; every other request is processed as by `Process`.
   */
  function ProcessCorrected(s: Daf, msg: Object, c: Checks): Reply
  {
    if "msg" in msg && !(s.ms.violado && !Messages.IsCode(msg["msg"], 9999)) && Gate(s, msg["msg"]) == Proceed
       && Messages.CodeOf(msg["msg"]) == Some(13)
    then ConfirmMode(s.(timerArmed := false), msg, c)
    else Process(s, msg, c)
  }

  /**
   * `handle_timeout`: the event loop calls it only while the session timer is armed; it
   * runs the cancel handler and discards its reply, so only the state it leaves matters.
   */
  function Timeout(s: Daf): (t: Daf)
    ensures !s.timerArmed ==> t == s
    ensures t.ms == s.ms && t.mt == s.mt && !t.timerArmed
  {
    if s.timerArmed then Cancel(s).next else s
  }

  // ---------------------------------------------------------------------------------------
  // Registration (1, 2) and its removal (6, 7)

  /**
   * `__processa_registrar`. The new key pair it writes to the secure memory is not part of
   * this model: the stored keys lie outside `Params`.
   */
  function Register(s: Daf, msg: Object, c: Checks): (r: Reply)
    ensures s.ms.estado != Inativo ==> r == Fail(s, 1)
    ensures r.response == Token ==>
      r.next == s.(operacao := true, lastMsg := Some(1)) && c.jwt.Some? && "nnc" in c.jwt.value
    ensures r.next.ms == s.ms && r.next.mt == s.mt
  {
    if s.ms.estado != Inativo then Fail(s, 1)
    else if !Messages.Valid(msg) then Fail(s, 2)
    else if !PayloadPresent(c.jwt) then Fail(s, 3)
    else if !("nnc" in c.jwt.value && |c.jwt.value| == 1) then Fail(s, 2)
    else if HexValue(s.ms.versaoSB).None? then Reply(s, Crash)
    else Reply(s.(operacao := true, lastMsg := Some(1)), Token)
  }

  /**
   * `__processa_confirmarRegistro`: the operation mode is taken from the payload when it
   * is an integer (the secure memory rejects anything else); the SEF and PAF keys are not
   * part of this model.
   */
  function ConfirmRegistration(s: Daf, msg: Object, c: Checks): (r: Reply)
    ensures !s.operacao ==> r == Fail(s, 2)
    ensures r.response == Success ==>
      && r.next.ms == s.ms.(mop := r.next.ms.mop, estado := Pronto, regok := true)
      && (IsNumber(r.next.ms.mop) || r.next.ms.mop == s.ms.mop)
      && !r.next.operacao && r.next.lastMsg == Some(2)
    ensures r.next.mt == s.mt
  {
    if !s.operacao then Fail(s, 2)
    else if !Messages.Valid(msg) then Fail(s, 2)
    else if !PayloadPresent(c.jwt) then Fail(s, 3)
    else
      var p := c.jwt.value;
      if !("chs" in p && "chp" in p && "mop" in p && |p| == 3) then Fail(s, 2)
      else
        var mop := if IsNumber(p["mop"]) then p["mop"] else s.ms.mop;
        Reply(s.(ms := s.ms.(mop := mop, estado := Pronto, regok := true), operacao := false, lastMsg := Some(2)),
              Success)
  }

  /** `__processa_removerRegistro`. */
  function RemoveRegistration(s: Daf, msg: Object, c: Checks): (r: Reply)
    ensures s.ms.estado != Pronto ==> r == Fail(s, 1)
    ensures r.response == Token ==> s.ms.numDFe == 0 && r.next == s.(operacao := true, lastMsg := Some(6))
    ensures r.next.ms == s.ms && r.next.mt == s.mt
  {
    if s.ms.estado != Pronto then Fail(s, 1)
    else if !Messages.Valid(msg) then Fail(s, 2)
    else if s.ms.numDFe != 0 then Fail(s, 7)
    else if !PayloadPresent(c.jwt) then Fail(s, 3)
    else if "nnc" !in c.jwt.value then Fail(s, 2)
    else Reply(s.(operacao := true, lastMsg := Some(6)), Token)
  }

  /**
   * `__processa_confirmarRemocaoRegistro`. The key writes are not modelled: the program
   * clears the private and public keys, while its writes of empty text to the SEF and PAF
   * keys are refused (those keys accept only bytes), so those two keys survive a removal.
   */
  function ConfirmRemoval(s: Daf, msg: Object, c: Checks): (r: Reply)
    ensures !s.operacao ==> r == Fail(s, 2)
    ensures r.response == Success ==>
      && r.next.ms == s.ms.(estado := Inativo, regok := false)
      && c.jwt.Some? && "evn" in c.jwt.value && PyEq(c.jwt.value["evn"], JStr("REMOVER"))
    ensures r.next.mt == s.mt
  {
    if !s.operacao then Fail(s, 2)
    else if !Messages.Valid(msg) then Fail(s, 2)
    else if !PayloadPresent(c.jwt) then Fail(s, 3)
    else if !("evn" in c.jwt.value && PyEq(c.jwt.value["evn"], JStr("REMOVER"))) then Fail(s, 2)
    else Reply(s.(ms := s.ms.(estado := Inativo, regok := false), operacao := false, lastMsg := Some(7)), Success)
  }

  // ---------------------------------------------------------------------------------------
  // Authorisation (3, 4), deletion (5), download (11) and listing (16)

  /** `__processa_solicitarAutenticacao`. */
  function RequestAuthentication(s: Daf, msg: Object, c: Checks): (r: Reply)
    ensures s.ms.estado != Pronto ==> r == Fail(s, 1)
    ensures r.response.NonceIssued? ==>
      r.next.nonce == Some(r.response.nnc) && r.next.operacao && r.next.lastMsg == Some(3)
    ensures r.next.ms == s.ms && r.next.mt == s.mt
  {
    if s.ms.estado != Pronto then Fail(s, 1)
    else if !Messages.Valid(msg) then Fail(s, 2)
    else Reply(s.(nonce := Some(c.nonce), lastMsg := Some(3), operacao := true), NonceIssued(c.nonce))
  }

  /** The six claims of an authorisation token. */
  const ClaimKeys: set<string> := {"daf", "vsb", "mop", "pdv", "cnt", "aut"}

  /** The claims of a stored record, or `None` (a `KeyError`) when one is missing. */
  function StoredClaims(r: WorkingMemory.Record): (o: Option<Object>)
    ensures o.Some? <==> ClaimKeys <= r.Keys
    ensures o.Some? ==> o.value.Keys == ClaimKeys && forall k :: k in ClaimKeys ==> o.value[k] == r[k]
  {
    if ClaimKeys <= r.Keys then Some(map k | k in ClaimKeys :: r[k]) else None
  }

  /** `__processa_autorizarDFE`: the guards, then a new or a repeated authorisation. */
  function Authorize(s: Daf, msg: Object, c: Checks): (r: Reply)
    requires "msg" in msg && Messages.IsCode(msg["msg"], 4)
    ensures s.ms.estado != Pronto ==> r == Fail(s, 1)
    ensures s.ms.estado == Pronto && Messages.Valid(msg) && s.nonce.None? ==> r == Reply(s, Crash)
    ensures r.response.Authorization? ==>
      && s.nonce.Some? && c.hmacOk && Messages.Valid(msg)
      && r.next.lastMsg == Some(4) && !r.next.operacao && r.next.nonce == Some("")
    ensures r.response.Authorization? ==> r.response.claims.Keys == ClaimKeys
  {
    if s.ms.estado != Pronto then Fail(s, 1)
    else if !Messages.Valid(msg) then Fail(s, 2)
    else if s.nonce.None? then Reply(s, Crash)  // decoding the missing nonce raises
    else if !c.hmacOk then Fail(s, 4)
    else
      var t := s.(nonce := Some(""));
      if !WorkingMemory.Exists(t.mt, "hdf", msg["hdf"]) then Issue(t, msg, c) else Reissue(t, msg)
  }

  /**
   * A new authorisation: the counter is incremented and stored first; then reading the
   * version (hexadecimal text) and encoding the counter in four bytes may raise; then the
   * record is retained, `NumDFe` grows by one and the device blocks when it reaches the
   * smaller of the two limits.
   */
  function Issue(s: Daf, msg: Object, c: Checks): (r: Reply)
    requires "pdv" in msg && "fdf" in msg && "hdf" in msg
    ensures r.next.ms.contador == s.ms.contador + 1
    ensures r.response.Authorization? ==>
      && r.next.ms.numDFe == s.ms.numDFe + 1
      && |r.next.mt| <= |s.mt| + 1
      && r.response.claims.Keys == ClaimKeys
      && r.response.claims["cnt"] == JInt(s.ms.contador + 1)
      && r.response.claims["aut"] == JStr(c.authorisation)
    ensures r.response == Crash ==> r.next == s.(ms := s.ms.(contador := s.ms.contador + 1))
  {
    var cnt := s.ms.contador + 1;
    var t := s.(ms := s.ms.(contador := cnt));
    match HexValue(t.ms.versaoSB)
    case None => Reply(t, Crash)
    case Some(vsb) =>
      if !(0 <= cnt < 0x1_0000_0000) then Reply(t, Crash)
      else
        var claims := map["daf" := JStr(t.ms.iddaf), "vsb" := JInt(vsb), "mop" := t.ms.mop, "pdv" := msg["pdv"],
                          "cnt" := JInt(cnt), "aut" := JStr(c.authorisation)];
        var added := WorkingMemory.Add(t.mt, JStr(t.ms.iddaf), t.ms.mop, msg["pdv"], JInt(vsb), JInt(cnt),
                                       JStr(c.authorisation), msg["fdf"], msg["hdf"]);
        var n := t.ms.numDFe + 1;
        var estado := if n == Min(t.ms.maxDFe, t.ms.maxDFeModel) then Bloqueado else t.ms.estado;
        Reply(t.(mt := added.0, ms := t.ms.(numDFe := n, estado := estado), lastMsg := Some(4), operacao := false),
              Authorization(claims))
  }

  /** A repeated authorisation: the retained record's claims, with no counter touched. */
  function Reissue(s: Daf, msg: Object): (r: Reply)
    requires "hdf" in msg
    ensures r.next.ms == s.ms && r.next.mt == s.mt
    ensures r.response.Authorization? ==>
      r.response.claims.Keys == ClaimKeys && WorkingMemory.MatchCount(s.mt, "hdf", msg["hdf"]) > 0
  {
    match WorkingMemory.Get(s.mt, "hdf", msg["hdf"])
    case None => Reply(s, Crash)
    case Some(r) =>
      match StoredClaims(r)
      case None => Reply(s, Crash)
      case Some(claims) => Reply(s.(lastMsg := Some(4), operacao := false), Authorization(claims))
  }

  /** `__processa_apagarAutorizacaoRetida`. */
  function Erase(s: Daf, msg: Object, c: Checks): (r: Reply)
    requires "msg" in msg && Messages.IsCode(msg["msg"], 5)
    ensures s.ms.estado != Pronto && s.ms.estado != Bloqueado ==> r == Fail(s, 1)
    ensures r.response == Success ==>
      && c.hmacOk && "aut" in msg && WorkingMemory.Exists(s.mt, "aut", msg["aut"])
      && r.next.ms == s.ms.(numDFe := s.ms.numDFe - 1, estado := Pronto)
      && |r.next.mt| == |s.mt| - 1
      && forall x :: x in r.next.mt <==> x in s.mt && !WorkingMemory.Matches(x, "aut", msg["aut"])
  {
    if s.ms.estado != Pronto && s.ms.estado != Bloqueado then Fail(s, 1)
    else if !Messages.Valid(msg) then Fail(s, 2)
    else if !WorkingMemory.Exists(s.mt, "aut", msg["aut"]) then Fail(s, 6)
    else if !c.hmacOk then Fail(s, 5)
    else
      var removed := WorkingMemory.Remove(s.mt, msg["aut"]);
      Reply(s.(mt := removed.0, ms := s.ms.(numDFe := s.ms.numDFe - 1, estado := Pronto), lastMsg := Some(5)),
            Success)
  }

  /** `__processa_descarregarRetidos`: the retained record's claims and DFe fields. */
  function Download(s: Daf, msg: Object): (r: Reply)
    requires "msg" in msg && Messages.IsCode(msg["msg"], 11)
    ensures r.next.ms == s.ms && r.next.mt == s.mt
    ensures r.response.Retained? ==>
      r.response.claims.Keys == ClaimKeys && "aut" in msg && WorkingMemory.Exists(s.mt, "aut", msg["aut"])
  {
    if s.ms.estado != Pronto && s.ms.estado != Bloqueado then Fail(s, 1)
    else if !Messages.Valid(msg) then Fail(s, 2)
    else if !WorkingMemory.Exists(s.mt, "aut", msg["aut"]) then Fail(s, 6)
    else
      match WorkingMemory.Get(s.mt, "aut", msg["aut"])
      case None => Reply(s, Crash)
      case Some(r) =>
        match StoredClaims(r)
        case None => Reply(s, Crash)
        case Some(claims) =>
          if "fdf" !in r || "hdf" !in r then Reply(s, Crash)
          else Reply(s.(lastMsg := Some(11)), Retained(claims, r["fdf"], r["hdf"]))
  }

  /** The `aut` of each record, or `None` (a `KeyError`) when one lacks it. */
  function AutsOf(rs: WorkingMemory.Store): (o: Option<seq<JValue>>)
    ensures o.Some? <==> forall i :: 0 <= i < |rs| ==> "aut" in rs[i]
    ensures o.Some? ==> |o.value| == |rs| && forall i :: 0 <= i < |rs| ==> o.value[i] == rs[i]["aut"]
  {
    if |rs| == 0 then Some([])
    else if "aut" !in rs[0] then None
    else
      match AutsOf(rs[1..])
      case None => None
      case Some(rest) => Some([rs[0]["aut"]] + rest)
  }

  /**
   * `__processa_consultarAutorizacoes`: `ini > 0`, `ini <= fim` and `fim <= NumDFe` are
   * Python comparisons, so a non-numeric bound raises; then the identifiers of the records
   * at positions `ini - 1` up to `fim - 1`.
   */
  function ListAuthorisations(s: Daf, msg: Object): (r: Reply)
    requires "msg" in msg && Messages.IsCode(msg["msg"], 16)
    ensures r.next.ms == s.ms && r.next.mt == s.mt
    ensures r.response.Identifiers? ==>
      && "ini" in msg && "fim" in msg && IsNumber(msg["ini"]) && IsNumber(msg["fim"])
      && 0 < AsNumber(msg["ini"]) <= AsNumber(msg["fim"]) <= s.ms.numDFe
  {
    if s.ms.estado != Pronto && s.ms.estado != Bloqueado then Fail(s, 1)
    else if !Messages.Valid(msg) then Fail(s, 2)
    else
      var ini := msg["ini"];
      var fim := msg["fim"];
      if !IsNumber(ini) then Reply(s, Crash)
      else if !(AsNumber(ini) > 0) then Fail(s, 2)
      else
        match PyLe(ini, fim)
        case Raises => Reply(s, Crash)
        case Ok(le) =>
          if !le then Fail(s, 2)
          else if !(AsNumber(fim) <= s.ms.numDFe) then Fail(s, 2)
          else
            match AutsOf(Slice(s.mt, AsNumber(ini) - 1, AsNumber(fim)))
            case None => Reply(s, Crash)
            case Some(rts) => Reply(s.(operacao := false, lastMsg := Some(16)), Identifiers(rts))
  }

  // ---------------------------------------------------------------------------------------
  // Information (8, 15), software-base update request (9), certificate (10), mode (12, 13)

  /** `__processa_consultarInformacoes`. */
  function QueryInformation(s: Daf): (r: Reply)
    ensures r.next.ms == s.ms && r.next.mt == s.mt
    ensures r.response.Information? ==>
      && r.response.est == s.ms.estado && r.response.ndf == s.ms.numDFe && r.response.cnt == s.ms.contador
      && r.response.mxd <= s.ms.maxDFe && r.response.mxd <= s.ms.maxDFeModel
      && (r.response.mxd == s.ms.maxDFe || r.response.mxd == s.ms.maxDFeModel)
  {
    if s.ms.estado !in {Inativo, Pronto, Bloqueado} then Fail(s, 1)
    else if HexValue(s.ms.versaoSB).None? then Reply(s, Crash)
    else
      Reply(s.(lastMsg := Some(8)),
            Information(s.ms.estado, Min(s.ms.maxDFe, s.ms.maxDFeModel), s.ms.numDFe, s.ms.contador))
  }

  /** `__processa_obterImpressaoDigital`. */
  function Fingerprint(s: Daf, msg: Object): (r: Reply)
    ensures s.ms.estado != Pronto && s.ms.estado != Bloqueado ==> r == Fail(s, 1)
    ensures r.next.ms == s.ms && r.next.mt == s.mt
  {
    if s.ms.estado != Pronto && s.ms.estado != Bloqueado then Fail(s, 1)
    else if !Messages.Valid(msg) then Fail(s, 2)
    else Reply(s.(lastMsg := Some(15), operacao := false), Token)
  }

  /** `__processa_atualizarSB`: opens an update process. */
  function StartUpdate(s: Daf): (r: Reply)
    ensures r.response == Success ==> s.ms.numDFe == 0 && r.next == s.(operacao := true, lastMsg := Some(9))
    ensures r.response != Success ==> r.response.Failure? && r.next == Fail(s, r.response.res).next
  {
    if s.ms.estado != Inativo && s.ms.estado != Pronto then Fail(s, 1)
    else if s.ms.numDFe != 0 then Fail(s, 7)
    else Reply(s.(operacao := true, lastMsg := Some(9)), Success)
  }

  /**
   * `__processa_atualizarCertificado`. The new certificate is stored too, but it lies
   * outside `Params` and is not part of this model.
   */
  function UpdateCertificate(s: Daf, msg: Object, c: Checks): (r: Reply)
    ensures r.response == Success ==> c.certificateOk && c.firmwareOk && r.next == s.(ms := s.ms.(assinaturaSEF := c.signature))
    ensures r.response != Success ==> r.next.ms == s.ms
    ensures r.next.mt == s.mt
  {
    if s.ms.estado !in {Inativo, Pronto, Bloqueado} then Fail(s, 1)
    else if !Messages.Valid(msg) then Fail(s, 2)
    else if !c.certificateOk then Fail(s, 10)
    else if !c.firmwareOk then Fail(s, 12)
    else Reply(s.(ms := s.ms.(assinaturaSEF := c.signature)), Success)
  }

  /** `__processa_alterarModoOperacao`. */
  function ChangeMode(s: Daf, msg: Object, c: Checks): (r: Reply)
    ensures s.ms.estado != Pronto ==> r == Fail(s, 1)
    ensures r.response == Token ==> s.ms.numDFe == 0 && r.next == s.(operacao := true, lastMsg := Some(12))
    ensures r.next.ms == s.ms && r.next.mt == s.mt
  {
    if s.ms.estado != Pronto then Fail(s, 1)
    else if !Messages.Valid(msg) then Fail(s, 2)
    else if s.ms.numDFe != 0 then Fail(s, 7)
    else if !PayloadPresent(c.jwt) then Fail(s, 5)
    else if !("nnc" in c.jwt.value && |c.jwt.value| == 1) then Fail(s, 2)
    else Reply(s.(operacao := true, lastMsg := Some(12)), Token)
  }

  /** The payload of a mode confirmation: one integer `mop`. */
  predicate ModePayload(p: Object)
  {
    "mop" in p && |p| == 1 && IsNumber(p["mop"])
  }

  /**
   * `__processa_confirmarAlterarModoOperacao` as written: for a mode other than 0 or 1 it
   * builds the failure reply from the response enumeration member instead of its value, so
   * the failure bookkeeping happens and then JSON encoding raises.
   */
  function ConfirmModeAsWritten(s: Daf, msg: Object, c: Checks): (r: Reply)
    ensures r.response == Crash ==> r.next == Fail(s, 2).next && c.jwt.Some? && ModePayload(c.jwt.value)
    ensures r.response == Success ==>
      (PyEq(r.next.ms.mop, JInt(0)) || PyEq(r.next.ms.mop, JInt(1))) && r.next.ms == s.ms.(mop := r.next.ms.mop)
    ensures r.next.mt == s.mt
  {
    if !s.operacao then Fail(s, 2)
    else if !Messages.Valid(msg) then Fail(s, 2)
    else if !PayloadPresent(c.jwt) then Fail(s, 5)
    else if !ModePayload(c.jwt.value) then Fail(s, 2)
    else
      var mop := c.jwt.value["mop"];
      if !PyEq(mop, JInt(0)) && !PyEq(mop, JInt(1)) then Reply(Fail(s, 2).next, Crash)
      else Reply(s.(ms := s.ms.(mop := mop), operacao := false, lastMsg := Some(13)), Success)
  }

  /** The mode confirmation with the intended reply: an unknown mode is a malformed request. */
  function ConfirmMode(s: Daf, msg: Object, c: Checks): (r: Reply)
    ensures r.response != Crash
    ensures r.response == Success ==>
      (PyEq(r.next.ms.mop, JInt(0)) || PyEq(r.next.ms.mop, JInt(1))) && r.next.ms == s.ms.(mop := r.next.ms.mop)
    ensures r.next.mt == s.mt
  {
    if !s.operacao then Fail(s, 2)
    else if !Messages.Valid(msg) then Fail(s, 2)
    else if !PayloadPresent(c.jwt) then Fail(s, 5)
    else if !ModePayload(c.jwt.value) then Fail(s, 2)
    else
      var mop := c.jwt.value["mop"];
      if !PyEq(mop, JInt(0)) && !PyEq(mop, JInt(1)) then Fail(s, 2)
      else Reply(s.(ms := s.ms.(mop := mop), operacao := false, lastMsg := Some(13)), Success)
  }

  /** `__processa_cancelarProcesso`. */
  function Cancel(s: Daf): (r: Reply)
    ensures r.response == Success <==> s.ms.estado == Inativo || s.ms.estado == Pronto
    ensures r.response == Success ==> !r.next.operacao && r.next.nonce == None
    ensures r.next.ms == s.ms && r.next.mt == s.mt && !r.next.timerArmed
  {
    if s.ms.estado != Inativo && s.ms.estado != Pronto then Fail(s, 1)
    else Reply(s.(operacao := false, nonce := None, lastMsg := Some(14), timerArmed := false), Success)
  }

  // ---------------------------------------------------------------------------------------
  // Development requests (9997, 9999)

  /** `__padrao_fabrica`. */
  function FactoryReset(s: Daf, c: Checks): (r: Reply)
    ensures r.response == Success && r.next.mt == [] && !r.next.operacao
    ensures r.next.ms.estado == Inativo && !r.next.ms.violado && r.next.ms.numDFe == 0 && r.next.ms.contador == 0
    ensures |s.ms.iddaf| > 0 ==> r.next.ms.iddaf == s.ms.iddaf
    ensures r.next.ms.versaoSB == ToHex(s.current.version)
  {
    Reply(s.(operacao := false, mt := WorkingMemory.Reset(), ms := FactoryParams(s.current, KeptId(s.ms, c.deviceId)),
             nonce := None),
          Success)
  }

  /** `__novo_iddaf`: a fresh identifier is written, then the factory reset keeps it. */
  function NewIdentity(s: Daf, c: Checks): (r: Reply)
    ensures r.response == Success && r.next.mt == [] && !r.next.operacao
    ensures r.next.ms.estado == Inativo && !r.next.ms.violado && r.next.ms.iddaf == c.deviceId
  {
    var t := s.(ms := s.ms.(iddaf := c.deviceId));
    Reply(t.(operacao := false, mt := WorkingMemory.Reset(), ms := FactoryParams(t.current, KeptId(t.ms, c.deviceId)),
             nonce := None),
          Success)
  }

  // ---------------------------------------------------------------------------------------
  // `atualizar_sb`

  /**
   * The software-base update: the candidate is loaded into the partition (raising for an
   * empty image and an empty partition); below eleven failures and not violated, the
   * update is attempted; more than ten failures, before or after, violate the device.
   */
  function UpdateImage(s: Daf, raw: seq<byte>, v: Image.Verifier): (r: Reply)
    ensures r.next.mt == s.mt && r.next.ms.numDFe == s.ms.numDFe
    ensures r.response == Success ==> s.ms.falhas <= 10 && !s.ms.violado && s.ms.numDFe <= 0 && r.next.ms.falhas == 0
  {
    match Image.LoadCandidate(s.partition, raw)
    case Raises => Reply(s, Crash)
    case Ok(candidate) => Install(s.(partition := Some(candidate)), candidate, v)
  }

  /** The update of a loaded candidate, guarded by the failure count and the violation flag. */
  function Install(s: Daf, candidate: Image.Image, v: Image.Verifier): (r: Reply)
    ensures r.next.mt == s.mt && r.next.ms.numDFe == s.ms.numDFe
    ensures r.response == Success ==> s.ms.falhas <= 10 && !s.ms.violado && s.ms.numDFe <= 0 && r.next.ms.falhas == 0
    ensures s.ms.falhas > 10 || s.ms.violado ==> r.next.ms.violado && r.next.ms.estado == Inutilizado
    ensures r.next.ms.falhas <= 10 || r.next.ms.estado == Inutilizado
  {
    if s.ms.falhas <= 10 && !s.ms.violado then
      var r := Attempt(s, candidate, v);
      if r.next.ms.falhas <= 10 then r else Inutilize(r.next.(ms := r.next.ms.(violado := true)))
    else Inutilize(s.(ms := s.ms.(violado := true)))
  }

  /** One update attempt: refused while authorisations are retained, else by the image's verdict. */
  function Attempt(s: Daf, candidate: Image.Image, v: Image.Verifier): (r: Reply)
    ensures r.next.mt == s.mt && r.next.ms.numDFe == s.ms.numDFe
    ensures r.response == Success ==>
      && s.ms.numDFe <= 0 && Image.Update(v, s.current, candidate) !in {3, 8, 9}
      && r.next.ms == s.ms.(assinaturaSEF := candidate.signature, versaoSB := ToHex(candidate.version), falhas := 0)
    ensures r.response != Success ==>
      r.response.Failure? && r.next.ms.falhas == s.ms.falhas + (if r.response.res == 7 then 0 else 1)
  {
    if s.ms.numDFe > 0 then Fail(s, 7)
    else
      var verdict := Image.Update(v, s.current, candidate);
      if verdict == 3 then Failed(s, 12)
      else if verdict == 8 then Failed(s, 8)
      else if verdict == 9 then Failed(s, 9)
      else
        Reply(s.(ms := s.ms.(assinaturaSEF := candidate.signature, versaoSB := ToHex(candidate.version), falhas := 0),
                 lastMsg := None, timerArmed := false),
              Success)
  }

  /** A rejected image: a failure reply and one more recorded failure. */
  function Failed(s: Daf, res: int): Reply
  {
    var f := Fail(s, res);
    Reply(f.next.(ms := f.next.ms.(falhas := s.ms.falhas + 1)), f.response)
  }
}
