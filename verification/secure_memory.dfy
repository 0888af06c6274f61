/**
 * The secure memory (`MemoriaSegura`): a document table holding one document of named
 * parameters. Writes are typed: each key accepts one kind of value and converts it on the
 * way in (bytes to hex text, signatures to base64url text, certificates and keys to their
 * text); reads convert back. The table is updated as a whole, so a write reaches every
 * document; reads look at the first one.
 */
module SecureMemory {
  import opened Wrappers
  import opened Bytes

  /** The parameters, named as in the program's enumerations. */
  datatype Key =
    // Artefatos
    | Certificado | ChaveAteste | ChaveAtestePublica | ChavePrivada | ChavePublica
    | ChaveSEF | ChavePAF | Contador | IDDAF | ModoOperacao
    // Guardas
    | MaxDFe | REGOK | NumDFe | MaxDFeModel | Violado | Estado
    // ParametrosAtualizacao
    | AssinaturaSEF | VersaoSB | FalhasAtualizacao | Modelo | Cnpj

  /** A value handed to a write: Python `int`, `bool`, `str`, `bytes`, a certificate or a key object. */
  datatype Value = VInt(i: int) | VBool(b: bool) | VStr(s: string) | VBytes(bytes: seq<byte>)
                 | VCert(certText: string) | VKey(keyText: string)

  /**
   * A stored JSON value. `SBase64(raw)` stands for the base64url text of `raw`; the encoder
   * is not part of this model.
   */
  datatype Stored = SInt(i: int) | SBool(b: bool) | SStr(s: string) | SBase64(raw: seq<byte>)

  type Doc = map<Key, Stored>

  datatype Memory = Memory(docs: seq<Doc>)

  /** The kind of a written value, as `isinstance` sees it. */
  datatype Kind = IntKind | BoolKind | StrKind | BytesKind | CertKind | KeyKind

  function KindOf(v: Value): Kind
  {
    match v
    case VInt(_) => IntKind
    case VBool(_) => BoolKind
    case VStr(_) => StrKind
    case VBytes(_) => BytesKind
    case VCert(_) => CertKind
    case VKey(_) => KeyKind
  }

  /**
   * The conversion a write applies, or `None` when the key rejects the value. A `bool` is
   * an `int` to `isinstance`, so integer keys accept booleans too.
   */
  function Convert(k: Key, v: Value): (o: Option<Stored>)
    ensures o.Some? <==> KindOf(v) in Accepted(k)
    ensures o.Some? && (k == ChaveSEF || k == ChavePAF) ==> o.value == SStr(ToHex(v.bytes))
  {
    match k
    case Certificado => if v.VCert? then Some(SStr(v.certText)) else None
    case IDDAF => if v.VStr? then Some(SStr(v.s)) else None
    case ChavePrivada | ChavePublica => if v.VKey? then Some(SStr(v.keyText)) else None
    case ChavePAF | ChaveSEF => if v.VBytes? then Some(SStr(ToHex(v.bytes))) else None
    case Contador | ModoOperacao | MaxDFe | NumDFe | MaxDFeModel | FalhasAtualizacao =>
      if v.VInt? then Some(SInt(v.i)) else if v.VBool? then Some(SBool(v.b)) else None
    case Estado | VersaoSB => if v.VStr? then Some(SStr(v.s)) else None
    case REGOK | Violado => if v.VBool? then Some(SBool(v.b)) else None
    case AssinaturaSEF => if v.VBytes? then Some(SBase64(v.bytes)) else None
    case ChaveAteste | ChaveAtestePublica | Modelo | Cnpj => None
  }

  /** `escrita`'s own reply: `None` for the keys that fall through every branch. */
  predicate FallsThrough(k: Key)
  {
    k == Modelo || k == Cnpj
  }

  /** `escrita`: the updated memory and the reply (`Some(true)`, `Some(false)` or `None`). */
  function Write(m: Memory, k: Key, v: Value): (r: (Memory, Option<bool>))
    ensures r.1 == Some(true) <==> KindOf(v) in Accepted(k)
    ensures r.1 == None <==> k == Modelo || k == Cnpj
    ensures r.1 != Some(true) ==> r.0 == m
    ensures |r.0.docs| == |m.docs|
  {
    if FallsThrough(k) then (m, None)
    else
      match Convert(k, v)
      case None => (m, Some(false))
      case Some(s) => (Memory(seq(|m.docs|, i requires 0 <= i < |m.docs| => m.docs[i][k := s])), Some(true))
  }

  /** What a read returns. */
  datatype Reading = RCert(certText: string) | RKey(keyText: string) | RBytes(bytes: seq<byte>)
                   | RInt(i: int) | RStored(value: Stored)

  /**
   * `leitura`: the first document's value, converted back. An empty table or a missing key
   * raises, and so does stored text that is not hexadecimal for the byte and version keys.
   */
  function Read(m: Memory, k: Key): (r: Result<Reading>)
    ensures r.Ok? ==> |m.docs| > 0 && k in m.docs[0]
    ensures r.Ok? && k == VersaoSB ==> r.value.RInt? && r.value.i >= 0
    ensures r.Ok? && (k == ChaveSEF || k == ChavePAF) ==>
      r.value.RBytes? && m.docs[0][k].SStr? && FromHex(m.docs[0][k].s) == Some(r.value.bytes)
    ensures |m.docs| > 0 && k in m.docs[0] && !(k.Certificado? || k.ChavePrivada? || k.ChavePublica? || k.ChaveAteste? ||
              k.ChaveAtestePublica? || k.ChaveSEF? || k.ChavePAF? || k.VersaoSB?) ==>
      r == Ok(RStored(m.docs[0][k]))
  {
    if |m.docs| == 0 || k !in m.docs[0] then Raises
    else
      var s := m.docs[0][k];
      match k
      case Certificado => if s.SStr? then Ok(RCert(s.s)) else Raises
      case ChavePrivada | ChavePublica | ChaveAteste | ChaveAtestePublica =>
        if s.SStr? then Ok(RKey(s.s)) else Raises
      case ChaveSEF | ChavePAF =>
        if s.SStr? && FromHex(s.s).Some? then Ok(RBytes(FromHex(s.s).value)) else Raises
      case VersaoSB =>
        if s.SStr? && HexValue(s.s).Some? then Ok(RInt(HexValue(s.s).value)) else Raises
      case _ => Ok(RStored(s))
  }

  /** `iniciaBanco`: inserts the document only into an empty table; otherwise replies `None`. */
  function Initialise(m: Memory, d: Doc): (r: (Memory, Option<bool>))
    ensures |m.docs| == 0 ==> r.0.docs == [d] && r.1 == Some(true)
    ensures |m.docs| > 0 ==> r.0 == m && r.1 == None
  {
    if |m.docs| == 0 then (Memory([d]), Some(true)) else (m, None)
  }

  /** Inputs of the factory document that come from files and the image partition. */
  datatype Factory = Factory(certificate: string, attestKey: string, attestPublicKey: string,
                             imageVersion: seq<byte>, imageSignature: seq<byte>)

  /** The factory document, for a given device identifier. */
  function Defaults(f: Factory, id: Stored): Doc
  {
    map[MaxDFe := SInt(1000), REGOK := SBool(false), NumDFe := SInt(0), MaxDFeModel := SInt(1000),
        Violado := SBool(false), Estado := SStr("INATIVO"), Certificado := SStr(f.certificate),
        ChaveAteste := SStr(f.attestKey), ChaveAtestePublica := SStr(f.attestPublicKey),
        ChavePrivada := SStr(""), ChavePublica := SStr(""), ChaveSEF := SStr(""), ChavePAF := SStr(""),
        Contador := SInt(0), IDDAF := id, ModoOperacao := SInt(0), Modelo := SStr("daf-pi"),
        Cnpj := SStr("86096781000185"), VersaoSB := SStr(ToHex(f.imageVersion)),
        AssinaturaSEF := SBase64(f.imageSignature), FalhasAtualizacao := SInt(0)]
  }

  predicate Truthy(s: Stored)
  {
    match s
    case SInt(i) => i != 0
    case SBool(b) => b
    case SStr(t) => |t| > 0
    case SBase64(_) => true
  }

  /**
   * `reinicia_memoria`: reads the device identifier (raising on an empty table), empties the
   * table and writes the factory document, keeping the identifier if it is truthy and
   * using `freshId` otherwise.
   */
  function Reset(m: Memory, f: Factory, freshId: string): (r: Result<(Memory, Option<bool>)>)
    ensures r.Ok? <==> |m.docs| > 0 && IDDAF in m.docs[0]
    ensures r.Ok? ==>
      && r.value.1 == Some(true) && |r.value.0.docs| == 1
      && Estado in r.value.0.docs[0] && r.value.0.docs[0][Estado] == SStr("INATIVO")
      && NumDFe in r.value.0.docs[0] && r.value.0.docs[0][NumDFe] == SInt(0)
      && VersaoSB in r.value.0.docs[0] && r.value.0.docs[0][VersaoSB] == SStr(ToHex(f.imageVersion))
  {
    match Read(m, IDDAF)
    case Raises => Raises
    case Ok(r) =>
      var id := if r.RStored? && Truthy(r.value) then r.value else SStr(freshId);
      Ok(Initialise(Memory([]), Defaults(f, id)))
  }

  // ---------------------------------------------------------------------------------------
  // Properties

  /** The key-kind table, stated independently of the write. */
  function Accepted(k: Key): set<Kind>
  {
    if k == Certificado then {CertKind}
    else if k == IDDAF || k == Estado || k == VersaoSB then {StrKind}
    else if k == ChavePrivada || k == ChavePublica then {KeyKind}
    else if k == ChaveSEF || k == ChavePAF || k == AssinaturaSEF then {BytesKind}
    else if k in {Contador, ModoOperacao, MaxDFe, NumDFe, MaxDFeModel, FalhasAtualizacao} then {IntKind, BoolKind}
    else if k == REGOK || k == Violado then {BoolKind}
    else {}
  }

  /**
   * A write succeeds iff the value's kind is accepted by the key; then exactly that key
   * changes in every document. Otherwise nothing changes, and the reply is `None` only for
   * the model and manufacturer keys.
   */
  lemma WriteTable(m: Memory, k: Key, v: Value)
    ensures var r := Write(m, k, v);
      && (r.1 == Some(true) <==> KindOf(v) in Accepted(k))
      && (r.1 == None <==> FallsThrough(k))
      && (r.1 != Some(true) ==> r.0 == m)
      && |r.0.docs| == |m.docs|
      && forall i :: 0 <= i < |m.docs| ==>
           (r.0.docs[i].Keys == m.docs[i].Keys + (if r.1 == Some(true) then {k} else {})) &&
           forall k' :: k' in m.docs[i] && k' != k ==> r.0.docs[i][k'] == m.docs[i][k']
  {
  }

  /** The attestation keys can never be overwritten. */
  lemma AttestKeysReadOnly(m: Memory, v: Value)
    ensures Write(m, ChaveAteste, v) == (m, Some(false))
    ensures Write(m, ChaveAtestePublica, v) == (m, Some(false))
  {
  }

  /** Bytes written to the SEF or PAF key are read back unchanged. */
  lemma KeyBytesRoundTrip(m: Memory, k: Key, b: seq<byte>)
    requires k == ChaveSEF || k == ChavePAF
    requires |m.docs| > 0
    ensures Read(Write(m, k, VBytes(b)).0, k) == Ok(RBytes(b))
  {
    HexRoundTrip(b);
  }

  /**
   * The version is stored as text and read as its hexadecimal value: writing the hex text of
   * the non-empty version bytes `v` reads back their big-endian value; an empty text raises.
   */
  lemma VersionRoundTrip(m: Memory, v: seq<byte>)
    requires |m.docs| > 0
    ensures |v| > 0 ==> Read(Write(m, VersaoSB, VStr(ToHex(v))).0, VersaoSB) == Ok(RInt(FromBE(v)))
    ensures Read(Write(m, VersaoSB, VStr("")).0, VersaoSB) == Raises
  {
    HexValueOfHex(v);
    HexValueOfHex([]);
    WrittenVersion(m, ToHex(v));
    WrittenVersion(m, "");
  }

  /** A version text written to a non-empty table is what the next read converts. */
  lemma WrittenVersion(m: Memory, text: string)
    requires |m.docs| > 0
    ensures Read(Write(m, VersaoSB, VStr(text)).0, VersaoSB) ==
            if HexValue(text).Some? then Ok(RInt(HexValue(text).value)) else Raises
  {
    var w := Write(m, VersaoSB, VStr(text)).0;
    assert w.docs[0] == m.docs[0][VersaoSB := SStr(text)];
  }

  /** A successful write to an integer, boolean or text key reads back the value written. */
  lemma PlainReadBack(m: Memory, k: Key, v: Value)
    requires |m.docs| > 0
    requires k !in {Certificado, ChavePrivada, ChavePublica, ChaveAteste, ChaveAtestePublica, ChaveSEF, ChavePAF, VersaoSB}
    requires Write(m, k, v).1 == Some(true)
    ensures Read(Write(m, k, v).0, k) == Ok(RStored(Convert(k, v).value))
  {
  }

  /** Initialisation inserts only into an empty table, so a second one changes nothing. */
  lemma InitialiseOnce(m: Memory, d: Doc, e: Doc)
    ensures var once := Initialise(m, d).0;
      Initialise(once, e).0 == once && Initialise(once, e).1 == None && |once.docs| >= 1
  {
  }

  /**
   * Resetting keeps a non-empty identifier, writes the factory values for everything else,
   * and raises on an empty table.
   */
  lemma ResetKeepsIdentity(m: Memory, f: Factory, freshId: string)
    ensures |m.docs| == 0 ==> Reset(m, f, freshId).Raises?
    ensures |m.docs| > 0 && IDDAF in m.docs[0] && m.docs[0][IDDAF].SStr? && |m.docs[0][IDDAF].s| > 0 ==>
      && Reset(m, f, freshId).Ok?
      && Reset(m, f, freshId).value.0 == Memory([Defaults(f, m.docs[0][IDDAF])])
      && Read(Reset(m, f, freshId).value.0, IDDAF) == Ok(RStored(m.docs[0][IDDAF]))
    ensures |m.docs| > 0 && IDDAF in m.docs[0] && m.docs[0][IDDAF] == SStr("") ==>
      Read(Reset(m, f, freshId).value.0, IDDAF) == Ok(RStored(SStr(freshId)))
  {
  }
}
