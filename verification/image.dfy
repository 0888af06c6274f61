/**
 * The software-base image (`ImagemSB`): a raw image split at fixed offsets into version,
 * maximum-DFe, digest, signature, attestation signature and code, and the update decision
 * that checks a candidate image against the current one. Digest and signature checks are
 * functions supplied by the caller (the cryptography is not part of this model).
 */
module Image {
  import opened Wrappers
  import opened Bytes

  const VersionSize: nat := 2
  const MaxDfeSize: nat := 2
  const HashSize: nat := 32
  const SignatureSize: nat := 103
  const AttestSize: nat := 103

  /** Where the code starts: the sum of the fixed field sizes. */
  const CodeOffset: nat := VersionSize + MaxDfeSize + HashSize + SignatureSize + AttestSize

  datatype Image = Image(
    version: seq<byte>,
    maxDfe: seq<byte>,
    hash: seq<byte>,
    signature: seq<byte>,
    attestSignature: seq<byte>,
    code: seq<byte>)

  /** The six fields of a raw image, each sliced at its fixed offset (`_extrai_*`). */
  function FromRaw(raw: seq<byte>): (img: Image)
    ensures Flatten(img) == raw
    ensures |raw| >= CodeOffset ==>
      |img.version| == VersionSize && |img.maxDfe| == MaxDfeSize && |img.hash| == HashSize &&
      |img.signature| == SignatureSize && |img.attestSignature| == AttestSize &&
      |img.code| == |raw| - CodeOffset
    ensures |raw| < CodeOffset ==> img.code == []
  {
    var o1 := VersionSize;
    var o2 := o1 + MaxDfeSize;
    var o3 := o2 + HashSize;
    var o4 := o3 + SignatureSize;
    var o5 := o4 + AttestSize;
    var img := Image(Slice(raw, 0, o1), Slice(raw, o1, o2), Slice(raw, o2, o3), Slice(raw, o3, o4),
                     Slice(raw, o4, o5), if o5 <= |raw| then raw[o5..] else []);
    assert Flatten(img) == raw by {
      SliceSplit(raw, 0, o1, o2);
      SliceSplit(raw, 0, o2, o3);
      SliceSplit(raw, 0, o3, o4);
      SliceSplit(raw, 0, o4, o5);
      assert Slice(raw, 0, o5) + (if o5 <= |raw| then raw[o5..] else []) == raw;
    }
    img
  }

  /** The fields laid back to back, in image order. */
  function Flatten(img: Image): seq<byte>
  {
    img.version + img.maxDfe + img.hash + img.signature + img.attestSignature + img.code
  }

  /** An image with full-size fixed fields splits back into the same fields. */
  lemma SplitOfFlatten(img: Image)
    requires |img.version| == VersionSize && |img.maxDfe| == MaxDfeSize && |img.hash| == HashSize
    requires |img.signature| == SignatureSize && |img.attestSignature| == AttestSize
    ensures FromRaw(Flatten(img)) == img
  {
    var raw := Flatten(img);
    var r := FromRaw(raw);
    assert r.version == raw[0..2] == img.version;
    assert r.maxDfe == raw[2..4] == img.maxDfe;
    assert r.hash == raw[4..36] == img.hash;
    assert r.signature == raw[36..139] == img.signature;
    assert r.attestSignature == raw[139..242] == img.attestSignature;
    assert r.code == raw[242..] == img.code;
  }

  /**
   * The checks an update relies on: a digest check `(data, digest)`, a signature check
   * under the certificate's key and one under the attestation key, each `(message, signature)`.
   */
  datatype Verifier = Verifier(
    digestMatches: (seq<byte>, seq<byte>) -> bool,
    certificateSigned: (seq<byte>, seq<byte>) -> bool,
    attestSigned: (seq<byte>, seq<byte>) -> bool)

  /** The digest input of `esta_integro`: version, then code, then maximum-DFe field. */
  function IntegrityInput(img: Image): (r: seq<byte>)
    ensures |r| == |img.version| + |img.code| + |img.maxDfe|
    ensures r[..|img.version|] == img.version
    ensures r[|img.version|..|img.version| + |img.code|] == img.code
    ensures r[|img.version| + |img.code|..] == img.maxDfe
  {
    img.version + img.code + img.maxDfe
  }

  predicate Intact(v: Verifier, img: Image)
  {
    v.digestMatches(IntegrityInput(img), img.hash)
  }

  /** `esta_autentico`: the attestation signature field, signed under the certificate. */
  predicate Authentic(v: Verifier, img: Image)
  {
    v.certificateSigned(img.attestSignature, img.signature)
  }

  /** `esta_autentico_ateste`: the digest, signed under the attestation key. */
  predicate Attested(v: Verifier, img: Image)
  {
    v.attestSigned(img.hash, img.attestSignature)
  }

  /**
   * `atualizar`: 3 for a candidate that is not intact or not authentic, else 9 if the
   * attestation fails, else 8 if its version is not above the current one (byte order),
   * else 0. The current image is only read.
   */
  function Update(v: Verifier, current: Image, candidate: Image): (code: int)
    ensures code in {0, 3, 8, 9}
    ensures code == 3 <==> !Intact(v, candidate) || !Authentic(v, candidate)
    ensures code == 9 <==> Intact(v, candidate) && Authentic(v, candidate) && !Attested(v, candidate)
    ensures code == 0 ==> Intact(v, candidate) && Authentic(v, candidate) && Attested(v, candidate) &&
                          !LexLe(candidate.version, current.version)
  {
    if !Intact(v, candidate) || !Authentic(v, candidate) then 3
    else if !Attested(v, candidate) then 9
    else if LexLe(candidate.version, current.version) then 8
    else 0
  }

  /**
   * For two-byte versions the byte order is the numeric order: a verified candidate is
   * accepted iff its version number is strictly greater.
   */
  lemma UpdateComparesVersionNumbers(v: Verifier, current: Image, candidate: Image)
    requires |current.version| == VersionSize && |candidate.version| == VersionSize
    requires Intact(v, candidate) && Authentic(v, candidate) && Attested(v, candidate)
    ensures Update(v, current, candidate) == 0 <==> FromBE(candidate.version) > FromBE(current.version)
    ensures Update(v, current, candidate) == 8 <==> FromBE(candidate.version) <= FromBE(current.version)
  {
    LexLeIsNumeric(candidate.version, current.version);
  }

  /**
   * A candidate image (`ImagemSBCandidato`): an empty raw image means the partition's
   * previous content, and raises when the partition is empty; otherwise the raw image is
   * split and becomes the partition's content.
   */
  function LoadCandidate(partition: Option<Image>, raw: seq<byte>): (r: Result<Image>)
    ensures |raw| > 0 ==> r == Ok(FromRaw(raw)) && Flatten(r.value) == raw
    ensures |raw| == 0 ==> (r.Raises? <==> partition.None?)
  {
    if |raw| > 0 then Ok(FromRaw(raw))
    else if partition.Some? then Ok(partition.value)
    else Raises
  }
}
