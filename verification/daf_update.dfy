/**
 * Properties of the software-base update (`atualizar_sb`): what every outcome does to the
 * partition, the failure counter and the violation flag, and that the running image is
 * only ever read.
 */
module DafUpdate {
  import opened Wrappers
  import opened Bytes
  import Image
  import opened Daf
  import DafProperties

  /** The failure reported for each verdict that rejects an image. */
  function RejectionCode(verdict: int): int
  {
    match verdict
    case 3 => 12  // the firmware signature is invalid
    case 8 => 8   // the version is not newer
    case 9 => 9   // the model (attestation) is invalid
    case _ => 2
  }

  /**
   * Whatever the outcome, a loaded candidate becomes the partition's content, the running
   * image, the retained authorisations, the counters and the session stay as they were,
   * and the device ends with at most ten recorded failures or violated and unusable. An
   * image that cannot be loaded raises and changes nothing.
   */
  lemma UpdateFrame(s: Daf, raw: seq<byte>, v: Image.Verifier)
    ensures Image.LoadCandidate(s.partition, raw).Raises? ==> UpdateImage(s, raw, v) == Reply(s, Crash)
    ensures Image.LoadCandidate(s.partition, raw).Ok? ==>
      var r := UpdateImage(s, raw, v);
      && r.next.partition == Some(Image.LoadCandidate(s.partition, raw).value)
      && r.next.current == s.current && r.next.mt == s.mt
      && r.next.ms.numDFe == s.ms.numDFe && r.next.ms.contador == s.ms.contador && r.next.ms.iddaf == s.ms.iddaf
      && r.next.operacao == s.operacao && r.next.nonce == s.nonce
      && (r.next.ms.falhas <= 10 || r.next.ms.violado)
      && (r.next.ms.violado ==> r.next.ms.estado == Inutilizado)
      && (!s.ms.violado && r.next.ms.violado ==> s.ms.falhas > 9)
  {
    match Image.LoadCandidate(s.partition, raw)
    case Raises =>
    case Ok(candidate) => InstallFrame(s.(partition := Some(candidate)), candidate, v);
  }

  lemma InstallFrame(s: Daf, candidate: Image.Image, v: Image.Verifier)
    ensures var r := Install(s, candidate, v);
      && r.next.partition == s.partition && r.next.current == s.current && r.next.mt == s.mt
      && r.next.ms.numDFe == s.ms.numDFe && r.next.ms.contador == s.ms.contador && r.next.ms.iddaf == s.ms.iddaf
      && r.next.operacao == s.operacao && r.next.nonce == s.nonce
      && (r.next.ms.falhas <= 10 || r.next.ms.violado)
      && (r.next.ms.violado ==> r.next.ms.estado == Inutilizado)
      && (!s.ms.violado && r.next.ms.violado ==> s.ms.falhas > 9)
  {
    if s.ms.falhas <= 10 && !s.ms.violado {
      AttemptFrame(s, candidate, v);
    }
  }

  /** One attempt touches only the signature, the version, the failure count and the session bookkeeping. */
  lemma AttemptFrame(s: Daf, candidate: Image.Image, v: Image.Verifier)
    ensures var r := Attempt(s, candidate, v);
      && r.next == s.(ms := r.next.ms, lastMsg := None, timerArmed := false)
      && r.next.ms == s.ms.(assinaturaSEF := r.next.ms.assinaturaSEF, versaoSB := r.next.ms.versaoSB,
                            falhas := r.next.ms.falhas)
      && r.next.ms.falhas in {0, s.ms.falhas, s.ms.falhas + 1}
  {
  }

  /** A device that already failed more than ten times, or is violated, refuses every image and becomes unusable. */
  lemma UpdateRefused(s: Daf, raw: seq<byte>, v: Image.Verifier)
    requires Image.LoadCandidate(s.partition, raw).Ok?
    requires s.ms.falhas > 10 || s.ms.violado
    ensures var r := UpdateImage(s, raw, v);
      && r.next == s.(partition := Some(Image.LoadCandidate(s.partition, raw).value),
                      ms := s.ms.(violado := true, estado := Inutilizado))
      && (r.response == Unusable <==> HexValue(s.ms.versaoSB).Some?)
      && (r.response == Crash <==> HexValue(s.ms.versaoSB).None?)
  {
  }

  /** While authorisations are retained, an image is refused without counting a failure. */
  lemma UpdateWithRetained(s: Daf, raw: seq<byte>, v: Image.Verifier)
    requires Image.LoadCandidate(s.partition, raw).Ok?
    requires s.ms.falhas <= 10 && !s.ms.violado && s.ms.numDFe > 0
    ensures var r := UpdateImage(s, raw, v);
      && r.response == Failure(7)
      && r.next == s.(partition := Some(Image.LoadCandidate(s.partition, raw).value), lastMsg := None, timerArmed := false)
  {
  }

  /**
   * An accepted image: its signature and version become the stored ones, the failure
   * count restarts, and the stored version text reads back as the image's version number.
   */
  lemma UpdateAccepted(s: Daf, raw: seq<byte>, v: Image.Verifier)
    requires Image.LoadCandidate(s.partition, raw).Ok?
    requires s.ms.falhas <= 10 && !s.ms.violado && s.ms.numDFe <= 0
    requires Image.Update(v, s.current, Image.LoadCandidate(s.partition, raw).value) == 0
    ensures var candidate := Image.LoadCandidate(s.partition, raw).value;
      var r := UpdateImage(s, raw, v);
      && r.response == Success
      && r.next == s.(partition := Some(candidate), lastMsg := None, timerArmed := false,
                      ms := s.ms.(assinaturaSEF := candidate.signature, versaoSB := ToHex(candidate.version), falhas := 0))
      && (|candidate.version| > 0 ==> HexValue(r.next.ms.versaoSB) == Some(FromBE(candidate.version)))
      && (|candidate.version| == 0 ==> HexValue(r.next.ms.versaoSB) == None)
  {
    HexValueOfHex(Image.LoadCandidate(s.partition, raw).value.version);
  }

  /**
   * A rejected image counts one more failure and reports the verdict's failure; the
   * failure that brings the count to eleven violates the device instead.
   */
  lemma UpdateRejected(s: Daf, raw: seq<byte>, v: Image.Verifier)
    requires Image.LoadCandidate(s.partition, raw).Ok?
    requires s.ms.falhas <= 10 && !s.ms.violado && s.ms.numDFe <= 0
    requires Image.Update(v, s.current, Image.LoadCandidate(s.partition, raw).value) != 0
    ensures var candidate := Image.LoadCandidate(s.partition, raw).value;
      var verdict := Image.Update(v, s.current, candidate);
      var r := UpdateImage(s, raw, v);
      && r.next.ms.falhas == s.ms.falhas + 1
      && (s.ms.falhas < 10 ==>
            && r.response == Failure(RejectionCode(verdict))
            && r.next == s.(partition := Some(candidate), lastMsg := None, timerArmed := false,
                            ms := s.ms.(falhas := s.ms.falhas + 1)))
      && (s.ms.falhas == 10 ==>
            && r.next.ms == s.ms.(falhas := 11, violado := true, estado := Inutilizado)
            && (r.response == Unusable || r.response == Crash))
  {
    var candidate := Image.LoadCandidate(s.partition, raw).value;
    AttemptRejected(s.(partition := Some(candidate)), candidate, v);
  }

  lemma AttemptRejected(s: Daf, candidate: Image.Image, v: Image.Verifier)
    requires s.ms.numDFe <= 0 && Image.Update(v, s.current, candidate) != 0
    ensures Attempt(s, candidate, v) ==
      Reply(s.(lastMsg := None, timerArmed := false, ms := s.ms.(falhas := s.ms.falhas + 1)),
            Failure(RejectionCode(Image.Update(v, s.current, candidate))))
  {
  }

  /**
   * The running image is never replaced, so resubmitting an image that was accepted, or
   * submitting nothing and reusing the partition, is accepted again with the same reply
   * and the same state.
   */
  lemma AcceptedUpdateReplays(s: Daf, raw: seq<byte>, again: seq<byte>, v: Image.Verifier)
    requires UpdateImage(s, raw, v).response == Success
    requires again == raw || |again| == 0
    ensures UpdateImage(UpdateImage(s, raw, v).next, again, v) == UpdateImage(s, raw, v)
  {
    var candidate := Image.LoadCandidate(s.partition, raw).value;
    var t := s.(partition := Some(candidate));
    var r := Install(t, candidate, v);
    InstallReplays(t, candidate, v);
    assert r.next.partition == Some(candidate);
    assert Image.LoadCandidate(r.next.partition, again) == Ok(candidate);
  }

  lemma InstallReplays(s: Daf, candidate: Image.Image, v: Image.Verifier)
    requires Install(s, candidate, v).response == Success
    ensures var r := Install(s, candidate, v);
      r.next.partition == s.partition && Install(r.next, candidate, v) == r
  {
  }

  /** An accepted update keeps the retained-authorisation invariant; so does every update. */
  lemma UpdateKeepsInv(s: Daf, raw: seq<byte>, v: Image.Verifier)
    requires DafProperties.Inv(s)
    ensures DafProperties.Inv(UpdateImage(s, raw, v).next)
  {
    UpdateFrame(s, raw, v);
  }
}
