# daf-pi core in Dafny

A model of the core of daf-pi, a virtual *Dispositivo Autorizador Fiscal* (DAF). A DAF
is a fiscal authorisation device that talks to a point-of-sale application over a
serial line. The model covers the following layers:

- **Serial link.**
  - The framing layer (`enquadramento.py`): type byte, big-endian length field, payload, a three-state receive decoder, and the inter-byte timeout.
  - The stop-and-wait ARQ layer above it (`arq.py`): alternating data/ack bits, duplicate suppression, bounded retransmission, and the ping echo.
  - `Link` composes the two.
- **DAF request processor (`daf.py`).**
  - The violation gate and the session gate in front of the request handlers.
  - Every handler, with its guards in the source's order and its failure codes.
  - The effects of each handler on the secure-memory parameters, on the working memory of retained authorisations, and on the session fields.
  - The software-base update entry point (`atualizar_sb`).
- **Working memory (`mt.py`).** Retained authorisations: queries under Python `==`, add, remove, get and listing.
- **Secure memory (`memoria_segura.py`).** The typed write table, the read conversions, initialisation and reset.
- **Software-base image (`imagem.py`).**
  - Splitting the raw image into fields at fixed offsets.
  - The update verdict. Digest and signature checks are caller-supplied functions.

The model is pure functions over immutable datatypes. The following conventions apply throughout:

- Each event returns the next state together with what the event causes.
- A Python exception escaping the processor is the response `Crash`. The state at that point keeps every write made before the exception.
- The outcomes of the cryptographic steps of one request come in as a `Checks` record. These are JWT verification, HMAC, certificate and firmware signatures, fresh nonces and identifiers.
- The secure memory as the DAF uses it is a typed record (`Daf.Params`). The stored form and its conversions are modelled separately in `SecureMemory`.
- Python's `bool`/`int` equality (`True == 1`) is modelled in `Json.PyEq`. Request codes, modes and record queries all go through it.
- Timers are armed/disarmed flags, and a timeout is an explicit event. The event loop calls a layer's `handle_timeout` only while that layer's timeout is enabled, so the ARQ and DAF timeouts do nothing while their timer is disarmed. The framing timeout is applied as written: on an Idle decoder with its timer off it changes nothing (`Framing.IdleTimeoutChangesNothing`).
- The ARQ layer's send type is unset (`None`) until the first send. The program starts it at the integer 0, which equals no frame-type byte, so a retransmission before any send writes nothing.
- `Daf.Process` is the processor as written, including the raising mode confirmation described under Findings below. `Daf.ProcessCorrected` is the same processor with the intended confirmation. `DafSessions.ProcessCorrectedOnlyAnswers` shows the two leave the same state after every request, so the state invariants proved for `Process` hold for both.

Modules:

| module | file |
|---|---|
| `Wrappers` | `wrappers.dfy` |
| `Bytes` | `bytes.dfy` |
| `Json` | `json.dfy` |
| `Framing` | `framing.dfy` |
| `Arq` | `arq.dfy` |
| `Link` | `link.dfy` |
| `WorkingMemory` | `mt.dfy` |
| `SecureMemory` | `secure_memory.dfy` |
| `Image` | `image.dfy` |
| `Messages` | `messages.dfy` |
| `Daf` | `daf.dfy` |
| `DafProperties` | `daf_properties.dfy` |
| `DafSessions` | `daf_sessions.dfy` |
| `DafServices` | `daf_services.dfy` |
| `DafUpdate` | `daf_update.dfy` |

## Model

| member | source | states |
|---|---|---|
| Bytes.ToBE | daf-pi/daf_virtual_rasp/com/enquadramento.py:197-205 | `to_bytes(w, "big")` of a fitting length gives exactly `w` bytes whose big-endian value is that length |
| Bytes.FromBEBound | daf-pi/daf_virtual_rasp/com/enquadramento.py:100-108 | the value read from a `w`-byte length field is below `256^w` |
| Bytes.ToBEFromBE | daf-pi/daf_virtual_rasp/com/enquadramento.py:100-108 | a received length field re-encodes to the same bytes: `from_bytes` and `to_bytes` are inverse on fixed widths |
| Bytes.FromBEFront | daf-pi/daf_virtual_rasp/com/enquadramento.py:100-108 | the first byte of a big-endian field is the most significant digit |
| Bytes.LexLeIsNumeric | daf-pi/daf_virtual_rasp/imagem.py:204 | for equal-width version fields, Python's byte-string `<=` is the numeric order of their big-endian values |
| Bytes.ToHexSnoc | daf-pi/daf_virtual_rasp/memoria/memoria_segura.py:220-224 | `hex()` writes two digits per byte, high nibble first, appended in byte order |
| Bytes.HexRoundTrip | daf-pi/daf_virtual_rasp/memoria/memoria_segura.py:173-174 | `fromhex` reads back exactly the bytes `hex()` wrote |
| Bytes.DigitsOfHex | daf-pi/daf_virtual_rasp/memoria/memoria_segura.py:175-176 | the digit string `hex()` writes has the bytes' big-endian value |
| Bytes.HexValueOfHex | daf-pi/daf_virtual_rasp/memoria/memoria_segura.py:175-176 | `int(b.hex(), 16)` is the big-endian value of a non-empty `b`, and raises for `b''` |
| Json.PyLe | daf-pi/daf_virtual_rasp/daf/daf.py:853-867 | Python `<=` between decoded values: defined between two numbers (bools count as numbers), comparing their values, and between two strings, comparing them lexicographically; any other pair raises, as a numeric bound compared with text does in the listing |
| Json.StrLeOrder | daf-pi/daf_virtual_rasp/daf/daf.py:856 | the order `<=` uses on text is reflexive, total and antisymmetric |
| Json.PyEqEquivalence | daf-pi/daf_virtual_rasp/daf/daf.py:163-244 | Python `==` on decoded values is an equivalence that identifies exactly `True` with `1` and `False` with `0` |
| Messages.CheckKeys | daf-pi/daf_virtual_rasp/daf/daf.py:246-263 | the key check holds iff the message has exactly the given number of keys and every listed key is among them |
| Messages.CodeOf | daf-pi/daf_virtual_rasp/daf/daf.py:163-244 | a request code equals integer `k` under Python `==` iff its numeric value is `k`; text and null codes equal no code |
| Messages.ValidMatchesTable | daf-pi/daf_virtual_rasp/daf/daf.py:89-149 | a request is valid iff its code is numeric and the message has exactly that code's required key set (or any shape for 3, 8, 9, 14, 15); unlisted codes are never valid |
| Framing.LengthField | daf-pi/daf_virtual_rasp/com/enquadramento.py:197-207 | a length fitting a 2- or 4-byte field is written big-endian in that width; otherwise no length field is written |
| Framing.Encode | daf-pi/daf_virtual_rasp/com/enquadramento.py:177-214 | a frame starts with its type byte and ends with the payload unchanged, with the length field between them |
| Framing.EncodeFits | daf-pi/daf_virtual_rasp/com/enquadramento.py:197-205 | a fitting payload gives a frame of `1 + width + n` bytes whose length field decodes to `n` |
| Framing.EncodeOversize | daf-pi/daf_virtual_rasp/com/enquadramento.py:206-213 | an oversize payload is sent whole behind the type byte with no length field |
| Framing.OnIdle | daf-pi/daf_virtual_rasp/com/enquadramento.py:57-80 | in Idle, a byte that is no frame type changes nothing; a type byte starts a frame with the type's field width and raises the ping flag for a ping |
| Framing.Step | daf-pi/daf_virtual_rasp/com/enquadramento.py:44-126 | a byte delivers a frame only from the data phase; the delivery carries the stored type and the collected bytes plus this one split into control byte and data, and leaves the decoder as a timeout would; a byte that delivers nothing in a frame keeps the timer armed or changes nothing |
| Framing.Feed | daf-pi/daf_virtual_rasp/com/enquadramento.py:31-35 | reading bytes one at a time delivers at most one frame per byte read |
| Framing.Timeout | daf-pi/daf_virtual_rasp/com/enquadramento.py:37-40 | the inter-byte timeout returns to a clean Idle with the timer off, keeping the ping flag and the stored type |
| Framing.IdleTimeoutChangesNothing | daf-pi/daf_virtual_rasp/com/enquadramento.py:37-40 | on an Idle decoder with its timer off a timeout changes nothing, so firing it only while armed would give the same states |
| Framing.Send | daf-pi/daf_virtual_rasp/com/enquadramento.py:216-228 | only the three frame types are written, as encoded frames; sending a ping clears the ping flag and nothing else |
| Framing.StepInv | daf-pi/daf_virtual_rasp/com/enquadramento.py:44-126 | every received byte keeps the per-phase accumulator invariant, and a frame is delivered only from the data phase, back into Idle |
| Framing.IdleResync | daf-pi/daf_virtual_rasp/com/enquadramento.py:79-80 | bytes that are not frame types are dropped in Idle without any state change |
| Framing.FeedConcat | daf-pi/daf_virtual_rasp/com/enquadramento.py:44-55 | feeding two byte strings in turn is feeding their concatenation, with the deliveries concatenated |
| Framing.FeedLength | daf-pi/daf_virtual_rasp/com/enquadramento.py:82-98 | the length phase consumes exactly `width` bytes without delivering, then expects their big-endian value |
| Framing.FeedData | daf-pi/daf_virtual_rasp/com/enquadramento.py:110-126 | with `L >= 1` announced, the `L`-th payload byte delivers `(payload[0], payload[1..], type)` once and clears the decoder into Idle |
| Framing.FeedDataPartial | daf-pi/daf_virtual_rasp/com/enquadramento.py:117-120 | fewer payload bytes than announced are accumulated and nothing is delivered |
| Framing.ZeroLengthNeverCompletes | daf-pi/daf_virtual_rasp/com/enquadramento.py:117-126 | a frame announcing length 0 never completes: every later byte is swallowed with no effect until a timeout |
| Framing.RoundTrip | daf-pi/daf_virtual_rasp/com/enquadramento.py:177-214 | decoding the frame built for a payload of 1 to max bytes from Idle delivers `(p[0], p[1..], t)` exactly once and returns to Idle |
| Framing.FramePrefix | daf-pi/daf_virtual_rasp/com/enquadramento.py:57-120 | every byte of a frame except the last is absorbed without delivery, leaving the payload minus its last byte accumulated |
| Framing.SelfHeal | daf-pi/daf_virtual_rasp/com/enquadramento.py:37-40 | after any partial frame and a timeout, a well-formed frame decodes as from a fresh decoder, up to the ping flag |
| Arq.Send | daf-pi/daf_virtual_rasp/com/arq.py:196-204 | in Idle a send transmits `DATA_seqTx ++ data` and waits; while waiting it only records the type and the data |
| Arq.Init | daf-pi/daf_virtual_rasp/com/arq.py:10-27 | the layer starts Idle with no attempt, the timer off, equal sequence bits and no send type yet |
| Arq.OnIdle | daf-pi/daf_virtual_rasp/com/arq.py:43-86 | a send in Idle stores `DATA_seqTx ++ data`, holds the application, transmits it and waits with a fresh count and the timer armed; a received frame never changes the send bit, the count, the send type or the timer, and leaves Idle only for a ping echo |
| Arq.OnWait | daf-pi/daf_virtual_rasp/com/arq.py:88-122 | in Wait the send bit flips exactly on the matching ACK, the receive bit changes only on fresh DATA, and leaving Wait disarms the timer |
| Arq.Receive | daf-pi/daf_virtual_rasp/com/arq.py:206-215 | a received frame records its type and data; only the matching ACK in Wait advances the send bit, only fresh DATA the receive bit, and whatever is delivered upward is the frame's data |
| Arq.Timeout | daf-pi/daf_virtual_rasp/com/arq.py:173-184 | a timeout with the timer disarmed, or in Idle, does nothing; in Wait with the timer armed it retransmits the stored frame as the last send type below the ceiling and abandons at the ceiling, resetting the count and disarming the timer |
| Arq.FreshData | daf-pi/daf_virtual_rasp/com/arq.py:43-122 | fresh DATA is acknowledged once with its own parity and `seqRx` flips; outside the ping case it is delivered exactly once |
| Arq.DuplicateData | daf-pi/daf_virtual_rasp/com/arq.py:83-86 | duplicate DATA is re-acknowledged with its own parity, not delivered, and changes neither bits nor phase |
| Arq.AckHandling | daf-pi/daf_virtual_rasp/com/arq.py:95-100 | the matching ACK in Wait completes the exchange and flips `seqTx`; in Idle an ACK changes nothing |
| Arq.WrongAckIsTimeout | daf-pi/daf_virtual_rasp/com/arq.py:115-122 | a wrong-parity ACK in Wait runs the timeout body: with the timer armed it is exactly a timeout; with the timer off below the ceiling it still retransmits and re-arms the timer |
| Arq.PingEcho | daf-pi/daf_virtual_rasp/com/arq.py:66-78 | fresh DATA while a ping is pending is acknowledged, not delivered, and echoed behind `DATA_seqTx` in a ping frame; the layer then waits |
| Arq.EchoNotRetransmitted | daf-pi/daf_virtual_rasp/com/arq.py:67-78 | the ping echo enters Wait without arming the timer, so no number of timeouts retransmits it |
| Arq.IdleQuietKept | daf-pi/daf_virtual_rasp/com/arq.py:95-100 | Idle with the timer off holds initially and is kept by every receive, send and timeout: the layer leaves Wait only by disarming the timer |
| Arq.SequenceBitsChangeOnlyOnProgress | daf-pi/daf_virtual_rasp/com/arq.py:29-204 | `seqTx` changes only on the matching ACK and `seqRx` only on fresh DATA; sends and timeouts change neither |
| Arq.AttemptsBounded | daf-pi/daf_virtual_rasp/com/arq.py:160-184 | no event takes the retry count past the ceiling |
| Arq.ExactlyLimitRetransmissions | daf-pi/daf_virtual_rasp/com/arq.py:160-184 | from Wait with the timer armed and no attempt yet, with the ACK never arriving, exactly `limit` copies of the unchanged frame go out, then the message is abandoned and further timeouts do nothing |
| Arq.TimeoutsSplit | daf-pi/daf_virtual_rasp/com/arq.py:173-184 | a run of timeouts splits into consecutive runs with the actions concatenated |
| Arq.TransmittedCopies | daf-pi/daf_virtual_rasp/com/arq.py:160-168 | the retransmissions are `n` copies of the same stored frame |
| Link.QuietBytes | daf-pi/daf_virtual_rasp/com/enquadramento.py:44-55 | bytes that complete no frame only move the decoder, and the ARQ layer sees nothing |
| Link.BytesInConcat | daf-pi/daf_virtual_rasp/com/enquadramento.py:31-35 | reading two byte strings in turn is reading their concatenation, with the line events concatenated |
| Link.FrameArrives | daf-pi/daf_virtual_rasp/com/enquadramento.py:121-126 | a whole frame reaches the ARQ layer exactly once, with the decoder back in Idle and its ping flag passed along |
| Link.FreshDataFrame | daf-pi/daf_virtual_rasp/com/arq.py:206-215 | a fresh DATA frame on the line writes one ACK frame and hands the data after the control byte up exactly once, tagged with its frame type |
| Link.DuplicateDataFrame | daf-pi/daf_virtual_rasp/com/arq.py:135-158 | a repeated DATA frame writes the ACK for its own parity again and delivers nothing |
| Link.PingFrameEcho | daf-pi/daf_virtual_rasp/com/enquadramento.py:164-175 | a ping frame is acknowledged and its data written back in a ping frame; nothing goes up and the ping flag clears |
| Link.SendHandling | daf-pi/daf_virtual_rasp/com/arq.py:196-204 | a send from Idle writes `DATA_seqTx ++ data` as a frame of the requested type; a send while waiting is dropped |
| Link.AppSend | daf-pi/daf_virtual_rasp/com/arq.py:196-204 | an application send never changes the sequence bits and records the send type; while waiting it writes nothing, from Idle it holds the application and waits |
| Link.ByteIn | daf-pi/daf_virtual_rasp/com/enquadramento.py:31-35 | a byte that completes no frame only advances the decoder; the send bit advances only for a frame received while waiting |
| Link.Retransmission | daf-pi/daf_virtual_rasp/com/arq.py:160-168 | with the ARQ timer armed below the ceiling, a timeout writes the stored frame again as the type recorded by the last send, and nothing before any send |
| WorkingMemory.Exists | daf-pi/daf_virtual_rasp/memoria/mt.py:31-48 | the query holds iff exactly one record matches |
| WorkingMemory.Keep | daf-pi/daf_virtual_rasp/memoria/mt.py:60-63 | the kept records are exactly those not matching, and the matching ones are the rest |
| WorkingMemory.Remove | daf-pi/daf_virtual_rasp/memoria/mt.py:50-65 | every record whose `aut` matches is deleted; success is reported iff exactly one was deleted |
| WorkingMemory.Get | daf-pi/daf_virtual_rasp/memoria/mt.py:117-134 | returns the first matching record, and nothing iff no record matches |
| WorkingMemory.Add | daf-pi/daf_virtual_rasp/memoria/mt.py:70-104 | appends the new record with the eight stored fields unless the duplicate query hits, leaving the store unchanged otherwise |
| WorkingMemory.UniqueMatch | daf-pi/daf_virtual_rasp/memoria/mt.py:41-48 | a count of one matching record means a unique matching index, and conversely |
| WorkingMemory.TwoMatchesHideRecord | daf-pi/daf_virtual_rasp/memoria/mt.py:41-48 | two matching records make the existence query false |
| WorkingMemory.RemoveTwice | daf-pi/daf_virtual_rasp/memoria/mt.py:50-65 | a second removal of the same id reports failure and changes nothing |
| WorkingMemory.AddAlwaysInserts | daf-pi/daf_virtual_rasp/memoria/mt.py:85-104 | the duplicate query looks at keys the records never carry, so every add inserts and the count grows by one |
| WorkingMemory.AddTwiceHidesAuthorisation | daf-pi/daf_virtual_rasp/memoria/mt.py:85-104 | adding an authorisation twice keeps both copies, after which it can no longer be found by its `aut` |
| WorkingMemory.RemoveFound | daf-pi/daf_virtual_rasp/memoria/mt.py:50-65 | a found record is removed exactly once, the count drops by one, and it can no longer be found |
| WorkingMemory.GetUnique | daf-pi/daf_virtual_rasp/memoria/mt.py:117-134 | with exactly one matching record, the lookup returns that record |
| SecureMemory.WriteTable | daf-pi/daf_virtual_rasp/memoria/memoria_segura.py:181-297 | a write succeeds iff the key accepts the value's kind, and then only that key changes in every document; otherwise nothing changes, and the reply is `None` only for the model and manufacturer keys |
| SecureMemory.Convert | daf-pi/daf_virtual_rasp/memoria/memoria_segura.py:181-297 | a key converts a value exactly when its kind is in the independent key-kind table; SEF and PAF key bytes are stored as their hex text |
| SecureMemory.Write | daf-pi/daf_virtual_rasp/memoria/memoria_segura.py:181-297 | the write succeeds exactly for an accepted kind, replies `None` exactly for the model and manufacturer keys, changes nothing otherwise and keeps the number of documents |
| SecureMemory.Read | daf-pi/daf_virtual_rasp/memoria/memoria_segura.py:157-179 | a read succeeds only for a key present in the first document; the version reads as a non-negative number, key bytes as the bytes their stored hex text decodes to, and plain keys as their stored value |
| SecureMemory.Reset | daf-pi/daf_virtual_rasp/memoria/memoria_segura.py:98-155 | the reset succeeds exactly when the first document holds an identifier, and then leaves one factory document: inactive, no retained authorisation, the image's version |
| SecureMemory.AttestKeysReadOnly | daf-pi/daf_virtual_rasp/memoria/memoria_segura.py:191-239 | the attestation keys can never be overwritten |
| SecureMemory.KeyBytesRoundTrip | daf-pi/daf_virtual_rasp/memoria/memoria_segura.py:220-228 | bytes written to the SEF or PAF key read back unchanged |
| SecureMemory.VersionRoundTrip | daf-pi/daf_virtual_rasp/memoria/memoria_segura.py:269-277 | the hex text of non-empty version bytes reads back as their big-endian value; empty text raises |
| SecureMemory.WrittenVersion | daf-pi/daf_virtual_rasp/memoria/memoria_segura.py:173-176 | a version text written to a non-empty table reads back as its hexadecimal value, or raises when it is not hexadecimal |
| SecureMemory.PlainReadBack | daf-pi/daf_virtual_rasp/memoria/memoria_segura.py:157-179 | a successful write to an integer, boolean or text key reads back the value written |
| SecureMemory.Initialise | daf-pi/daf_virtual_rasp/memoria/memoria_segura.py:80-96 | the document is inserted only into an empty table; otherwise nothing changes and the reply is `None` |
| SecureMemory.InitialiseOnce | daf-pi/daf_virtual_rasp/memoria/memoria_segura.py:80-96 | a second initialisation changes nothing |
| SecureMemory.ResetKeepsIdentity | daf-pi/daf_virtual_rasp/memoria/memoria_segura.py:98-155 | a reset keeps a non-empty identifier, uses a fresh one for an empty identifier, writes the factory values, and raises on an empty table |
| Bytes.Slice | daf-pi/daf_virtual_rasp/imagem.py:61-83 | Python's clamped `raw[lo:hi]`: the length clamps to the input and each element is read at its offset |
| Image.FromRaw | daf-pi/daf_virtual_rasp/imagem.py:61-83 | the six extracted fields laid back to back give the raw image, with full-size fixed fields when the image is long enough |
| Image.SplitOfFlatten | daf-pi/daf_virtual_rasp/imagem.py:10-14 | an image with full-size fixed fields splits back into the same fields |
| Image.IntegrityInput | daf-pi/daf_virtual_rasp/imagem.py:182-184 | the digest covers the version, then the code, then the maximum-DFe field |
| Image.Update | daf-pi/daf_virtual_rasp/imagem.py:196-217 | the verdict is 3 exactly for a candidate that is not intact or not authentic, 9 exactly when only attestation fails, 8 for a version that is not newer, and 0 only for a verified, newer candidate |
| Image.UpdateComparesVersionNumbers | daf-pi/daf_virtual_rasp/imagem.py:204-205 | for two-byte versions, a verified candidate is accepted iff its version number is strictly greater |
| Image.LoadCandidate | daf-pi/daf_virtual_rasp/imagem.py:34-57 | a non-empty raw image is split into the candidate; an empty one reuses the partition and raises iff the partition is empty |
| Daf.Fail | daf-pi/daf_virtual_rasp/daf/daf.py:875-887 | a failure reply carries its code, forgets the last message, disarms the timer and changes nothing else |
| Daf.StoredClaims | daf-pi/daf_virtual_rasp/daf/daf.py:464-481 | the six token claims are taken from a record iff it has them all (otherwise `KeyError`), with the record's values |
| Daf.AutsOf | daf-pi/daf_virtual_rasp/daf/daf.py:866-867 | the `aut` of each listed record, in order, raising iff one lacks it |
| Daf.Gate | daf-pi/daf_virtual_rasp/daf/daf.py:166-196 | only an open process begun by 1, 3, 6, 9 or 12 holds a request back, and it cancels exactly on code 14 |
| Daf.Process | daf-pi/daf_virtual_rasp/daf/daf.py:151-244 | a request without a code raises; a violated device answers every code but 9999 by becoming unusable; the retained authorisations change only through codes 4, 5, 9997 and 9999 |
| Daf.Dispatch | daf-pi/daf_virtual_rasp/daf/daf.py:198-244 | a code without a handler gets no reply and changes nothing; the retained authorisations change only through codes 4, 5, 9997 and 9999 |
| Daf.Timeout | daf-pi/daf_virtual_rasp/daf/daf.py:1001-1002 | a disarmed session timer never fires; a timeout leaves the parameters and the retained authorisations alone and the timer off |
| Daf.Register | daf-pi/daf_virtual_rasp/daf/daf.py:265-324 | a device not inactive is refused with code 1; the token is issued only for a verified payload with a nonce and opens registration; no modelled parameter changes (the new key pair is written to stored keys outside the typed view) |
| Daf.ConfirmRegistration | daf-pi/daf_virtual_rasp/daf/daf.py:326-370 | without an open process the request is malformed; success makes the device ready and registered, storing the payload mode only when it is an integer |
| Daf.RemoveRegistration | daf-pi/daf_virtual_rasp/daf/daf.py:521-562 | a device not ready is refused with code 1; the token is issued only with no retained authorisation and opens the removal |
| Daf.ConfirmRemoval | daf-pi/daf_virtual_rasp/daf/daf.py:564-599 | without an open process the request is malformed; success needs a payload `evn` equal to `REMOVER` and makes the device inactive and unregistered |
| Daf.RequestAuthentication | daf-pi/daf_virtual_rasp/daf/daf.py:372-387 | a device not ready is refused with code 1; the issued nonce is stored and opens the authorisation process; nothing in memory changes |
| Daf.Authorize | daf-pi/daf_virtual_rasp/daf/daf.py:389-481 | a device not ready is refused with code 1; a valid request with no nonce issued raises when the missing nonce is decoded, before the HMAC check; an authorisation needs an issued nonce, a valid request and a correct HMAC, closes the process and marks the nonce used; the claims are exactly the six claim keys |
| Daf.Issue | daf-pi/daf_virtual_rasp/daf/daf.py:419-462 | the counter is incremented even when the request then raises; a new authorisation adds one to `NumDFe`, carries the new counter and the computed identifier, and retains at most one more record |
| Daf.Reissue | daf-pi/daf_virtual_rasp/daf/daf.py:464-481 | a repeated authorisation changes no parameter and no record and answers the six claims of a retained record with the same `hdf` |
| Daf.Erase | daf-pi/daf_virtual_rasp/daf/daf.py:484-519 | a device neither ready nor blocked is refused with code 1; a deletion needs a uniquely retained `aut` and a correct HMAC, removes exactly its records, lowers `NumDFe` by one and makes the device ready |
| Daf.Download | daf-pi/daf_virtual_rasp/daf/daf.py:681-721 | a download changes nothing in memory and answers the six claims of a uniquely retained `aut` |
| Daf.ListAuthorisations | daf-pi/daf_virtual_rasp/daf/daf.py:838-873 | the listing changes nothing in memory and answers only for numeric bounds with `0 < ini <= fim <= NumDFe` |
| Daf.QueryInformation | daf-pi/daf_virtual_rasp/daf/daf.py:602-629 | the information query changes nothing in memory and reports the state, `NumDFe`, the counter and the smaller of the two limits |
| Daf.Fingerprint | daf-pi/daf_virtual_rasp/daf/daf.py:812-836 | a device neither ready nor blocked is refused with code 1; nothing in memory changes |
| Daf.StartUpdate | daf-pi/daf_virtual_rasp/daf/daf.py:631-646 | an update process opens only with no retained authorisation; any other answer is a failure reply |
| Daf.UpdateCertificate | daf-pi/daf_virtual_rasp/daf/daf.py:648-678 | the certificate update succeeds only when both signatures verify; then the SEF signature is the only modelled parameter that changes (the new certificate is stored outside the typed view) |
| Daf.ChangeMode | daf-pi/daf_virtual_rasp/daf/daf.py:724-760 | a device not ready is refused with code 1; the token is issued only with no retained authorisation and opens the mode change; nothing in memory changes |
| Daf.ConfirmModeAsWritten | daf-pi/daf_virtual_rasp/daf/daf.py:763-794 | as written, the handler raises only for a verified one-integer payload, after the failure bookkeeping; success stores a mode equal to 0 or 1 and nothing else |
| Daf.ConfirmMode | daf-pi/daf_virtual_rasp/daf/daf.py:763-794 | the intended confirmation never raises, beyond the token verification's exceptions that are not modelled; success stores a mode equal to 0 or 1 and nothing else |
| Daf.Cancel | daf-pi/daf_virtual_rasp/daf/daf.py:796-810 | the cancellation succeeds exactly for an inactive or ready device, closing the process and discarding the nonce; it never touches the parameters or the retained authorisations and disarms the timer |
| Daf.FactoryReset | daf-pi/daf_virtual_rasp/daf/daf.py:34-46 | the factory reset succeeds, empties the working memory and gives inactive, unviolated parameters with no authorisation, counter 0, the running image's version and a non-empty identifier kept |
| Daf.NewIdentity | daf-pi/daf_virtual_rasp/daf/daf.py:48-61 | the new-identity request resets to inactive, unviolated factory parameters carrying the fresh identifier, with the working memory empty |
| Daf.UpdateImage | daf-pi/daf_virtual_rasp/daf/daf.py:889-944 | an update never touches the retained authorisations; it succeeds only below eleven failures, unviolated and with no authorisation retained, and then clears the failure count |
| Daf.Install | daf-pi/daf_virtual_rasp/daf/daf.py:902-944 | a device with more than ten failures or violated becomes violated and unusable; any outcome leaves at most ten failures or an unusable device |
| Daf.Attempt | daf-pi/daf_virtual_rasp/daf/daf.py:903-936 | an accepted image needs no retained authorisation and an accepting verdict, and installs its signature and version with the count cleared; a refusal counts one more failure except when authorisations are retained |
| DafProperties.RequestValid | daf-pi/daf_virtual_rasp/daf/daf.py:89-149 | a request with exactly the keys its code requires is valid |
| DafProperties.DispatchAnswers | daf-pi/daf_virtual_rasp/daf/daf.py:198-244 | a request gets no reply exactly when no handler serves its code, and then nothing changes |
| DafProperties.ViolatedDeviceIsUnusable | daf-pi/daf_virtual_rasp/daf/daf.py:163-164 | on a violated device every request but 9999 makes the device unusable and changes nothing else, answering the report or raising on non-hex version text |
| DafProperties.SessionGate | daf-pi/daf_virtual_rasp/daf/daf.py:166-196 | during a process opened by 1, 3, 6 or 12, request 14 cancels, the matching confirmation is dispatched and anything else fails as malformed; a process opened by 9 accepts only 14 |
| DafProperties.AuthenticationOpensSession | daf-pi/daf_virtual_rasp/daf/daf.py:372-387 | a request for authentication issues a nonce and opens a session in which every request but 4 and 14 fails, even the factory reset |
| DafProperties.FailureLeavesStateAlone | daf-pi/daf_virtual_rasp/daf/daf.py:875-887 | a failure reply changes nothing but forgetting the last message and disarming the timer; an open process stays open |
| DafProperties.DispatchFailure | daf-pi/daf_virtual_rasp/daf/daf.py:198-244 | every handler fails only without side effects |
| DafProperties.AuthorizeFailure | daf-pi/daf_virtual_rasp/daf/daf.py:399-415 | the authorisation handler fails only without side effects |
| DafProperties.NewAuthorisation | daf-pi/daf_virtual_rasp/daf/daf.py:419-462 | in the session a request for authentication opened, or later with the nonce still kept, a new authorisation increments the counter and `NumDFe`, retains exactly the new record, blocks the device iff `NumDFe` reaches the smaller limit, spends the nonce, closes the process and answers the stored claims |
| DafProperties.AuthorisationWithoutNonce | daf-pi/daf_virtual_rasp/daf/daf.py:399-412 | a valid authorisation request to a ready device with no nonce issued (none since start-up, a reset, a new identifier or a cancellation) raises, whatever the HMAC, with only the timer disarmed |
| DafProperties.CounterOverflowRaises | daf-pi/daf_virtual_rasp/daf/daf.py:419-439 | inside or outside the authentication session, when the incremented counter no longer fits four bytes, the request raises with the counter already stored and nothing retained |
| DafProperties.RepeatedAuthorisation | daf-pi/daf_virtual_rasp/daf/daf.py:464-481 | starting in the authentication session or later with the nonce kept, authorising the same document again answers the same claims and changes nothing more |
| DafProperties.EraseRetained | daf-pi/daf_virtual_rasp/daf/daf.py:484-519 | deleting a retained authorisation removes its record, decrements `NumDFe` and readies the device; an unknown id fails as not found |
| DafProperties.ListingRange | daf-pi/daf_virtual_rasp/daf/daf.py:838-873 | the listing succeeds iff `0 < ini <= fim <= NumDFe` and then answers the identifiers at positions `ini-1` to `fim-1`; other numeric ranges fail and a non-numeric start raises |
| DafProperties.ListingOutcome | daf-pi/daf_virtual_rasp/daf/daf.py:838-873 | for a valid listing request on a ready or blocked device: the outcome by range, with the identifiers at positions `ini-1` to `fim-1` on success |
| DafProperties.ProcessKeepsInv | daf-pi/daf_virtual_rasp/daf/daf.py:151-244 | every request keeps `NumDFe` equal to the number of well-formed retained records |
| DafProperties.EraseKeepsInv | daf-pi/daf_virtual_rasp/daf/daf.py:484-519 | deletion keeps the retained-record invariant |
| DafProperties.IssueKeepsInv | daf-pi/daf_virtual_rasp/daf/daf.py:419-462 | a new authorisation keeps the retained-record invariant |
| DafSessions.AuthorisationFlow | daf-pi/daf_virtual_rasp/daf/daf.py:372-462 | request 3 issues a nonce and opens the session; request 4 then passes the gate and, with a correct HMAC for a hash not retained, retains the new record, counts it in `NumDFe` and the counter, spends the nonce, closes the session and keeps the invariant |
| DafSessions.AuthenticationStep | daf-pi/daf_virtual_rasp/daf/daf.py:372-387 | request 3 to a ready device with no open process stores the fresh nonce, opens the session with last message 3, arms the timer and answers the nonce |
| DafSessions.RegistrationFlow | daf-pi/daf_virtual_rasp/daf/daf.py:265-369 | registration opens with a nonce-only payload and completes with the two keys and the mode, making the device ready and registered |
| DafSessions.RegistrationNotRepeated | daf-pi/daf_virtual_rasp/daf/daf.py:167-172 | while registration is open, a second request 1 fails and the process stays open |
| DafSessions.TimeoutCancels | daf-pi/daf_virtual_rasp/daf/daf.py:1001-1002 | a disarmed session timer never fires; an armed one cancels an inactive or ready device's process, discards the nonce and lets every code through the gate; a blocked or unusable device refuses and keeps its process; a second timeout changes nothing |
| DafSessions.FactoryResetTwice | daf-pi/daf_virtual_rasp/daf/daf.py:34-46 | the factory reset empties the working memory, clears the violation and keeps a non-empty identifier; a second reset changes nothing |
| DafSessions.NewIdentityUsesFreshId | daf-pi/daf_virtual_rasp/daf/daf.py:48-59 | request 9997 resets to the factory parameters under the fresh identifier |
| DafSessions.ViolationUntilReset | daf-pi/daf_virtual_rasp/daf/daf.py:63-70 | request 9998 violates the device, after which every request but 9999 gets the unusable report |
| DafSessions.ConfirmModeAsWrittenRaises | daf-pi/daf_virtual_rasp/daf/daf.py:787-788 | as written, confirming mode 2 does the failure bookkeeping and then raises, leaving the process open |
| DafSessions.ConfirmModeCorrected | daf-pi/daf_virtual_rasp/daf/daf.py:763-794 | the corrected confirmation never raises, beyond the token verification's exceptions that are not modelled; it agrees with the code except for answering an unknown mode as malformed, and succeeds exactly for a single integer mode 0 or 1 |
| DafSessions.ProcessCorrectedOnlyAnswers | daf-pi/daf_virtual_rasp/daf/daf.py:787-788 | the processor with the intended confirmation leaves every state as the processor as written does, and differs only in answering failure 2 where the written one raises |
| DafServices.RemovalFlow | daf-pi/daf_virtual_rasp/daf/daf.py:521-599 | removal opens with a nonce and completes with the event `REMOVER`, making the device inactive and unregistered |
| DafServices.RemovalGuards | daf-pi/daf_virtual_rasp/daf/daf.py:530-545 | removal fails for the wrong state, for retained authorisations and for an unverified payload, in that order |
| DafServices.ModeChangeFlow | daf-pi/daf_virtual_rasp/daf/daf.py:724-794 | a mode change opens with a nonce-only payload and stores a single integer mode 0 or 1 on confirmation, changing nothing else |
| DafServices.ModeChangeUnknownMode | daf-pi/daf_virtual_rasp/daf/daf.py:724-794 | after a mode change opens, confirming a verified integer mode other than 0 or 1 raises as written and leaves the process open; the intended processor answers failure 2 |
| DafServices.InformationReport | daf-pi/daf_virtual_rasp/daf/daf.py:602-629 | the information query reports the state, the smaller limit, `NumDFe` and the counter, and records only the last message |
| DafServices.UpdateRequestOpens | daf-pi/daf_virtual_rasp/daf/daf.py:631-646 | request 9 opens an update process that only 14 can close, and fails with retained authorisations or in the wrong state |
| DafServices.CertificateUpdate | daf-pi/daf_virtual_rasp/daf/daf.py:648-678 | a certificate update succeeds iff both signatures verify and then stores only the carried signature; the first failing check names the failure |
| DafServices.DownloadRetained | daf-pi/daf_virtual_rasp/daf/daf.py:681-721 | a download answers the claims, fragment and hash of the one record with that id; an id held by no record or several fails as not found |
| DafServices.FingerprintIssued | daf-pi/daf_virtual_rasp/daf/daf.py:812-836 | the fingerprint is issued to a ready or blocked device only |
| DafUpdate.UpdateFrame | daf-pi/daf_virtual_rasp/daf/daf.py:889-944 | an update stores the candidate in the partition and leaves the running image, retained records, counters and session alone; the device ends with at most ten failures, or violated and unusable |
| DafUpdate.AttemptFrame | daf-pi/daf_virtual_rasp/daf/daf.py:902-936 | one attempt changes only the signature, the version, the failure count and the session bookkeeping |
| DafUpdate.UpdateRefused | daf-pi/daf_virtual_rasp/daf/daf.py:942-944 | more than ten failures, or a violated device, refuses every image and makes the device unusable |
| DafUpdate.UpdateWithRetained | daf-pi/daf_virtual_rasp/daf/daf.py:903-905 | while authorisations are retained, an image is refused without counting a failure |
| DafUpdate.UpdateAccepted | daf-pi/daf_virtual_rasp/daf/daf.py:927-936 | an accepted image's signature and version become the stored ones, the failure count restarts, and the stored version reads back as the image's version number |
| DafUpdate.UpdateRejected | daf-pi/daf_virtual_rasp/daf/daf.py:909-941 | a rejected image counts one more failure and reports the verdict's failure; the eleventh failure violates the device instead |
| DafUpdate.AcceptedUpdateReplays | daf-pi/daf_virtual_rasp/imagem.py:207-217 | the running image is never replaced, so an accepted image is accepted again with the same reply and state |
| DafUpdate.UpdateKeepsInv | daf-pi/daf_virtual_rasp/daf/daf.py:889-944 | every update keeps the retained-record invariant |

## Left out

- Serial I/O, the `Poller`/`Layer` event loop and real timers. Bytes are inputs, timers are flags, and timeouts are explicit events.
- The application's reply to a delivered payload. In the program it is a nested call inside the ARQ notification; here it is the next send event.
- Cryptography, JWT and base64url. Signature, digest, HMAC and JWT results are oracle inputs (`Daf.Checks`, `Image.Verifier`). The base64url module is not part of this model.
- `Daf.Checks`: the cryptographic and decoding steps are modelled as succeeding or failing, never as raising, so the exceptions they can throw in the program are dropped. A malformed or expired token, or a non-string `jwt`, propagates out of the token verification, because jwt_daf.py:96-103 catches only the signature and algorithm errors; it is read at daf.py:285, 344, 541, 582, 743 and 779. The same holds for the JWE deserialisation at daf.py:355, the certificate parsing at daf.py:665, and the base64url decoding of request fields at daf.py:407, 409, 436, 505, 508 and 672. In each of these cases the model answers a failure (code 3, 4 or 5) or succeeds where the program raises. The only decoding exception that is modelled is the one for a missing nonce at daf.py:412 (`Daf.Authorize`). Statements below that a handler "never raises" mean it raises nowhere beyond these steps.
- The stored keys and the certificate. `Daf.Params` leaves out the private and public keys, the SEF and PAF keys and the certificate, whose uses come in through `Daf.Checks`. The program writes them at daf.py:297-301 (the new key pair on registration), 358-361 (the SEF and PAF keys on confirmation) and 675 (the certificate update). On removal, daf.py:590-593 clears the private and public keys. The same lines write empty text to the SEF and PAF keys; memoria_segura.py:219-227 refuses that because those keys accept only bytes, so both keys survive a removal. The stored form of the SEF and PAF keys is modelled in `SecureMemory`.
- Key-pair generation, certificate parsing and fingerprints. The token contents other than the authorisation claims are not modelled (`Token` stands for them).
- JSON parsing of the incoming request text. A request is a decoded map whose values are integers, booleans, text or null. Arrays, nested objects and unparsable text are not modelled.
- JSON numbers with a fraction part. `Json.JValue` has no floating-point case, so three behaviours are not modelled. `{"msg": 1.0}` dispatches as request 1 in Python, because `1.0 == 1`. A mode payload `{"mop": 1.0}` is refused by the integer check at daf.py:783. A fractional `ini` or `fim` is compared and used in the listing.
- The text format of the unusable-mode report and of the information reply beyond the fields listed.
- `bytes.fromhex` whitespace handling and `int(s, 16)` prefixes, signs and underscores. Only plain digit strings are modelled; anything else is the error case.
- Read failures in the DAF's typed view of the secure memory (a missing key, a wrong stored type), except for the non-hexadecimal version text. The DAF module assumes the document it wrote.
- The JSON-encoding failure of non-scalar values other than the one in the finding below.
- `arq.py` routing of the ARQ layer's notification to the DAF: `Link` stops at the payload delivered upward.
- The running image is never replaced, because the write-back in `atualizar` is commented out in the source. The model keeps `current` read-only.
- `Framing.LengthField`: does not model non-integer payloads (`type(dados) is int`), which the ARQ layer never sends.
- `DafProperties.NewAuthorisation`: requires the version text to be hexadecimal and the counter to fit four bytes. The raising cases are stated separately in `DafProperties.CounterOverflowRaises` and `Daf.Issue`.

## Findings

| source | as written | input that shows it | evidently intended | confidence | as-written member | corrected member |
|---|---|---|---|---|---|---|
| daf-pi/daf_virtual_rasp/daf/daf.py:788 | the failure reply for an unknown mode is built from the enumeration member `Respostas.pedidoMalFormado` instead of its `.value`, so `json.dumps` raises after the failure bookkeeping and the process stays open | request 13 during an open mode change, with a verified payload `{"mop": 2}` | a malformed-request failure reply (code 2), as every other guard of the handler answers | not executed | DafServices.ModeChangeUnknownMode | DafSessions.ConfirmModeCorrected |
