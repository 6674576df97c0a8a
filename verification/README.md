# Verified model of lumen-airplay

This project models the byte-level protocol engines of the `lumen-airplay` sender and receiver and the
stream assembly around them, and proves what they are for. Sender and receiver live in one
repository, so most results are about both ends at once: what one side writes, the other side reads.

| file | what it models |
|---|---|
| `Bytes.dfy`, `Bits.dfy`, `BigNat.dfy`, `Crypto.dfy` | bytes, bit strings, big-endian naturals with modular powers, and the cryptographic library as functions with their functional laws |
| `Gf256.dfy`, `FairPlayMessage.dfy`, `FairPlayTables.dfy` | the field GF(2^8), the FairPlay message cipher (block transform, chain, both directions) and its shipped inverse S-box |
| `AesReference.dfy`, `AesExample.dfy` | the cipher of FIPS 197 written cell by cell, its equality with the block transform, and the worked example of its appendix C.1 |
| `Fpsap.dfy` | the four-record FairPlay SAP handshake on both sides, and the wrapped stream key |
| `Tlv8.dfy`, `Srp.dfy`, `ReceiverPairing.dfy`, `PairingSession.dfy`, `PairingRun.dfy` | TLV8, SRP-6a, the receiver's pairing machine, the sender's pairing session, and the two run against each other |
| `ReceiverSession.dfy`, `ConnectionRun.dfy` | one control connection of the receiver: which requests it serves when, and when its stream becomes encrypted; the sender's whole session over it |
| `HapFraming.dfy`, `HeaderText.dfy`, `Rtsp.dfy` | HAP frames with counters and residual buffers; RTSP messages printed and parsed over them |
| `AnnexB.dfy`, `NalStream.dfy`, `LiveStream.dfy`, `Sps.dfy` | the incremental H.264 parser, the batch splitter, emulation prevention, live streams with idle flushes, Exp-Golomb codes and the SPS parser |
| `MirrorCipher.dfy` | the counter-mode video cipher with its carry between frames |
| `Streamer.dfy` | assembly of access units into frames, codec frames and frame times |
| `Alac.dfy`, `AudioRing.dfy` | the bit writer and the ALAC frame; RTP packets, the repeat ring and the modular clock |

Conventions. Most modules work on `byte`, an integer below 256; `Gf256`, `FairPlayMessage`, `Fpsap` and
`MirrorCipher`, where the code computes with single bits, work on `bv8`. Code that changes fields,
buffers or arrays step by step is a class or a method with loops, tied by its `ensures` to a function
on values; the lemmas then speak about those functions. Cryptographic primitives are function values
in `Crypto.Suite` and `Fpsap.WhiteBox`; nothing is assumed of them but sizes, `open(seal(x)) = x`,
`verify(sign(x))`, commuting key agreement, and AES being invertible (`Crypto.LawsAreConsistent` and
`PairingRun.SomeFullSizeRunCompletes` show that the laws and the premises of an honest run can be
met). Random draws, clock readings and the success of sends are inputs.

Places where the code does less than it might seem, stated as exact conditions with a failing input
for each:

* An honest pairing run completes exactly when neither public value is degenerate, the server proof over
  the padded A equals the one over the unpadded A, and no older transient registration of the sender's
  name, which the receiver looks up first, refuses the sender's signature (`PairingRun.PairingCompletes`,
  `PairingRun.NotShadowed`). A full 384-byte A is enough for the second; with a shorter one it means that
  two different texts have one hash (`PairingRun.ShortPublicNeedsCollision`).
  `PairingRun.SomeShortRunFails` and `PairingRun.SomeShadowedRunFails` are runs that stop there.
* `flush` gives the batch splitter's result and an empty buffer exactly when the stream's last byte is
  not zero and the stream does not end in a three-byte start code preceded by a nonzero byte
  (`AnnexB.FlushMatchesBatch`, `AnnexB.DirtyEndsFail`).
* Idle flushes in mid-stream leave a stream of valid units whole exactly when each comes between two
  units (`LiveStream.LiveRoundTrip`, `LiveStream.SplitUnit`, `Streamer.SplitUnitIsTruncated`).
* `sps_dimensions` returns the standard's cropped size exactly when its fixed 4:2:0 crop units apply or
  the crop in that direction is zero (`Sps.DimensionsAreExact`, `Sps.Crop444Fails`).
* The streamer ignores most send errors. Slices stay complete and in order exactly when no attempted
  frame send failed (`Streamer.NothingLost`), and frames stay uniform and rightly flagged exactly when no
  ordinary slice arrives while a key frame is pending that does not go out (`Streamer.UniformExactly`);
  `Streamer.LostKeyFrame` and `Streamer.MixedFrame` are runs that fail.
* Length-prefixed units come back from `push` exactly when no push finds a start code in the buffer
  (`NalStream.AvccPushed`); the length of a unit of 256 to 511 bytes already looks like one
  (`NalStream.MiddleLengthsFail`).
* A request's body is read whole exactly when it has at most 8 MiB (`Rtsp.RequestRoundTrip`,
  `Rtsp.RequestTaken`).
* The streamer panics exactly when it builds a codec frame from a parameter set shorter than four bytes
  (`Streamer.Panics`), which is what its methods exclude; such a set is stored without failing.

Where the code and its comments differ, the model follows the code: `pair_verify` returns keys whenever
the machine is verified after a state-3 message, even beside an error reply, not only on the final
exchange (lumen-airplay/src/receiver/pairing.rs:336-354); and `flush` takes its sentinel out of the
buffer only when nothing else is left there (lumen-airplay/src/h264.rs:28-44).

## Model

| member | source | states |
|---|---|---|
| `Gf256.ProductIsPolynomialRemainder` | lumen-airplay/src/fairplay_message.rs:163-177 | the product is the remainder of the polynomial product modulo x^8+x^4+x^3+x+1 (section 4.2 of FIPS 197), for all bytes |
| `Gf256.GfMul` | lumen-airplay/src/fairplay_message.rs:163-177 | the shift-and-add loop computes that product |
| `Gf256.ProductCommutes` | lumen-airplay/src/fairplay_message.rs:163-177 | multiplication commutes |
| `Gf256.ProductAssociates` | lumen-airplay/src/fairplay_message.rs:163-177 | multiplication associates |
| `Gf256.ProductDistributes` | lumen-airplay/src/fairplay_message.rs:163-177 | multiplication distributes over xor |
| `Gf256.MixColumnInverse` | lumen-airplay/src/fairplay_message.rs:131-161 | each column mix undoes the other, for every column |
| `FairPlayMessage.ForwardSbox` | lumen-airplay/src/fairplay_message.rs:17-23 | from any table of 256 distinct bytes the loop builds the two-sided inverse table |
| `FairPlayMessage.HasPreimage` | lumen-airplay/src/fairplay_message.rs:17-23 | a table of 256 distinct bytes takes every value |
| `FairPlayTables.ShippedTablesAreValid` | lumen-airplay/src/fp_tables_generated.rs:19-41 | the shipped inverse S-box has 256 distinct entries, as every result about the cipher requires |
| `FairPlayMessage.XorRoundKey` | lumen-airplay/src/fairplay_message.rs:107-111 | in place, every byte is xored with its key byte |
| `FairPlayMessage.SourcesAreShifts` | lumen-airplay/src/fairplay_message.rs:113-129 | row r moves by r columns, left or right |
| `FairPlayMessage.ShiftRowsInPlace` | lumen-airplay/src/fairplay_message.rs:122-129 | the array becomes its left row shift |
| `FairPlayMessage.InvShiftRowsInPlace` | lumen-airplay/src/fairplay_message.rs:113-120 | the array becomes its right row shift |
| `FairPlayMessage.ShiftRowsInverse` | lumen-airplay/src/fairplay_message.rs:113-129 | the two row shifts undo each other |
| `FairPlayMessage.MixColumnsInPlace` | lumen-airplay/src/fairplay_message.rs:147-161 | every column of the array is mixed |
| `FairPlayMessage.InvMixColumnsInPlace` | lumen-airplay/src/fairplay_message.rs:131-145 | every column of the array is unmixed |
| `FairPlayMessage.EncryptBlockInPlace` | lumen-airplay/src/fairplay_message.rs:90-105 | the eleven-key encryption of one block, in place |
| `FairPlayMessage.DecryptBlockInPlace` | lumen-airplay/src/fairplay_message.rs:51-69 | the separately written decryption of one block, in place |
| `FairPlayMessage.RoundsInverse` | lumen-airplay/src/fairplay_message.rs:57-65 | any number of middle rounds and their reversal undo each other, both ways |
| `FairPlayMessage.BlockInverse` | lumen-airplay/src/fairplay_message.rs:51-105 | block decryption and encryption undo each other, both ways, for every mode, key table and block |
| `AesReference.EncryptIsCipher` | lumen-airplay/src/fairplay_message.rs:90-105 | block encryption is the cipher of section 5.1 of FIPS 197, written there cell by cell over rows and columns, under the first key, the nine middle keys in order and the last key |
| `AesReference.DecryptIsInverse` | lumen-airplay/src/fairplay_message.rs:51-69 | block decryption is that cipher's inverse, both ways |
| `AesReference.LastKeyDifference` | lumen-airplay/src/fairplay_message.rs:90-105 | flipping bits of the last round key flips just those bits of the ciphertext |
| `AesReference.FirstKeyDifference` | lumen-airplay/src/fairplay_message.rs:90-105 | flipping the same bits of the first round key and the plaintext changes nothing |
| `AesExample.KnownAnswer` | lumen-airplay/src/fairplay_message.rs:51-105 | with the shipped S-box and the expanded key of appendix C.1 of FIPS 197 the block transform gives the ciphertext there, and back |
| `FairPlayMessage.EncryptMessage` | lumen-airplay/src/fairplay_message.rs:71-88 | fails exactly for unknown modes; otherwise writes the chained ciphertext |
| `FairPlayMessage.DecryptMessage` | lumen-airplay/src/fairplay_message.rs:27-49 | writes the chained plaintext, the backward walk of mode 3 included |
| `FairPlayMessage.CipherBlock` | lumen-airplay/src/fairplay_message.rs:76-86 | each ciphertext block encrypts its plaintext block xored with the ciphertext before it |
| `AesReference.MessageIsChained` | lumen-airplay/src/fairplay_message.rs:71-88 | every ciphertext block is that cipher of the plaintext block added to the ciphertext before it, or to the mode's constant |
| `FairPlayMessage.DecryptAfterEncrypt` | lumen-airplay/src/fairplay_message.rs:27-88 | decryption undoes encryption for every mode and every 128-byte value |
| `FairPlayMessage.EncryptAfterDecrypt` | lumen-airplay/src/fairplay_message.rs:27-88 | encryption undoes decryption for every mode and every 128-byte value |
| `Fpsap.NewSession` | lumen-airplay/src/fpsap.rs:47-61 | a session exists exactly when there are 126 bytes of entropy, and its SAP is 00 01 followed by them |
| `Fpsap.BuiltRecordIsValid` | lumen-airplay/src/fpsap.rs:284-318 | a built record passes the header checks and keeps its payload |
| `Fpsap.AcceptedM1Is` | lumen-airplay/src/receiver/fairplay.rs:46-71 | one 16-byte request alone is taken for M1 |
| `Fpsap.AcceptedM2Is` | lumen-airplay/src/fpsap.rs:71-80 | the bytes that make a record an M2 |
| `Fpsap.AcceptedM3Is` | lumen-airplay/src/receiver/fairplay.rs:73-97 | an M3 is taken exactly with its 16 fixed bytes and, as its last 20, the white box's answer for the sender's SAP decrypted from its body and the receiver's SAP |
| `Fpsap.ConfirmsIs` | lumen-airplay/src/fpsap.rs:101-106 | an M4 confirms exactly when it is its header and the confirmation that was sent |
| `Fpsap.WrongConfirmationRefused` | lumen-airplay/src/receiver/fairplay.rs:73-97 | the sender's own M3 with any other confirmation is refused and changes nothing, and so is its M4 |
| `Fpsap.FpsapSession.Message1` | lumen-airplay/src/fpsap.rs:64-68 | the first record |
| `Fpsap.FpsapSession.ExchangeM3` | lumen-airplay/src/fpsap.rs:71-98 | the new session state and the reply are the specified step; a refused M2 changes nothing |
| `Fpsap.FpsapSession.ConfirmM4` | lumen-airplay/src/fpsap.rs:101-106 | accepted exactly when an M3 was sent and the M4 repeats its confirmation |
| `Fpsap.FpsapSession.WrapStreamKey` | lumen-airplay/src/fpsap.rs:110-115 | the 72-byte record from the remote SAP and the sent M3, or an error before M3 |
| `Fpsap.FpsapSession.FillEkey` | lumen-airplay/src/fpsap.rs:339-385 | filling the record piece by piece gives header, mask, length, MAC and wrapped key |
| `Fpsap.EkeyRoundTrip` | lumen-airplay/src/fairplay.rs:155-166 | the receiver's operation on the record returns the raw key, for every key and mask |
| `Fpsap.EkeyIs` | lumen-airplay/src/fpsap.rs:339-385 | the record's 72 bytes: header, mask, length, MAC and wrapped key |
| `Fpsap.ReceiverFpsap.Exchange` | lumen-airplay/src/receiver/fairplay.rs:46-97 | the new receiver state and the reply are the specified step, for every request |
| `Fpsap.ReceiverPhases` | lumen-airplay/src/receiver/fairplay.rs:46-97 | between any two moments of any run the phase has moved by the number of accepted requests, at most two in all; where it has not moved nothing has changed; SAP and mode never change |
| `Fpsap.CompleteRunHasChain` | lumen-airplay/src/receiver/fairplay.rs:46-97 | a run that completes received the M1 and later an M3 of the receiver's mode whose last 20 bytes are the white box's answer for the two SAPs, both written out byte by byte |
| `Fpsap.SenderAcceptsM2` | lumen-airplay/src/fpsap.rs:71-98 | the sender recovers the receiver's SAP from the receiver's M2 |
| `Fpsap.ReceiverAcceptsM3` | lumen-airplay/src/receiver/fairplay.rs:73-97 | the receiver accepts the sender's M3 and recovers the sender's SAP |
| `Fpsap.HonestRun` | lumen-airplay/src/fpsap.rs:45-116 | all four messages of an honest run are accepted, each side holds the other's SAP, and the wrapped key opens |
| `Tlv8.Encode` | lumen-airplay/src/tlv8.rs:36-56 | the loops write the records of all items in order |
| `Tlv8.DecodeFields` | lumen-airplay/src/tlv8.rs:59-74 | the loop collects the fields of any byte string |
| `Tlv8.DecodeOfEncode` | lumen-airplay/src/tlv8.rs:36-74 | decoding an encoded list maps each tag to the concatenation of its values, and no other tags |
| `Tlv8.TruncationGivesPrefixes` | lumen-airplay/src/tlv8.rs:59-74 | decoding a truncation of any byte string yields per-tag prefixes |
| `Tlv8.RecordsAre` | lumen-airplay/src/tlv8.rs:36-56 | the bytes of a record, and the split after 255 |
| `Tlv8.EncodedLength` | lumen-airplay/src/tlv8.rs:36-56 | two bytes more for each 255 bytes begun |
| `Srp.DifferenceIsServerPower` | lumen-airplay/src/pairing.rs:180-189 | the client's difference, with its conditional subtraction, is the server's own power of g |
| `Srp.SecretsAgree` | lumen-airplay/src/pairing.rs:180-189 | client and server compute the same secret for every salt, PIN and pair of exponents (section 2.6 of RFC 5054) |
| `ReceiverPairing.Receiver.PairSetup` | lumen-airplay/src/receiver/pairing.rs:112-131 | the new state and the reply are the specified step for every body |
| `ReceiverPairing.Receiver.BeginSrpSetup` | lumen-airplay/src/receiver/pairing.rs:134-189 | M1: accepted methods and flags, the reset, and the server's public value |
| `ReceiverPairing.Receiver.VerifySrpProof` | lumen-airplay/src/receiver/pairing.rs:191-240 | M3: the shared key and the server proof over the padded A, or the dropped setup |
| `ReceiverPairing.Receiver.FinishSrpSetup` | lumen-airplay/src/receiver/pairing.rs:242-335 | M5: which identity is registered, and M6 |
| `ReceiverPairing.Receiver.PairVerify` | lumen-airplay/src/receiver/pairing.rs:339-358 | the new state, the reply and the keys are the specified step; keys come back whenever the machine is verified |
| `ReceiverPairing.Receiver.BeginHapVerify` | lumen-airplay/src/receiver/pairing.rs:360-395 | V1 and V2 |
| `ReceiverPairing.Receiver.FinishHapVerify` | lumen-airplay/src/receiver/pairing.rs:397-482 | V3: the transient registration first, the signature check, the session keys |
| `ReceiverPairing.SetupKeepsConsistent` | lumen-airplay/src/receiver/pairing.rs:112-337 | pair-setup keeps: verified means no pending exchange and encrypted keys, and no keys otherwise |
| `ReceiverPairing.VerifyKeepsConsistent` | lumen-airplay/src/receiver/pairing.rs:339-482 | pair-verify keeps the same |
| `ReceiverPairing.OnlyV3Verifies` | lumen-airplay/src/receiver/pairing.rs:112-482 | no pair-setup message verifies; a pair-verify message does exactly when it is an accepted V3 |
| `ReceiverPairing.M3Exactly` | lumen-airplay/src/receiver/pairing.rs:191-240 | a pending setup keeps a key and answers with the server's proof exactly when M3 carries the proof H((H(N) xor H(g)), H(I), salt, A, B, K), written out with u, S and K; otherwise the setup is gone and the reply is 06 01 04 07 01 02 |
| `ReceiverPairing.SharedKeyNeedsProof` | lumen-airplay/src/receiver/pairing.rs:112-240 | no pair-setup request leaves a shared key where there was none unless it carries that proof |
| `ReceiverPairing.NewSetupProves` | lumen-airplay/src/receiver/pairing.rs:134-189 | for the setup of an M1 that proof is one of the PIN: x, v, k and B written out |
| `ReceiverPairing.AcceptM5Is` | lumen-airplay/src/receiver/pairing.rs:242-335 | M5 registers an identity exactly when it opens under the key of the secret and carries the registered key's signature of the named text |
| `ReceiverPairing.AcceptV3Is` | lumen-airplay/src/receiver/pairing.rs:397-482 | V3 is taken exactly when it opens under the key of the exchange and carries the registered key's signature of A, identifier and B |
| `PairingSession.Session.PairWithPin` | lumen-airplay/src/pairing.rs:364-369 | the session object and the receiver object end as the specified run says, in success and failure |
| `PairingSession.Session.PairSetup` | lumen-airplay/src/pairing.rs:481-506 | M1 to M6 from the sender's side |
| `PairingSession.Session.AnswerChallenge` | lumen-airplay/src/pairing.rs:509-563 | the SRP computation on a challenge; fails exactly for B = 0 and B >= N |
| `PairingSession.Session.CompleteSrpExchange` | lumen-airplay/src/pairing.rs:509-615 | M3 to M6, the optional server proof check included |
| `PairingSession.Session.PairVerify` | lumen-airplay/src/pairing.rs:617-712 | V1 to V4 and the channel keys |
| `PairingRun.ClientResponds` | lumen-airplay/src/pairing.rs:509-563 | in an honest run the client's key and proof are the ones the receiver computes |
| `PairingRun.AnswerM3` | lumen-airplay/src/receiver/pairing.rs:191-240 | the receiver takes the honest M3, its 384-byte key split and rejoined by TLV8, unless the values are degenerate |
| `PairingRun.AnyPinM3` | lumen-airplay/src/receiver/pairing.rs:191-240 | for a sender with any PIN the receiver keeps a key exactly when u is not zero and the sender's proof is the one over the receiver's own key; otherwise the exchange is gone |
| `PairingRun.WrongPinStops` | lumen-airplay/src/pairing.rs:481-506 | with a proof that does not fit nothing is registered and no keys come of the run |
| `PairingRun.SomeWrongPinFails` | lumen-airplay/src/pairing.rs:481-506 | one sender and one receiver whose run completes with the receiver's PIN and stops with another |
| `PairingRun.RespondsExactly` | lumen-airplay/src/pairing.rs:509-530 | the sender answers exactly the challenges with 0 < B < N |
| `PairingRun.V2TakenExactly` | lumen-airplay/src/pairing.rs:617-680 | the sender goes on from V2 exactly when it is no error, has a public value, and its sealed part, if any, opens |
| `PairingRun.V2Proves` | lumen-airplay/src/receiver/pairing.rs:360-395 | V2 carries the accessory's signature of both public values and its name, under the exchange's key |
| `PairingRun.M6Proves` | lumen-airplay/src/receiver/pairing.rs:300-335 | M6 carries the accessory's name, key and signature, under the key of the secret |
| `PairingRun.PairingCompletes` | lumen-airplay/src/pairing.rs:364-369 | from every receiver state an honest run finishes exactly when no value is degenerate, the proofs match and no older transient registration shadows the sender, and then leaves the receiver verified and the keys crossed |
| `PairingRun.FullSizePublicCompletes` | lumen-airplay/src/receiver/pairing.rs:231-240 | with a 384-byte A every honest run that is neither degenerate nor shadowed completes |
| `PairingRun.ShortPublicNeedsCollision` | lumen-airplay/src/receiver/pairing.rs:231-240 | with a shorter A a run completes exactly when it is neither degenerate nor shadowed and the hash of padded A, proof and key equals the hash of natural A, proof and key, two different texts |
| `PairingRun.SomeFullSizeRunCompletes` | lumen-airplay/src/pairing.rs:364-369 | an honest run with a 384-byte A, every premise met, that completes |
| `PairingRun.SomeShadowedRunFails` | lumen-airplay/src/receiver/pairing.rs:397-482 | a full-size run in order otherwise that does not complete, because another transient key of the sender's name comes first |
| `PairingRun.SomeShortRunFails` | lumen-airplay/src/receiver/pairing.rs:231-240 | an honest run of good values and a one-byte A that does not complete |
| `ReceiverSession.ControlConnection.Handle` | lumen-airplay/src/receiver/mod.rs:690-854 | the session's new state, the status and the keys are the specified dispatch of any request |
| `ReceiverSession.ControlConnection.ServeControl` | lumen-airplay/src/receiver/mod.rs:595-632 | serving any run of requests gives the run's statuses, the stream each reply goes out on, and the final session and stream |
| `ReceiverSession.PairingCases` | lumen-airplay/src/receiver/pairing.rs:112-493 | what each kind of accepted or refused message does to the pairing state |
| `ReceiverSession.PathIs` | lumen-airplay/src/receiver/mod.rs:386-393 | the path of an absolute URI is what follows the host; any other URI is its own path |
| `ReceiverSession.AlwaysConsistent` | lumen-airplay/src/receiver/mod.rs:690-749 | in every run, verified means no pending exchange and encrypted keys |
| `ReceiverSession.KeyHasChain` | lumen-airplay/src/receiver/pairing.rs:134-337 | in every run, a registered key comes from an M1, an M3 with the proof of the configured PIN written out, and an M5 of the same exchange that opens under the proved key and carries the registered key's signature |
| `ReceiverSession.VerifiedHasV3` | lumen-airplay/src/receiver/pairing.rs:397-482 | in every run, verified means a V3 with the registered key's signature of both public values of a V1's exchange, with no reset since |
| `ReceiverSession.VerifiedHasHistory` | lumen-airplay/src/receiver/mod.rs:690-749 | and the key that V3 proves was registered by such a chain before |
| `ReceiverSession.VerifiedExactly` | lumen-airplay/src/receiver/mod.rs:690-727 | a connection is verified exactly when a V3 was taken and nothing reset it since |
| `ReceiverSession.FairplayHasHistory` | lumen-airplay/src/receiver/mod.rs:729-749 | in every run, the handshake's phase says which records were accepted, in order, each on the verified connection and written out byte by byte |
| `ReceiverSession.FairplayAnswers` | lumen-airplay/src/receiver/mod.rs:729-749 | for any session: the handshake moves, and the receiver's next record is the reply, exactly by a FairPlay request on a verified connection carrying the record whose turn it is |
| `ReceiverSession.CompleteExactly` | lumen-airplay/src/receiver/mod.rs:729-749 | the handshake is complete exactly when an M1 and later a right M3 arrived on the verified connection |
| `ReceiverSession.ServedHasHistory` | lumen-airplay/src/receiver/mod.rs:695-705 | a 200 to SETUP, RECORD or any session request implies that whole history; SETUP also the two FairPlay records when enabled |
| `ReceiverSession.ServedExactly` | lumen-airplay/src/receiver/mod.rs:690-854 | in every run, RECORD, SET_PARAMETER, TEARDOWN and /feedback are answered 200 exactly when a V3 was taken and nothing reset it since; SETUP exactly when also the FairPlay handshake was completed, if enabled, and media can be had or was had before |
| `ReceiverSession.MediaExactly` | lumen-airplay/src/receiver/mod.rs:751-785 | media endpoints are there exactly when a SETUP was served before |
| `ReceiverSession.SwitchesOnce` | lumen-airplay/src/receiver/mod.rs:551-560 | an encrypted stream keeps its first keys for the rest of the run |
| `ReceiverSession.VerifiedIsEncrypted` | lumen-airplay/src/receiver/mod.rs:611-620 | a verified connection always has an encrypted stream |
| `ReceiverSession.EncryptedExactlyAfterV3` | lumen-airplay/src/receiver/mod.rs:611-620 | the stream is encrypted exactly when some V3 was accepted |
| `ConnectionRun.FirstRequest` | lumen-airplay/src/pairing.rs:481-506 | the first request of a pairing is 00 01 00 06 01 01 |
| `ConnectionRun.PairOverConnection` | lumen-airplay/src/receiver/mod.rs:716-727 | on any connection, whatever came before, the pairing's messages posted as requests and their 200 replies are just those between the two machines |
| `ConnectionRun.HonestPairing` | lumen-airplay/src/receiver/mod.rs:595-632 | an honest pairing over a connection completes under its exact conditions, and the connection is then verified and its stream encrypted under the sender's keys, crossed and written out |
| `ConnectionRun.HonestHandshake` | lumen-airplay/src/receiver/mod.rs:729-749 | on a verified connection the honest FairPlay handshake gets its records as 200 replies and completes, each side holding the other's SAP |
| `ConnectionRun.SessionServed` | lumen-airplay/src/receiver/mod.rs:751-854 | on an open connection every request of any session is answered 200 and the stream stays as it is |
| `ConnectionRun.HonestSession` | lumen-airplay/src/receiver/mod.rs:595-854 | from a new connection: pairing, handshake and every request of any session, all answered 200, the stream encrypted under the sender's keys from the pairing on |
| `HapFraming.NoncesAreDistinct` | lumen-airplay/src/receiver/pairing.rs:521-525 | different 64-bit counters give different nonces |
| `HapFraming.ChunksCut` | lumen-airplay/src/client.rs:299-307 | the chunks are the plaintext in pieces of 1 to 1024 bytes, as few as possible |
| `HapFraming.FrameIs` | lumen-airplay/src/client.rs:308-318 | a frame is the chunk's length in two bytes, low byte first, and the chunk sealed with them as associated data under the nonce of four zeros and the counter, low byte first |
| `HapFraming.OpenFrameIs` | lumen-airplay/src/receiver/pairing.rs:529-559 | off any wire a reader takes exactly such a frame of 1 to 1024 bytes that opens |
| `HapFraming.OpenUndoesFrame` | lumen-airplay/src/client.rs:395-424 | opening a frame gives its chunk and leaves what follows it |
| `HapFraming.ClientChannel.HapEncrypt` | lumen-airplay/src/client.rs:296-320 | the frames of the plaintext's chunks, and the counter's advance |
| `HapFraming.HapStream.Write` | lumen-airplay/src/receiver/pairing.rs:563-586 | the same frames on the connection, and the counter's advance |
| `HapFraming.EventChannel.Write` | lumen-airplay/src/event_channel.rs:117-156 | the same frames on the connection, and the counter's advance |
| `HapFraming.ClientChannel.ReadEncryptedFrame` | lumen-airplay/src/client.rs:395-424 | one frame opened, or an error exactly when there is none |
| `HapFraming.HapStream.Read` | lumen-airplay/src/receiver/pairing.rs:529-559 | fills the caller's buffer from the residual plaintext or one new frame |
| `HapFraming.EventChannel.Read` | lumen-airplay/src/event_channel.rs:72-114 | the same from the event channel |
| `HapFraming.OpenEventChannel` | lumen-airplay/src/event_channel.rs:47-67 | refused exactly without a shared secret; read and write keys reversed |
| `HapFraming.ReadKeepsStep` | lumen-airplay/src/receiver/pairing.rs:529-559 | a nonzero read delivers at least one byte unless everything written was delivered |
| `HapFraming.RunStaysInStep` | lumen-airplay/src/receiver/pairing.rs:528-586 | over every sequence of writes and reads, what was delivered is a prefix of what was written and the rest is exactly buffered or on the wire |
| `HapFraming.HapStream.ReadExact` | lumen-airplay/src/receiver/pairing.rs:529-559 | reading until n bytes are there gives the specified bytes or failure, and the specified state |
| `HapFraming.ReadAllTakes` | lumen-airplay/src/receiver/pairing.rs:529-559 | on any reader and any wire, tampered or cut short, such a read takes the next n bytes of the stream of plaintexts and failures |
| `HapFraming.ReadAllTwice` | lumen-airplay/src/receiver/pairing.rs:529-559 | two such reads are one longer read, state included |
| `HapFraming.ReadExactAdvances` | lumen-airplay/src/receiver/pairing.rs:529-559 | the state after any read is that of reading just the bytes gone from the stream, unless a failure is among them |
| `HapFraming.SymbolsInStep` | lumen-airplay/src/receiver/pairing.rs:529-559 | a connection in step is a stream of exactly the bytes written and not delivered |
| `HapFraming.ReadAllKeepsStep` | lumen-airplay/src/receiver/pairing.rs:529-559 | reading n bytes delivers exactly the next n whenever that many are undelivered, and stays in step; otherwise it fails |
| `HapFraming.FullyRead` | lumen-airplay/src/receiver/pairing.rs:529-559 | when everything written was delivered, buffer and wire are empty and the counters agree |
| `HapFraming.HistoryIsRight` | lumen-airplay/src/receiver/pairing.rs:563-586 | the bytes written, and the writer's counter as the number of frames, over every run |
| `HapFraming.SentFramesAreNumbered` | lumen-airplay/src/client.rs:296-320 | over every run frame i is sealed under counter i |
| `Rtsp.BuildRequest` | lumen-airplay/src/client.rs:265-279 | the request's text, field by field |
| `Rtsp.CtrlStream.EnableHap` | lumen-airplay/src/receiver/mod.rs:551-560 | the first call alone switches the stream; what follows is read as frames from counter 0 |
| `Rtsp.CtrlStream.ReadExact` | lumen-airplay/src/receiver/mod.rs:563-570 | on the plain and on the framed stream, the next n bytes or a failure, and what is left |
| `Rtsp.ReadLine` | lumen-airplay/src/receiver/mod.rs:363-384 | one line off the control stream, plain or framed, its limits and failed reads included |
| `Rtsp.ReadRequest` | lumen-airplay/src/receiver/mod.rs:323-361 | the request at the front of the control stream, what it leaves there, and where the frame reader stands |
| `Rtsp.RequestRoundTrip` | lumen-airplay/src/receiver/mod.rs:323-361 | the receiver parses back exactly what the client printed and leaves what follows, exactly when the body has at most 8 MiB |
| `Rtsp.RequestTaken` | lumen-airplay/src/receiver/mod.rs:348-359 | a longer body is read to 8 MiB and the rest stays on the stream |
| `Rtsp.LineTakenExactly` | lumen-airplay/src/receiver/mod.rs:363-384 | a line is read exactly when it and its return have at most 32 KiB |
| `Rtsp.RequestText` | lumen-airplay/src/client.rs:265-279 | the request character by character |
| `Rtsp.ResponseText` | lumen-airplay/src/receiver/mod.rs:856-874 | the response's header character by character |
| `Rtsp.WriteResponse` | lumen-airplay/src/receiver/mod.rs:856-874 | header and body go out in two writes, in separate frames once the stream is framed |
| `Rtsp.ParseHeader` | lumen-airplay/src/transport.rs:167-196 | status, length and fields of any header block |
| `Rtsp.ReadEncryptedResponse` | lumen-airplay/src/client.rs:365-393 | the response collected frame by frame from any wire, limits included |
| `Rtsp.HeadEnds` | lumen-airplay/src/client.rs:368-376 | the header's end is seen exactly when the whole header is there |
| `Rtsp.HeadRoundTrip` | lumen-airplay/src/transport.rs:167-196 | the client parses back the status, every field and the body's length |
| `Rtsp.ResponseRoundTrip` | lumen-airplay/src/client.rs:365-393 | the client parses back exactly what the receiver wrote and stops on a frame boundary, nothing dropped |
| `Rtsp.RequestArrives` | lumen-airplay/src/client.rs:257-291 | a request written in frames is parsed back by the receiver off its frame reader, which ends with empty buffer and wire and the writer's counter |
| `Rtsp.RunStaysInSync` | lumen-airplay/src/client.rs:257-291 | over every run of requests and responses, both directions in frames under their own keys, both sides parse back what the other printed, the receiver is delivered exactly the requests' bytes, and buffers and wires are empty with equal counters |
| `AnnexB.FindStartCode` | lumen-airplay/src/h264.rs:97-111 | the first start code from a position on, or none |
| `AnnexB.FindStartCodeWithLength` | lumen-encode/src/openh264.rs:168-180 | the same position, with the code's length |
| `AnnexB.H264Parser.Push` | lumen-airplay/src/h264.rs:19-26 | units and buffer after one push, whichever format is detected |
| `AnnexB.H264Parser.PushAnnexB` | lumen-airplay/src/h264.rs:46-66 | every closed unit, and what stays buffered |
| `AnnexB.H264Parser.PushAvcc` | lumen-airplay/src/h264.rs:68-91 | every complete length-prefixed unit, and what stays buffered |
| `AnnexB.H264Parser.Flush` | lumen-airplay/src/h264.rs:33-44 | units and buffer after a flush |
| `AnnexB.AnnexbNals` | lumen-encode/src/openh264.rs:183-198 | all the units of a complete stream |
| `AnnexB.ExtractAppend` | lumen-airplay/src/h264.rs:46-66 | extracting from a longer buffer is extracting twice |
| `AnnexB.ChunkingIsInvisible` | lumen-airplay/src/h264.rs:19-66 | however a stream that begins with a start code is cut, the pushes emit the same units and keep the same bytes |
| `AnnexB.PushesConserve` | lumen-airplay/src/h264.rs:19-66 | emitted bytes plus buffered bytes are the bytes pushed so far |
| `AnnexB.FlushMatchesBatch` | lumen-airplay/src/h264.rs:33-44 | pushes and a flush give the batch splitter's units and an empty buffer exactly when the stream ends cleanly |
| `AnnexB.DirtyEndsFail` | lumen-airplay/src/h264.rs:33-44 | two streams that do not: a trailing zero is cut off and stays in the buffer with the sentinel; a final three-byte start code becomes a unit |
| `NalStream.StripEmulationPrevention` | lumen-airplay/src/h264.rs:269-288 | the loop removes exactly the escapes |
| `NalStream.StripUndoesEscape` | lumen-airplay/src/h264.rs:269-288 | removal undoes section 7.4.1's escaping for every payload |
| `NalStream.EscapedHasNoStart` | lumen-airplay/src/h264.rs:97-111 | escaped data never contains a start code |
| `NalStream.UnitRoundTrip` | lumen-airplay/src/h264.rs:114-122 | stripping start code, header and escapes recovers each payload |
| `NalStream.TypeOfUnit` | lumen-airplay/src/h264.rs:133-144 | the type scan reads the unit's own header |
| `NalStream.NalType` | lumen-airplay/src/h264.rs:133-144 | the type after the first 00 00 01, or 0 |
| `NalStream.BatchRoundTrip` | lumen-encode/src/openh264.rs:183-198 | the batch splitter recovers every printed list of units |
| `NalStream.StreamRoundTrip` | lumen-airplay/src/h264.rs:19-66 | the incremental parser, fed the printed list in any pieces and flushed, returns exactly that list |
| `NalStream.AvccRoundTrip` | lumen-airplay/src/h264.rs:68-130 | length-prefixed units, read in any pieces, come back whole and in order |
| `NalStream.PrefixIsLength` | lumen-airplay/src/h264.rs:124-130 | the prefix is the unit's length, highest byte first |
| `NalStream.AvccPushed` | lumen-airplay/src/h264.rs:19-91 | pushed in any pieces, length-prefixed units come back whole and nothing is kept, exactly when no push finds a start code in the buffer |
| `NalStream.AvccPushedClean` | lumen-airplay/src/h264.rs:19-91 | which is so when units and lengths together contain none |
| `NalStream.MiddleLengthsFail` | lumen-airplay/src/h264.rs:19-26 | the length of a unit of 256 to 511 bytes looks like a start code, and such a unit stays in the buffer |
| `LiveStream.CleanRun` | lumen-airplay/src/h264.rs:19-66 | at any moment of a live stream, with flushes between units only, the emitted units are the stream's first ones and the buffer holds the bytes after them |
| `LiveStream.DirtyRun` | lumen-airplay/src/h264.rs:33-44 | after one flush inside a unit or start code the units already differ from the stream's, or will before the buffer is empty again |
| `LiveStream.LiveRoundTrip` | lumen-airplay/src/h264.rs:19-66 | pushed in any pieces with flushes anywhere and one at the end, the units come out whole and the buffer ends empty exactly when every flush came between two units |
| `LiveStream.SplitUnit` | lumen-airplay/src/h264.rs:33-44 | the unit 00 00 01 41 80 11 with a flush after its fourth byte comes out truncated and the rest is dropped |
| `Bits.TakePutBits` | lumen-airplay/src/h264.rs:313-319 | a reader that shifts bits in gets an MSB-first number back |
| `Bits.AllBitsOfPack` | lumen-airplay/src/h264.rs:302-311 | the bits of packed bytes are the packed bits |
| `Bits.FirstByteRead` | lumen-airplay/src/h264.rs:302-319 | eight bits read from the front of a byte string are its first byte |
| `Sps.BitReader.ReadBit` | lumen-airplay/src/h264.rs:302-311 | the next bit, or an error exactly at the end |
| `Sps.BitReader.ReadBits` | lumen-airplay/src/h264.rs:313-319 | the next n bits as a number |
| `Sps.BitReader.ReadUe` | lumen-airplay/src/h264.rs:322-340 | the next unsigned code, refused from 32 leading zeros on |
| `Sps.BitReader.ReadSe` | lumen-airplay/src/h264.rs:343-350 | the next signed code |
| `Sps.UeRoundTrip` | lumen-airplay/src/h264.rs:322-340 | every unsigned code of section 9.1 up to 2^32-2 is read back |
| `Sps.UeReadsExactlyItsRange` | lumen-airplay/src/h264.rs:322-340 | a printed code is read exactly when its value is at most 2^32-2 |
| `Sps.FirstCodes` | lumen-airplay/src/h264.rs:322-350 | the first codes of table 9-2 and the signed values of table 9-3 of ITU-T H.264 |
| `Sps.SeRoundTrip` | lumen-airplay/src/h264.rs:343-350 | every signed code in the 32-bit range is read back |
| `Sps.ListRoundTrip` | lumen-airplay/src/h264.rs:200-212 | a scaling list of any valid delta sequence is consumed exactly |
| `Sps.HighRoundTrip` | lumen-airplay/src/h264.rs:187-216 | the high-profile fields are consumed exactly |
| `Sps.OrderRoundTrip` | lumen-airplay/src/h264.rs:219-230 | every picture order count type is consumed exactly |
| `Sps.FrameRoundTrip` | lumen-airplay/src/h264.rs:231-266 | sizes, flags and cropping are read back |
| `Sps.SpsDimensions` | lumen-airplay/src/h264.rs:175-266 | the branching parser computes the specified function of any input |
| `Sps.DimensionsRoundTrip` | lumen-airplay/src/h264.rs:175-266 | every printed, packed and escaped parameter set of any profile parses to the code's size formula |
| `Sps.DimensionsAreExact` | lumen-airplay/src/h264.rs:253-265 | that is the standard's cropped size exactly when the 4:2:0 crop units apply |
| `Sps.Crop444Fails` | lumen-airplay/src/h264.rs:253-265 | a 4:4:4 set with one column cropped, of standard size 319 by 240, parses to 318 by 240 |
| `Sps.Dimensions420` | lumen-airplay/src/h264.rs:175-266 | every 4:2:0 parameter set yields exactly its cropped width and height |
| `MirrorCipher.MirrorCipher.EncryptFrame` | lumen-airplay/src/mirror_cipher.rs:38-85 | the frame under the keystream from the current position, and the next position, for every length |
| `MirrorCipher.MirrorCipher.EncryptTail` | lumen-airplay/src/mirror_cipher.rs:68-83 | the padded last block: its unused end is bare keystream, cached |
| `MirrorCipher.RunAt` | lumen-airplay/src/mirror_cipher.rs:38-85 | byte i of frame k is xored with keystream byte start(k) + i, for every sequence of lengths |
| `MirrorCipher.NoKeystreamReuse` | lumen-airplay/src/mirror_cipher.rs:38-85 | no keystream byte is used twice |
| `MirrorCipher.PlainCounterMode` | lumen-airplay/src/mirror_cipher.rs:44-73 | a frame starts where plain counter mode would exactly when no earlier frame was short |
| `MirrorCipher.ConcatenationMasked` | lumen-airplay/src/mirror_cipher.rs:38-85 | without short frames the output is counter mode over the concatenation |
| `MirrorCipher.RunTwice` | lumen-airplay/src/mirror_cipher.rs:38-85 | a second run over the ciphertext frames recovers every frame |
| `MirrorCipher.RoundTrip` | lumen-airplay/src/mirror_cipher.rs:142-155 | two cipher objects of one key, encrypting and decrypting frame by frame, recover every sequence |
| `Streamer.H264Streamer.ProcessUnit` | lumen-capture/examples/mirror_desktop.rs:635-668 | what one unit does to accumulator, flags and sent frames, unless the codec frame it sets off panics |
| `Streamer.H264Streamer.FlushVcl` | lumen-capture/examples/mirror_desktop.rs:670-694 | codec frame, frame, flags and times of one flush, send failures included |
| `Streamer.H264Streamer.Push` | lumen-capture/examples/mirror_desktop.rs:620-624 | parser and streamer after one push |
| `Streamer.H264Streamer.FlushIdle` | lumen-capture/examples/mirror_desktop.rs:629-633 | parser and streamer after an idle flush |
| `Streamer.MirrorSession.MonotonicFrameTime` | lumen-airplay/src/mirror.rs:878-884 | the reading, or one past the last time if the clock went back |
| `Streamer.SlicesAreCounted` | lumen-capture/examples/mirror_desktop.rs:670-694 | in every run, slices in frames and accumulator and the accumulators lost at failed frame sends add up to the slices that came in |
| `Streamer.NothingLost` | lumen-capture/examples/mirror_desktop.rs:635-694 | in every run, the frames and the accumulator are exactly the slices in order if and only if no attempted frame send failed; a failed codec send loses nothing |
| `Streamer.SpoiledExactly` | lumen-capture/examples/mirror_desktop.rs:635-668 | a step breaks a uniform state exactly when an ordinary slice arrives while a key frame is pending and that key frame does not go out: its codec frame or its own send fails, or it was lost before |
| `Streamer.UniformExactly` | lumen-capture/examples/mirror_desktop.rs:635-694 | all along a run every frame and the accumulator are all IDR or all not, flagged so, with no second access unit inside a non-IDR one, if and only if no step is of that kind |
| `Streamer.SpoiledGoesOut` | lumen-capture/examples/mirror_desktop.rs:670-694 | a mixed accumulator stays so until it is lost or goes out as a bad frame |
| `Streamer.PendingWithoutSlices` | lumen-capture/examples/mirror_desktop.rs:670-694 | a key frame is pending without slices only after its frame send failed |
| `Streamer.NothingLostOrMixed` | lumen-capture/examples/mirror_desktop.rs:635-694 | over every run whose attempted sends succeed, both hold |
| `Streamer.LostKeyFrame` | lumen-capture/examples/mirror_desktop.rs:635-694 | a run from the start: a key frame whose send fails at a delimiter is lost, and the next ordinary slice goes out flagged as a key frame |
| `Streamer.MixedFrame` | lumen-capture/examples/mirror_desktop.rs:635-694 | a run from the start: a key frame whose codec frame fails is joined by the ordinary slice that follows |
| `Streamer.TimesIncrease` | lumen-airplay/src/mirror.rs:860-884 | frame times strictly increase in every run, whatever the clock and the sends do |
| `Streamer.KeyFramesFollowCodec` | lumen-capture/examples/mirror_desktop.rs:675-686 | once both parameter sets are known every key frame follows a codec frame of its time |
| `Streamer.CodecCarriesLatest` | lumen-capture/examples/mirror_desktop.rs:643-647 | in every run a codec frame carries the newest SPS and PPS that arrived before it |
| `Streamer.CodecSize` | lumen-capture/examples/mirror_desktop.rs:675-683 | in every run the codec frame of a printed 4:2:0 set announces that set's cropped width and height |
| `Streamer.StepStamps` | lumen-capture/examples/mirror_desktop.rs:670-694 | what a step sends carries its clock reading, or the time right after the last frame's if the clock went back, and its place on the timeline |
| `Streamer.FirstSliceIs` | lumen-airplay/src/h264.rs:148-150 | a slice begins an access unit, as the streamer sees it, exactly when the address of its first macroblock is zero |
| `Streamer.PayloadReadable` | lumen-airplay/src/h264.rs:124-130 | a decoder that reads a frame's length prefixes finds exactly its slices |
| `Streamer.OperationsRun` | lumen-capture/examples/mirror_desktop.rs:620-633 | pushes and idle flushes run the parser and hand its units, in order, to the streamer |
| `Streamer.EndToEnd` | lumen-capture/examples/mirror_desktop.rs:395-445 | at any moment of a live stream pushed in any pieces with idle flushes between units, the slices of its first k units are in the frames and the accumulator, complete and in order, if and only if no attempted frame send failed; a flush leaves the buffer empty, and with all sends successful everything in the frames |
| `Streamer.SplitUnitIsTruncated` | lumen-capture/examples/mirror_desktop.rs:629-633 | the limit: a unit split by an idle flush goes out truncated although every send succeeds |
| `Streamer.BuildAvccConfig` | lumen-airplay/src/h264.rs:154-171 | filling the record in place gives the configuration with both parameter sets |
| `Streamer.ConfigHoldsBoth` | lumen-airplay/src/h264.rs:154-171 | every byte of the record: profile bytes, both parameter sets where the lengths say, and the trailer |
| `Alac.BitWriter.Write` | lumen-airplay/src/audio.rs:79-103 | the low bits are appended MSB-first across any byte boundaries |
| `Alac.BitWriter.Flush` | lumen-airplay/src/audio.rs:105-111 | the bytes hold what was written, padded with zeros |
| `Alac.FieldsRoundTrip` | lumen-airplay/src/audio.rs:79-111 | every sequence of fields is read back by the bit reader |
| `Alac.EncodeAlacVerbatim` | lumen-airplay/src/audio.rs:36-59 | header, samples and end tag, padded; the buffer is never overrun |
| `Alac.FrameRoundTrip` | lumen-airplay/src/audio.rs:36-59 | the frame decodes to its channel count and every sample exactly when enough PCM was given |
| `AudioRing.DatagramRoundTrip` | lumen-airplay/src/audio.rs:181-210 | every packet is recovered from its datagram, in the clear or sealed |
| `AudioRing.DatagramIs` | lumen-airplay/src/audio.rs:181-210 | the datagram's bytes: header fields, and the payload in the clear or sealed over timestamp and source under the counter's nonce, with the counter appended |
| `AudioRing.AudioStream.SendFrame` | lumen-airplay/src/audio.rs:181-221 | the datagram, the nonce counter and the clock after one send |
| `AudioRing.RunAudio` | lumen-capture/examples/mirror_desktop.rs:489-549 | the loop sends the specified packets, plaintext or sealed, and leaves the clock at the newest frame |
| `AudioRing.SentTwice` | lumen-capture/examples/mirror_desktop.rs:503-541 | frame k goes out at its place and once more right before frame k+8, with its number and timestamp, and nothing else does |
| `AudioRing.FreshMovesClock` | lumen-airplay/src/audio.rs:215-219 | a fresh frame moves the clock to its timestamp, across wrap-around |
| `AudioRing.RepeatKeepsClock` | lumen-airplay/src/audio.rs:215-219 | a repeated frame leaves the clock, across wrap-around |

## Left out

- Sockets, threads, timers, mDNS and property lists: a connection is a byte sequence, and a property-list body is an input.
- SHA-512, HKDF, ChaCha20-Poly1305, AES-128, Ed25519 and X25519: function values with their functional laws.
- The white-box networks, their tables and `fairplay_sap.rs`: no specification exists to prove them against; they are functions of their inputs in `Fpsap.WhiteBox`.
- `fairplay_md5.rs`: a modified hash compression, used only inside the key derivation that `Fpsap.WhiteBox` stands for.
- `FairPlayMessage.Tables`: the IV and round key constants of `fp_tables_generated.rs` are parameters; results hold for all of them.
- `ReceiverSession.Dispatch`: error and information texts in reply bodies are not modelled (they are empty or an input), nor is the media endpoint itself, only whether it could be had.
- `PairingSession.Session.PairWithPin`: HTTP headers and pairing-type negotiation are not modelled; of the receiver's profile only the screen-capture entry of M5 is. Transient and raw pairing and reconnecting are not part of this model.
- `Rtsp.ReadRequest`: header text is taken as bytes; the replacement of invalid UTF-8 and white space outside ASCII are not modelled.
- `Rtsp.RunStaysInSync`: is about the encrypted channel, header fields of one line each, and messages within the code's limits; digest authentication and the client's plaintext response reader are not part of this model.
- `Rtsp.CtrlStream.ReadExact`: what the peer will ever send is there already, and time-outs are not modelled.
- `HapFraming.RunStaysInStep`: a read that finds no whole frame of ours leaves the pipe as it was, because the original blocks; what a failed read leaves behind is in `HapFraming.HapStream.Read`.
- `HapFraming.EventChannel.Read`: the unencrypted event channel passes bytes through and is not modelled, nor is the event request parser.
- `HapFraming.Nonce`: counters are natural numbers; the original's are 64-bit, so claims of distinct nonces hold below 2^64 frames.
- `MirrorCipher.MirrorCipher.ApplyKeystream`: the keystream is a function of the byte position; where the 128-bit block counter wraps is not modelled.
- `Streamer.MirrorSession.SendFrame`: the 128-byte frame headers and the encryption of the payload are not modelled; the log holds the frames themselves. `MirrorCipher` covers one of the two ciphers.
- `Streamer.MirrorSession.MonotonicFrameTime`: times are natural numbers; the original's 64-bit overflow is not modelled.
- `Streamer.Run`: the main loop stops when the accumulator's own flush fails in an idle flush; runs here may go on after it, so they include all of its runs.
- `AnnexB.ChunkingIsInvisible`: is about streams that begin with a start code; other input may be taken for the length-prefixed form, as `push` decides by content.
- `Alac.FrameRoundTrip`: is about frame sizes below 2^32, the width of the sample count field.
- `AudioRing.RunAudio`: socket errors, which end the original's loop, and the periodic sync packets are not modelled.
- The media drain loops, the resampler, colour conversion, capture and encoder wrappers: foreign calls or floating point.
