# A verified model of ClaviFaber

ClaviFaber provisions the key material of a host: it asks gpg-agent for Ed25519 signatures, issues
and verifies X.509 certificates, creates a Yggdrasil key pair, and leaves the results as files that
are written once. This project models those parts in Dafny and proves what they promise.

`dafny verify dfyconfig.toml` checks everything.

## What is modelled

| part | modules | program |
|---|---|---|
| Assuan wire protocol, S-expression scan | `Assuan`, `Extraction`, `SExpression`, `Wire`, `GpgAgent`, `Signature`, `AgentSide`, `Dialogue`; `ByteStrings`, `Utf8` | `src/gpg_agent.rs`, `src/util.rs` |
| Atomic files and write-once issuance | `Paths`, `AtomicFile`, `Writers`, `Issuance`, `WriteOnce`, `Idempotence`, `Races` | `src/util.rs`, `src/request.rs`, `src/yggdrasil.rs` |
| Certificates | `X509`, `Chain` | `src/x509.rs` |
| Actors | `Actors`, `Progress`, `Trace`, `Outcomes`, `Mailboxes`, `Runtime`, `Setups`, `WholeReads` | `src/actors/`, `src/yggdrasil.rs` |

Code that changes state step by step is a method with loops, or a class whose methods are proved
against functions on the state (`GpgAgent.GpgAgent` against `Wire`, `AtomicFile.Disk` against
`AtomicFile.CommitState` and `Issuance.EndOf`, `Runtime.RuntimeRoot` against `Actors.Step`); the
theorems are then lemmas about these functions, and `Runtime.RuntimeRoot.Follow` and `Finish` bring
them back to the object: they make whole runs and promise what its recorder and replies then hold.

The other ends are modelled as well, in texts of their own: `AgentSide` reads the bytes that the
client sends as gpg-agent would, and says what it has been asked to sign; `Dialogue` writes out the
lines and S-expressions that gpg-agent sends. In `Chain` an agent is honest if its signature is one of
the digest that it heard, not of the one that the client meant.

What the program takes from outside is a parameter:

- the connection is the bytes that will arrive, a possible read fault behind them, the number of
  writes that succeed and how much of a failing one still gets through (`Wire.Connection`);
- the disk is a map from paths to contents and mode that stops for good after any number of steps,
  with writes of one byte as steps (`AtomicFile.Disk`); a crash and an I/O error are both such a stop;
- PEM, DER, SHA-256, Ed25519 and the agent are functions with the laws they promise
  (`Issuance.Lawful`, `X509.Lawful`, `X509.SignsFor`, `Chain.AgentHolds`); clocks are integers;
- the interleaving of actors, tasks and requests is an arbitrary sequence of steps, and the outcome
  of a blocking call is an arbitrary choice.

## Where the code falls short of the plain promise

Each of these lemmas gives the exact condition, an "if and only if".

- A signature is read back for every S if and only if R does not contain the four bytes `(1:s`
  (`Signature.SignatureReadExactly`). A certificate is issued with whatever bytes were read, and
  within its window it verifies exactly when they are R and S
  (`Chain.OverTheWireVerifiesExactlyWhenRead`; the law of strict Ed25519 verification used there is
  that for one digest and one R at most one S is accepted).
- A signature that was returned was asked for with the keygrip and the digest that the client was
  given exactly when neither text holds a line end (`AgentSide.SignatureIsAskedExactly`).
- The flat scan lands on a real list opening, or rightly on nothing, exactly when no atom imitates an
  opening before the first real one (`SExpression.SearchIsTrueExactly`).
- The reading loop ends exactly when a line starting with OK or ERR arrives; at the end of a stream
  without one it turns for ever (`Wire.LoopLeavesAtTerminator`).
- Extraction fails to return exactly when the announced end leaves the range of `usize`
  (`Extraction.ExtractPanics`).
- A file is replaced atomically exactly when it is not its own temporary
  (`AtomicFile.WholeExactly`, `Paths.OwnTemporaryExactly`); two writers at work at the same time are
  safe exactly when their temporaries differ and are no targets (`Writers.PairIsSafeExactly`), which
  two writers on one path, and `server.pem` and `server.key`, do not meet
  (`Paths.SharedTemporaryExactly`). One server run writes the two one after the other, and there
  sharing is no harm (`WriteOnce.NeverTornExactly`).
- A request writes the kept paths once, on all disks and in all runs, exactly when it respects them
  (`WriteOnce.RespectsExactly`).
- Repeating a server issuance is recognised exactly when the key's commit neither replaces nor passes
  through the certificate's file (`Idempotence.ServerIsIdempotentExactly`).
- Two single-file requests at work at the same time keep write-once exactly when their temporaries
  differ and are no targets; two for one file never do, as each may look before the other writes
  (`Races.RaceIsSafeExactly`).
- Simultaneous Yggdrasil set-ups always find the file they ensured exactly when neither path is the
  other's temporary (`Setups.NeverMissingExactly`); sharing a temporary is no harm to that. They
  always find it whole exactly when they also share no path and no temporary
  (`WholeReads.ReadsAreGoodExactly`).

Two more points. Where an atom does imitate an opening, the scan may miss a component that the parser
finds: an atom ending in `(` followed by the atom `s` is enough (`SExpression.SeamHidesComponent`). The
issuer records no reply for a request that ends in an error, so its receipts and replies balance only
after counting those; the session and the key reply on success and on error
(`Trace.ReceiptsAreAccountedFor`).

`ARCHITECTURE.md:85` draws `ReadEd25519PublicKey` as a message of the issuer; in the code the request
itself sends it (`src/request.rs:81-87`). The model follows the code.

## Model

| member | source | states |
|---|---|---|
| `Assuan.HexadecimalDigitsExactly` | src/util.rs:78-85 | a byte has a value exactly when it is a hexadecimal digit of either case, and the value is its place in the digit row |
| `Assuan.DecodedBytes` | src/util.rs:56-75 | the decoding loop computes the recursive reading of the line |
| `Assuan.DecodeInvertsEncodings` | src/util.rs:56-75 | decoding any legal encoding of any bytes (either digit case, any superset of `%`, CR and LF escaped) gives the bytes back |
| `Assuan.DecodedLength` | src/util.rs:56-75 | output length plus twice the escapes decoded is the input length |
| `Assuan.DecodeAcrossCut` | src/util.rs:56-75 | decoding two pieces apart equals decoding them together if and only if the cut splits no recognised escape |
| `Assuan.EncodingsHaveNoLineEnd` | src/gpg_agent.rs:82-91 | no legal encoding holds a raw CR or LF, so trimming a data line loses nothing |
| `Assuan.Encode` | src/util.rs:56-75 | every byte string has a legal encoding, built with the reserved bytes escaped |
| `Assuan.PlainLinesExactly` | src/util.rs:56-75 | a line decodes to itself if and only if it holds no complete escape; a stray or cut-off `%` stays |
| `Utf8.ValidExactly` | src/gpg_agent.rs:74-80 | the byte strings that `read_line` and `read_to_string` accept are exactly the encodings of texts of code points without surrogates |
| `Extraction.Decimal` | src/gpg_agent.rs:151-161 | printing a length and reading its digits is the identity, and the printed form has no leading zero |
| `Extraction.FirstMatchIsLeftmost` | src/gpg_agent.rs:148 | the position search returns the leftmost match, and nothing only when there is none |
| `Extraction.ExtractSexpValue` | src/gpg_agent.rs:144-166 | the scanning loop computes the extraction that the lemmas below characterise |
| `Extraction.ParseUsize` | src/gpg_agent.rs:161 | a digit string parses to its value unless it is empty or too large |
| `Extraction.ExtractFinds` | src/gpg_agent.rs:144-166 | extraction returns v if and only if the data reads prefix, first needle, decimal digits, `:`, v, with the digits denoting the length of v |
| `Extraction.ExtractPanics` | src/gpg_agent.rs:161-165 | it does not return if and only if the length fits `usize` and the end it announces does not |
| `Extraction.ExtractSexpQValue` | src/gpg_agent.rs:169-194 | the separate key scanner equals the general one for tag `q` with a leading 0x40 dropped from 33 bytes, on every input |
| `SExpression.CanonicalPrintsTokens` | src/gpg_agent.rs:126-142 | the canonical form of a tree (section 6.1 of RFC 9804) is the print of its tokens, the link between tree and flat bytes |
| `SExpression.SearchLandsOnFirstHit` | src/gpg_agent.rs:145-148 | on any printed tokens the search finds nothing, the first real list opening, or an offset that is no opening, as the first hit in token order is none, real or an imitation inside or at the end of an atom |
| `SExpression.SearchIsTrueExactly` | src/gpg_agent.rs:145-148 | the search lands on a real list opening, or nowhere, if and only if no atom imitates an opening before the first real one |
| `SExpression.HitAgreesWithLookup` | src/gpg_agent.rs:126-142 | unless an imitation comes first, the first hit in token order is the first list head with that tag in pre-order, in any context |
| `SExpression.ExtractRefinesLookup` | src/gpg_agent.rs:144-166 | on the printed form of every tree without an earlier imitation, the flat scan returns what the structural parser returns |
| `SExpression.SeamHidesComponent` | src/gpg_agent.rs:144-166 | for a whole family of trees with `(` at the end of an atom the component exists and the scan misses it |
| `Wire.LineLengthExactly` | src/gpg_agent.rs:82-86 | a line goes up to its first LF, or to the end of the stream if there is none |
| `Wire.TrimExactly` | src/gpg_agent.rs:87-89 | every CR and LF at the end of a line is taken off and nothing else |
| `Wire.LoopLeavesAtTerminator` | src/gpg_agent.rs:104-119 | without faults the loop is left within n turns if and only if the stream has an OK or ERR line and n exceeds the lines before it |
| `Wire.LoopReadsUpToTerminator` | src/gpg_agent.rs:104-119 | on every stream with a terminator the result is the decoded data lines before it or the refusal, with one END sent per INQUIRE line and everything behind the terminator unread |
| `Wire.AnswerIsReadBack` | src/gpg_agent.rs:82-119 | every encoding of every payload into data lines, with any other lines mixed in, is read back exactly; as many ENDs are sent as the bytes hold INQUIRE lines before the terminator; nothing behind the final OK line is consumed |
| `Wire.AnswerAsLines` | src/gpg_agent.rs:104-119 | the link between frames and raw bytes: lines before the terminator, INQUIRE lines among them, decoded data and unread rest are those of the frames |
| `Wire.ChunkLine` | src/gpg_agent.rs:82-91 | a data line survives trimming whole, even with an empty payload |
| `GpgAgent.GpgAgent.SendCommand` | src/gpg_agent.rs:64-72 | appends one LF-terminated line to what was sent, or fails with any part of it sent but never the whole line |
| `GpgAgent.GpgAgent.ReadUntil` | src/gpg_agent.rs:84-86 | consumes exactly the first line with its terminator; at the end of the stream the rest; before a fault nothing is returned |
| `GpgAgent.GpgAgent.ReadRawLine` | src/gpg_agent.rs:82-91 | the popping loop removes all trailing CR and LF and nothing else |
| `GpgAgent.GpgAgent.ExpectOk` | src/gpg_agent.rs:93-102 | tells OK, ERR and everything else apart after the UTF-8 check of `read_line` |
| `GpgAgent.GpgAgent.ReadDataResponse` | src/gpg_agent.rs:104-119 | watched for any number of turns, the loop is where `Wire.ReadLoop` says, in result, unread bytes and lines sent |
| `GpgAgent.GpgAgent.Sign` | src/gpg_agent.rs:42-52 | the three commands in order, each error path included, and the signature of the payload |
| `GpgAgent.GpgAgent.Readkey` | src/gpg_agent.rs:56-62 | one command and the key of the payload, each error path included |
| `GpgAgent.ReadSignature` | src/gpg_agent.rs:131-141 | R, then S, joined; the missing component is named |
| `Signature.SecondComponentIsReal` | src/gpg_agent.rs:131-141 | in libgcrypt's signature shape nothing imitates S before the real S if and only if R is free of `(1:s` |
| `Signature.SignatureReadExactly` | src/gpg_agent.rs:131-141 | a 32-byte R lets every 32-byte S be read back if and only if it does not contain `(1:s` |
| `Signature.SigningReturnsSignature` | src/gpg_agent.rs:42-52 | on every legal transcript `sign` returns R+S, sends SIGKEY, SETHASH and PKSIGN in order plus one END per INQUIRE, and stops reading right behind the final OK line |
| `Signature.KeyReadingReturnsKey` | src/gpg_agent.rs:56-62 | on every legal transcript of a tree with a `q` component that nothing imitates before, `readkey` returns the component, of any length, without its point prefix |
| `Signature.SigningReadsPayload` | src/gpg_agent.rs:42-52 | on every legal conversation, whatever its payload, three commands and one END per INQUIRE are sent and the result is what the scan makes of the payload |
| `Signature.SigningReadsSignature` | src/gpg_agent.rs:42-52 | on every legal transcript, whatever R holds, the same commands and stopping point, and as result what the scan makes of the printed signature |
| `Signature.PointFromEitherForm` | src/gpg_agent.rs:189-193 | a 32-byte point is what is left of either of its forms |
| `Signature.KeyReadingReturnsEveryKey` | src/gpg_agent.rs:56-62 | for libgcrypt's `(public-key (ecc (curve C) (flags F) (q K)))` no condition on the key is needed: every K, of any length, comes back, a 33-byte one that starts with 0x40 without that byte |
| `Signature.OtherKeysStay` | src/gpg_agent.rs:189-193 | only a 33-byte key that starts with 0x40 loses a byte |
| `AgentSide.SigningAsksForTheDigest` | src/gpg_agent.rs:42-52 | read with the Assuan texts written out, what `sign` sends asks the agent once, or not at all, to sign the digest that was passed in with the keygrip that was passed in; wherever it breaks off, and never without it if a signature is returned |
| `AgentSide.SignatureIsAskedExactly` | src/gpg_agent.rs:42-52 | a signature that is returned was asked for as passed in if and only if neither text holds a line end |
| `AgentSide.KeyReadingAsksForTheKey` | src/gpg_agent.rs:56-62 | the same for READKEY: one key, by the keygrip that was passed in |
| `AgentSide.LoopAsksNothing` | src/gpg_agent.rs:104-119 | whatever arrives and for however long, the reading loop asks the agent for nothing |
| `AgentSide.CommandIsHeard` | src/gpg_agent.rs:64-72 | behind whole lines, a whole command is heard as meant and any torn part of it is not heard |
| `Dialogue.SigningInWords` | src/gpg_agent.rs:42-52 | in literal texts: `OK`, `OK`, any `D `, `S `, `# ` and `INQUIRE ` lines whose data is `(7:sig-val(5:eddsa(1:r32:R)(1:s32:S)))`, `OK`; the client answers R and S if R is free of `(1:s`, having sent `SIGKEY K`, `SETHASH --hash=sha256 H`, `PKSIGN` and one `END` per inquiry |
| `Dialogue.KeyReadingInWords` | src/gpg_agent.rs:56-62 | in literal texts: a printed Ed25519 public key gives back its point, after `READKEY K` |
| `Dialogue.SignatureInPrint` | src/gpg_agent.rs:126-142 | the tree of a signature prints as that text |
| `Dialogue.KeyInPrint` | src/gpg_agent.rs:168-194 | the tree of a public key prints as `(10:public-key(3:ecc(5:curve7:Ed25519)(5:flags5:eddsa)(1:q33:@Q)))` |
| `Dialogue.RefusedKeygripEndsSigning` | src/gpg_agent.rs:42-44 | an answer to SIGKEY that is no OK in UTF-8 ends `sign` with the error it stands for, refused, unexpected or unreadable, and only that command was sent |
| `Dialogue.RefusedDigestEndsSigning` | src/gpg_agent.rs:46-47 | the same one command later |
| `Dialogue.SilenceEndsSigning` | src/gpg_agent.rs:74-102 | the end of the stream is an unexpected answer, and a fault inside a line a read error, whatever part of the line has arrived |
| `Dialogue.MissingComponentIsNamed` | src/gpg_agent.rs:131-148 | an answer without `(1:r`, `(1:s` or `(1:q` is an error that names the component |
| `Dialogue.OversizedComponentIsAnError` | src/actors/gpg_agent_session.rs:110-120 | a component whose end leaves the machine range is the error of a task that did not join |
| `Dialogue.SignatureStands` | src/gpg_agent.rs:131-141 | a signature is returned if and only if it is an R and an S that stand behind their first openings, as their lengths say |
| `Chain.HonestySigns` | src/gpg_agent.rs:42-52 | if what an honest agent brings is read at all, it is a signature of the digest that the client's text says |
| `Chain.WireSignerSigns` | src/actors/certificate_issuer.rs:180-193 | an agent that plays, for every digest, a legal transcript of a signature of the digest it heard, with R free of `(1:s`, makes `sign` a correct signer for every one-line keygrip |
| `Chain.IssuedOverTheWireVerifies` | src/x509.rs:84-204 | if the agent answers for the two bodies that are signed, the authority's and the leaf's, with legal transcripts of signatures of the digest it heard and R free of `(1:s`, signing never fails, and an issued certificate verifies exactly in its window: wire bytes, signature, certificate and verifier together |
| `Chain.OverTheWireVerifiesExactlyWhenRead` | src/x509.rs:573-597 | with any signature of the agent of the digest it heard, given that the key accepts no second S for this digest and R: no certificate if the scan gives no bytes, else one with the bytes read, which within its window verifies if and only if they are R+S; R free of `(1:s` suffices |
| `Chain.BytesReadStartWithR` | src/gpg_agent.rs:131-141 | whatever the signature, 64 bytes that were read start with its R |
| `X509.IssuedVerifiesExactlyWhenSigned` | src/x509.rs:582-597 | any bytes the signer returns are put into the certificate, which verifies if and only if the time is in its window and they are a 64-byte signature the authority's key accepts |
| `Paths.OwnTemporaryExactly` | src/util.rs:17 | `with_extension("tmp")` is the identity exactly on names ending in `.tmp` behind something and on paths without a file name (empty, `.`, `..`) |
| `Paths.TemporaryIsStable` | src/util.rs:17 | a temporary is its own temporary |
| `Paths.SharedTemporaryExactly` | src/util.rs:17 | two files share a temporary exactly when directory and stem agree |
| `Paths.TemporaryInWords` | src/util.rs:17 | `stem.ext` becomes `stem.tmp` in the same directory for every extension without a dot; a name without a dot, or with its only dot in front, gets `.tmp` behind it; empty, `.` and `..` stay |
| `AtomicFile.StepsAreOps` | src/util.rs:16-44 | the steps of a commit are create, the bytes in their order, sync, chmod and rename, so nothing is renamed before all of it is written and synced |
| `AtomicFile.AncestorsExactly` | src/yggdrasil.rs:25-35 | the directories made are exactly the prefixes of the path that end a name |
| `AtomicFile.CommitAdvances` | src/util.rs:16-44 | each of create, byte-wise write, sync, chmod and rename is enabled after the one before and leads to the stated state |
| `AtomicFile.CommitIsAtomic` | src/util.rs:16-44 | stopped after any step, the target has its old entry, or after the last step the whole contents and mode; no other path but the temporary is touched |
| `AtomicFile.WholeExactly` | src/util.rs:16-44 | a reader always finds the old or the whole new file if and only if the path is not its own temporary |
| `AtomicFile.Disk.WriteBytes` | src/util.rs:16-44 | stopped anywhere, the program has performed exactly the first steps of the commit that it was allowed, in their order, leaves the state after them, and reports success only after all |
| `Writers.InterleavedWritersAreAtomic` | src/util.rs:16-44 | any number of writers, any interleaving, any stops: each target holds its initial entry until its writer is done and that writer's whole file and mode from then on; nothing else but temporaries changes |
| `Writers.PairIsSafeExactly` | src/util.rs:16-44 | for any two writers, on one path or two, the separation of temporaries is also necessary |
| `Writers.PresentPathsStay` | src/util.rs:37-43 | writers may share temporaries and targets: a present path that none of them moves away as its temporary is present in every state of every interleaving |
| `Writers.FinishedWriterLeavesFile` | src/util.rs:16-44 | a writer that finished among any others has left its target present |
| `Writers.StoppedWriterStays` | src/util.rs:16-44 | a writer that stopped does nothing more, whatever the others do |
| `AtomicFile.PresentStaysExactly` | src/util.rs:37-43 | a path survives every commit to another, stopped anywhere, if and only if it is not that commit's temporary |
| `Issuance.SingleDecidesExactly` | src/request.rs:66-79 | a CA or node request skips exactly if its output is a file in UTF-8 that parses, proceeds exactly if there is none (and the node's authority is good), and refuses every other file as unreadable or as no certificate |
| `Issuance.ServerDecidesExactly` | src/request.rs:119-151 | a server request skips exactly on a good certificate and a UTF-8 file with the three marks `-----BEGIN `, `-----END ` and `PRIVATE KEY`, proceeds exactly when neither exists and the authority is good, and refuses as half-existing exactly one good file without the other |
| `Issuance.IssueCertificateAuthority` | src/request.rs:58-106 | classify, skip or refuse, else ask and commit; disk and response after a stop at any step, and the agent is asked only on absence |
| `Issuance.IssueServer` | src/request.rs:108-171 | the same with two files and the authority's certificate read first |
| `Issuance.WriteServerCertificate` | src/request.rs:403-412 | certificate first with mode 0644, key with 0600 only after it, stopped anywhere |
| `Issuance.IssueClient` | src/request.rs:173-218 | the same for a node's certificate |
| `Issuance.EnsureYggdrasil` | src/yggdrasil.rs:25-53 | if there is no key pair file, makes the directories in front of it, as far as that goes, and then the file with mode 0600; otherwise changes nothing |
| `Issuance.EnsuredKeypairExists` | src/yggdrasil.rs:25-53 | a successful ensure leaves the key pair on the disk, found or made |
| `Issuance.WritePublication` | src/request.rs:275-329 | the publication is replaced on every run |
| `WriteOnce.KeptPathsAreWrittenOnce` | src/request.rs:59-218 | over any sequence of requests of all kinds, each stopped anywhere, every kept path goes at most once from absent to one whole file and mode that some run meant to write there, and never changes after |
| `WriteOnce.RespectsExactly` | src/request.rs:59-218 | a request (whose authority is no output of its own) keeps all kept paths written once, on all disks, products and stops, if and only if no temporary of its outputs is kept, a server's outputs are not one kept file, and a publication's output is not kept |
| `WriteOnce.PairIsNeverTorn` | src/request.rs:403-412 | from neither file, every state of every sequence of server runs has neither, the certificate alone, or both from one key pair of one run; never the key alone |
| `WriteOnce.NeverTornExactly` | src/request.rs:119-170 | that holds for all runs if and only if the two paths differ and neither is a temporary of one of them; sharing a temporary is allowed |
| `WriteOnce.PairIsAbsorbing` | src/request.rs:119-151 | once either file exists no run changes anything on the disk |
| `WriteOnce.CertificateAloneIsRefused` | src/request.rs:119-151 | a certificate without its key makes every later run fail and change nothing |
| `Idempotence.PrivateKeyTextIsRecognised` | src/request.rs:391-395 | every PKCS#8 text passes the substring test and the UTF-8 read of later runs |
| `Idempotence.DamagedCertificateStopsIssuance` | src/request.rs:66-79 | while the file at a certificate output is no certificate, every run into it fails, asks no agent and leaves the whole disk as it is, for any number of runs |
| `Idempotence.RespondsExactly` | src/request.rs:59-218 | a run reports success exactly if its files were good, or if all steps of all its commits were done |
| `Idempotence.SuccessLeavesItsFiles` | src/request.rs:403-412 | a run that did its work leaves each product whole at its own path, certificates and publications with mode 0644 and private keys with 0600, closed to group and others |
| `Idempotence.IssuanceIsIdempotent` | src/request.rs:59-218 | after any success of a CA, server or client request, or of the ensure part of a Yggdrasil set-up, any number of further runs into the same files succeeds again, asks no signature and leaves the whole disk as it is |
| `Idempotence.ServerIsIdempotentExactly` | src/request.rs:119-170 | the path condition for it is exact for servers |
| `Races.RacingRequestsWriteOnce` | src/request.rs:59-218 | any number of requests of any kind at work at the same time, each looking and committing in separate steps, on no common path: what is at a kept path stays, and is from before or the whole product of one of them |
| `Races.StoppedRequestStays` | src/request.rs:59-218 | a request that is over does nothing more, whatever the others do |
| `Races.RaceIsSafeExactly` | src/request.rs:66-101 | for two CA or key pair requests the separation of paths and temporaries is necessary and sufficient |
| `X509.HexIsReadBack` | src/x509.rs:573-580 | the hexadecimal text of a digest reads back as the digest |
| `X509.HexInWords` | src/x509.rs:573-580 | two digits for each byte, the high one first, in lower case |
| `X509.WindowExistsExactly` | src/x509.rs:482-494 | there is a window if and only if both its ends lie between 1970 and 9999 |
| `X509.LittleEndianIsReadBack` | src/x509.rs:386-396 | the clock that a serial number hashes is written lowest byte first and reads back as the clock |
| `X509.WindowSpansYears` | src/x509.rs:482-494 | the encoded window starts no later than issuance and less than a second before it, and spans exactly years times 31536000 seconds |
| `X509.LeafWithinAuthority` | src/x509.rs:482-494 | a leaf's window lies inside its authority's if and only if it is issued from the authority's second on and at most eight years later |
| `X509.SerialIsPositiveAndMinimal` | src/x509.rs:386-404 | every serial number is a positive INTEGER of exactly 20 octets without padding, from 2^152 up to below 2^159 (section 4.1.2.2 of RFC 5280) |
| `X509.SerialNumber` | src/x509.rs:386-404 | the in-place edits of the digest's first octet give that serial |
| `X509.IssuedSaysWhatWasAsked` | src/x509.rs:122-204 | read back from its bytes, an issued certificate has as issuer and subject exactly `2.5.4.10` = `CriomOS` and `2.5.4.3` = the authority's name and the name asked for, the key, two years from the clock, octets 1 to 19 of the digest of key and clock as serial behind a first octet from 1 to 127, and the three extensions without the right to sign certificates |
| `X509.AuthoritySaysWhatWasAsked` | src/x509.rs:84-120 | the same for a self-signed authority: one name on both sides, ten years, and the right to sign certificates |
| `X509.NamesTellApart` | src/x509.rs:433-447 | two certificates of one authority have equal subjects if and only if their common names are equal |
| `X509.IssuedFailsExactly` | src/x509.rs:122-160 | issuing fails on an authority that does not parse, a key that does not encode and a window out of range, in this order, and only then asks for a signature |
| `X509.VerifyDecidesExactly` | src/x509.rs:298-362 | for any two byte strings, what is accepted, if and only if: both parse, the encoded names agree, the time is in the closed window, and the 64-byte signature is one of the body's digest under the 32-byte key; and which error each failing check gives, names first, then window, then key and signature |
| `X509.IssuerIsComparedExactly` | src/x509.rs:306-324 | a leaf verified against another authority than its own is refused as a mismatch, at every time and whatever the keys, if and only if the two encoded names differ |
| `X509.IssuedVerifiesExactlyInWindow` | src/x509.rs:298-362 | a certificate issued from an authority of the same key is accepted exactly within its closed window and rejected as early or expired outside (section 4.1.2.5 of RFC 5280) |
| `X509.AuthorityVerifiesExactlyInWindow` | src/x509.rs:84-120 | the same for the self-signed certificate and its ten years |
| `Actors.StepKeepsPlaced` | src/actors/certificate_issuer.rs:50-73 | every step of every actor keeps mailboxes without duplicates, holding exactly the asks that wait there, and the issuer inside exactly one handler when busy |
| `Progress.GoesOnExactlyUntilQuiescent` | src/actors/certificate_issuer.rs:180-193 | in every reachable state of any number of clients over bounded mailboxes some step is enabled if and only if some request is unfinished, and only a failed signature leaves failure as the only way on |
| `Progress.RunsEnd` | src/actors/certificate_issuer.rs:50-193 | no interleaving takes more than eight steps per ask |
| `Progress.EveryAskIsAnsweredOnce` | src/actors/gpg_agent_session.rs:97-132 | no message, the issuer's own for a signature included, is asked or answered twice or answered unasked, and when a run cannot go on the messages answered are exactly those asked |
| `Progress.EndOfRunHasAnswered` | src/actors/certificate_issuer.rs:50-193 | at the end a client's whole program is answered, with a signature for each issue, or the part up to the ask that failed |
| `Outcomes.RepliedIssueWasSigned` | src/actors/certificate_issuer.rs:62-71 | in every interleaving an issue is replied to, and done, only behind a step in which the session's task for this very issue came to a good end |
| `Outcomes.FailedSignatureStops` | src/actors/certificate_issuer.rs:62-65 | once its signature has failed an issue is never replied to and never done, and at the end its request has stopped with the failure |
| `Outcomes.GoodSignatureGoesOn` | src/actors/certificate_issuer.rs:62-73 | after a good signature the issue is done, or has a next step of its own other than a failure, unless its handler failed after all |
| `Outcomes.TaskDecidesItsAsk` | src/actors/yggdrasil_key.rs:58-82 | the outcome of a delegated task is the outcome of its ask: done at the end after a success, never done and stopped after a failure |
| `Outcomes.ActorsReceiveTheirOwn` | src/actors/runtime_root.rs:17-30 | the issuer receives the three issues and verifications, the session key readings and signings, the Yggdrasil key ensures and projections, and nothing else |
| `Outcomes.CompletedAskInWords` | src/actors/certificate_issuer.rs:50-178 | the four events of a completed issue of any of the three kinds in their order, the two of any other ask |
| `Mailboxes.ReceivedInOrderOfAsking` | src/actors/runtime_root.rs:17-30 | what each actor has received is at every point a prefix of what it was asked, in the order of asking; the rest stands in its mailbox in that order, and at the end it has received everything |
| `Mailboxes.MailboxesStayBounded` | src/actors/runtime_root.rs:17-30 | no mailbox ever holds more than its capacity |
| `Progress.ReadFollowsItsEnsure` | src/request.rs:245-272 | among any other clients, the message to read is taken only after a step in which the task of this client's own ensure ended well |
| `Setups.RunOfActors` | src/actors/yggdrasil_key.rs:41-127 | adding the disk and the steps of each ensure to the actors allows no run that the actors alone do not have |
| `Setups.ReadFindsTheFile` | src/yggdrasil.rs:25-53 | with any number of set-ups running `ensure` step by step on one disk, on one path or many, sharing temporaries, the key pair file exists when the read after an ensure is taken and at every later moment, unless a path is another's temporary |
| `Setups.ExistingKeypairStays` | src/yggdrasil.rs:25-29 | a key pair file that is found keeps its bytes and mode through any number of set-ups at work, on one path or many, unless it is another's temporary |
| `Setups.NeverMissingExactly` | src/yggdrasil.rs:25-53 | for two paths that condition is also necessary |
| `Setups.GoesOn` | src/actors/yggdrasil_key.rs:41-127 | with the disk in the system, and whatever the paths, some move that is neither an interruption nor an unforced failure is possible while any request is unfinished |
| `Setups.RunsEnd` | src/actors/yggdrasil_key.rs:41-127 | every run with the disk in it is bounded by its asks and the size of the generated texts |
| `WholeReads.ReadFindsAGoodFile` | src/yggdrasil.rs:25-63 | set-ups that touch no common path, at work at the same time: whenever a client waits for its projection or the task that makes it is at work, the file is the one from before or a whole generated one with mode 0600 |
| `WholeReads.ReadsAreGoodExactly` | src/yggdrasil.rs:25-63 | for two set-ups that condition is also necessary |
| `Trace.TraceOfEachClient` | src/actors/trace_recorder.rs:43-66 | in every interleaving the trace restricted to one client is what that client would record alone |
| `Trace.CompletedAskIsNested` | src/actors/certificate_issuer.rs:82-143 | every completed issue has its receipt, the receipt and reply of its signature, and its reply in this order; every other completed ask its receipt and reply |
| `Trace.EarlierAskRepliesFirst` | src/actors/yggdrasil_key.rs:44-127 | a client's ask is received only after all its earlier asks were received and replied: ensure before read |
| `Trace.IssuerHandlesOneAtATime` | src/actors/certificate_issuer.rs:50-178 | in the issuer's part of the trace each reply directly follows the receipt of its own request |
| `Trace.ReceiptsAreAccountedFor` | src/actors/gpg_agent_session.rs:35-132 | at every point receipts minus replies of an actor is the number of its asks in progress, plus for the issuer those that ended in an error |
| `Runtime.TraceRecorder.Report` | src/actors/trace_recorder.rs:54-60 | hands out exactly the events recorded |
| `Runtime.TraceRecorder.Handle` | src/actors/trace_recorder.rs:43-49 | appends the event and changes nothing before it |
| `Runtime.RuntimeRoot.constructor` | src/actors/runtime_root.rs:17-30 | starts with empty mailboxes, a free issuer and clients that have asked nothing |
| `Runtime.RuntimeRoot.Follow` | src/actors/runtime_root.rs:17-30 | driven by any schedule to any point, the object's recorder holds issuer replies directly behind their receipts, each client's own sequence, and receipts less replies equal to the open asks; nothing is asked or answered twice; at most eight steps per ask |
| `Runtime.RuntimeRoot.Finish` | src/actors/runtime_root.rs:17-30 | driven by any scheduler that does not idle, the object comes to an end with every request finished, every message answered and a sound trace reported |
| `Runtime.RuntimeRoot.Ask` | src/request.rs:81-100 | one step: the message joins the mailbox of its actor |
| `Runtime.RuntimeRoot.IssuerReceives` | src/actors/certificate_issuer.rs:50-61 | one step: the issuer takes the oldest message and records the receipt |
| `Runtime.RuntimeRoot.IssuerAsksSignature` | src/actors/certificate_issuer.rs:180-193 | one step: the handler asks the session and keeps the issuer |
| `Runtime.RuntimeRoot.IssuerFails` | src/actors/certificate_issuer.rs:62-65 | one step: the handler leaves with an error and without recording a reply |
| `Runtime.RuntimeRoot.IssuerRecordsReply` | src/actors/certificate_issuer.rs:66-71 | one step: the reply is recorded before the handler returns |
| `Runtime.RuntimeRoot.IssuerReturns` | src/actors/certificate_issuer.rs:71-73 | one step: the caller has its answer and the issuer is free |
| `Runtime.RuntimeRoot.SessionReceives` | src/actors/gpg_agent_session.rs:94-111 | one step: the session records the receipt, leaves the work to a task and is free again |
| `Runtime.RuntimeRoot.KeyReceives` | src/actors/yggdrasil_key.rs:44-62 | one step: the same for the Yggdrasil key |
| `Runtime.RuntimeRoot.TaskCompletes` | src/actors/yggdrasil_key.rs:58-82 | one step: the outcome of the spawned task is recorded as a reply, on success and on error, before it is sent |
| `Runtime.RuntimeRoot.TaskSends` | src/actors/gpg_agent_session.rs:120-128 | one step: the result reaches whoever asked |

## Left out

- ReadDataResponse: the program's loop need not end, so the method is watched for a number of turns; what it does in any number of turns, and when it ends, is proved.
- ReadUntil: bytes read before a fault are dropped, as the program drops them with its error.
- WireSignerSigns: a keygrip is one line, as gpg's are; what a keygrip with a line end would make the agent hear is told by `SignatureIsAskedExactly` only.
- ExpectOk: error values carry no text of the agent's line.
- KeyReadingReturnsKey: the shape of READKEY's answer is a hypothesis on the tree, since the program fixes none.
- ExtractRefinesLookup: where an imitation comes first the two may still agree by chance, so it goes one way; where the search lands is exact in `SearchIsTrueExactly`. Display hints and the advanced form of RFC 9804 do not occur in canonical output of libgcrypt's keys and signatures and are not printed by the model.
- ExtractFinds: holds for data shorter than the largest Rust allocation, as all data is.
- InterleavedWritersAreAtomic: a writer's open handle is identified with the path of its temporary; where temporaries differ this is no restriction.
- CommitIsAtomic: a sync has no effect in the model, so loss of unsynced data and reordering on power loss are not described; links, permissions to write and the directories a path goes through are not part of this model.
- RaceIsSafeExactly: the exact condition is for two requests of one file each; for servers and more requests at the same time `RacingRequestsWriteOnce` gives a sufficient one. A request reads all its files in one step there.
- ReadFindsTheFile: what a set-up writes through a handle whose path another has moved away is not followed; the existence of the file does not depend on it.
- IssueServer: reading a file fails only on text that is not UTF-8 or on absence; other read errors refuse in the program as well and change nothing.
- WritePublication: how the publication's text is made from its inputs, and the Datom codec, are not part of this model.
- EnsureYggdrasil: failing to make a directory and failing to generate are one reason; the `yggdrasil` binary and the JSON around its key are the product of the run or its failure; the projection only reads.
- IssuanceIsIdempotent: the projection in a Yggdrasil response is recomputed by the `yggdrasil` binary on each run and is not part of this model.
- IssuedVerifiesExactlyInWindow: DER, SHA-256 and Ed25519 are functions with laws; the choice between UTCTime and GeneralizedTime and the bytes of the extensions are inside them.
- SerialNumber: the clock is read apart from the one of the window, as in the program; that two serial numbers differ is not claimed.
- GoesOnExactlyUntilQuiescent: external calls are taken to return; the order among senders that wait for room in a full mailbox is arbitrary.
- TraceOfEachClient: the events of the program carry actor and message kind only; the name of the ask in an event belongs to the model, and tracing is always on.
- Connecting: `gpgconf`, `gpg --export-ssh-key`, the socket and the greeting line.
- OpenSSH keys, P-256 key generation and PKCS#8 encoding, which libraries do.
- The command line, the configuration records in `src/generated/clavifaber.rs`, and the texts of errors.
- The internals of kameo and tokio, and the supervisor actor around the runtime root.
