# cache-warden: verified model

cache-warden keeps secrets in a daemon and hands them to programs through `cache-warden://[NS/]KEY`
references, one-time codes, an SSH agent and an on-disk vault. This project models the parts of it whose
correctness rests on a combinatorial or concurrent argument, and proves that argument for all inputs, all runs
and all interleavings.

| modules | what they model |
|---|---|
| `Refs`, `Render`, `Namespace` | the reference scanner, the reveal and dry-run renderer, the `inject` pipeline |
| `VaultFormat`, `VaultCodec`, `VaultSizes` | the vault file: parser, printer, in-place cursor and buffer, sizes |
| `Approver`, `ApproverSafety`, `ApproverHelper` | the approval helper as a state machine over atomic steps of its threads, its invariants, and its callbacks as runs of those steps |
| `Hotp`, `Base32`, `Claim`, `Bits` | one-time codes, base32 and base64url at the level of shifts, ors and machine words |
| `Mpint`, `KeyFiles`, `Pkcs8`, `SshWire` | SSH mpints, signature blobs, and the two hand-written private-key readers |
| `OpDiscovery`, `OpAgreement` | 1Password key discovery against its disk cache |
| `AgentWire`, `AgentPayloads` | SSH agent messages, their framing over a stream, identity lists and sign requests |
| `TomlText`, `TomlFields`, `ValueMeta`, `Persist`, `PersistSave`, `PersistReload` | the persisted-definitions file: its text, its value-type metadata, its order, and what reloads |
| `Bytes`, `Buffers`, `Decimal`, `Utf8`, `Wrappers` | bytes, big-endian integers, lexicographic order, an output buffer, decimal numerals, UTF-8, `Option` and `Result` |

Text is its UTF-8 bytes except in `Base32` and `OpDiscovery`, which work on characters. Code that updates
state in place is a method or class proved against a specification function; the laws are lemmas about those
functions. Randomness, clocks, keyed hashes, curve arithmetic, the resolver's answers and the `op` tool's replies
are parameters; replies may depend on how many calls came before. The approval helper's main queue is
over-approximated: a step may run at any time after it is enabled, in any order.

Where the code and what is said about it differ, the model follows the code:

- `VaultSizes.FileLimitAdmitsIff`: the comment on the file-size limit says it covers every legal vault; it does so
  exactly up to 42 slots, while 1024 are legal.
- `Base32.AcceptsAsDocumentedIff`, `Base32.MisreadExample`: the decoder is said to refuse every character outside
  the alphabet; a character above U+00FF whose low byte is in the alphabet is read as that letter.
- `OpAgreement.SeedAgreesIff`, `OpAgreement.VaultByIdExample`: the seed is said to offer exactly what the source
  would have listed live; a source that names its vault by id discovers keys and then seeds none of them.
- `PersistReload.ReloadIff`, `PersistReload.LineBreakExample`, `PersistReload.LeadingZeroRefused`: the saved file is
  said to round-trip. One control character in an argument, other than a tab, makes the whole file unreadable. So
  does a one-time-code parameter the command line accepts as a number and keeps as text, such as `--otp-digits 08`:
  the metadata lines are printed raw, and TOML has no leading zeros.
- `Mpint.AgreesWithMpintIff`: the fallback reader is said to read a real mpint; a negative one is read as unsigned.
- `Claim.AcceptedTokenIsMintedIff`: the token parser checks the shape only, and admits texts no token has.

## Model

| member | source | states |
|---|---|---|
| `Refs.MatchReferenceKey` | crates/cache-warden-cli/src/refs.rs:41-55 | a key is found exactly when the text starts with an identifier byte, and lies within the text |
| `Refs.MatchIsLongestKey` | crates/cache-warden-cli/src/refs.rs:41-55 | the matcher answers n exactly when the first n bytes are the longest prefix that is `KEY` or `NS/KEY` |
| `Refs.FindReferences` | crates/cache-warden-cli/src/refs.rs:108-135 | the scanning loop computes the specified list of spans |
| `Refs.SchemeHasNoBorder` | crates/cache-warden-cli/src/refs.rs:118-130 | two occurrences of the scheme never overlap, which is what makes jumping over a keyless one safe |
| `Refs.ScanFirst` | crates/cache-warden-cli/src/refs.rs:108-135 | the first span found is the first reference at or after the start; none found means none exists |
| `Refs.SwallowedOccurrence` | crates/cache-warden-cli/src/refs.rs:108-135 | an occurrence starting inside a span starts exactly five bytes before its end |
| `Refs.ScanUnique` | crates/cache-warden-cli/src/refs.rs:88-135 | sound and complete lists of spans are unique |
| `Refs.ReferencesCharacterised` | crates/cache-warden-cli/src/refs.rs:88-135 | the scanner returns a list if and only if its spans are in order, disjoint, each the scheme plus a maximal key, and every occurrence of a reference starts a span or lies inside one |
| `Namespace.SplitIffComposed` | crates/cache-warden-cli/src/namespace.rs:58-71 | a key splits into a pair exactly when the pair is two identifiers that compose to it |
| `Namespace.QualifyAbsolute` | crates/cache-warden-cli/src/namespace.rs:77-83 | a qualified key is absolute: qualifying again under any context changes nothing |
| `Namespace.ComposedOrder` | crates/cache-warden-cli/src/namespace.rs:58-60 | composed keys compare as (namespace, key) pairs |
| `Render.Render` | crates/cache-warden-cli/src/refs.rs:222-280 | the cursor loop computes the specified rendering |
| `Render.SpliceOwnTexts` | crates/cache-warden-cli/src/refs.rs:240-275 | splicing every reference's own text back gives the template byte for byte |
| `Render.DryRunHasNoReference` | crates/cache-warden-cli/src/refs.rs:137-144 | dry-run output holds no reference, in a gap, in a mask or across a splice, for every template and every answers |
| `Render.DryRunIsFixedPoint` | crates/cache-warden-cli/src/refs.rs:222-280 | rendering dry-run output again, in any mode and with any answers, is the identity without failures |
| `Render.DryRunNonInterference` | crates/cache-warden-cli/src/refs.rs:222-280 | dry-run output is equal for any two answer maps that agree on which keys succeeded |
| `Render.RevealFailsClosed` | crates/cache-warden-cli/src/refs.rs:222-280 | reveal succeeds exactly when no key failed, and otherwise names exactly the failed keys in increasing order |
| `Render.WholeValueIsSingleSpan` | crates/cache-warden-cli/src/refs.rs:61-67 | a whole-value key exists exactly when the scanner finds one span covering the string |
| `Render.ContainsReferenceIff` | crates/cache-warden-cli/src/refs.rs:72-74 | containment is the existence of an occurrence of a reference |
| `Render.Resolver.Resolve` | crates/cache-warden-cli/src/refs.rs:160-177 | one call, logged, with whatever answer the caller's resolver gives at that call |
| `Render.ResolveAll` | crates/cache-warden-cli/src/refs.rs:188-202 | the resolver is called on the sorted distinct qualified keys, once each, in that order |
| `Render.WantedKeysOnce` | crates/cache-warden-cli/src/refs.rs:188-202 | the keys asked for are strictly increasing and are exactly the qualified keys of the references |
| `Render.Inject` | crates/cache-warden-cli/src/commands/inject_cmd.rs:59-80 | scan, resolve and render compose to the specified result with the specified resolver calls |
| `Render.PipelineReveal` | crates/cache-warden-cli/src/commands/inject_cmd.rs:59-80 | through the pipeline a reveal succeeds exactly when every answer received was good |
| `VaultFormat.ParseSlotIff` | crates/cache-warden-vault/src/format.rs:432-478 | a slot parses to s exactly when the bytes are the encoding of a bounded s followed by the rest |
| `VaultFormat.ParseSlotsIff` | crates/cache-warden-vault/src/format.rs:600-625 | the same for any number of slots |
| `VaultFormat.ParseHeaderIff` | crates/cache-warden-vault/src/format.rs:567-640 | the same for the header, with supported ids and versions and distinct slot ids |
| `VaultFormat.DecodeIff` | crates/cache-warden-vault/src/format.rs:567-657 | decoding gives (f, aad) if and only if f is valid, the bytes are exactly its encoding and aad is exactly its encoded header |
| `VaultFormat.AadDeterminesHeader` | crates/cache-warden-vault/src/format.rs:506-524 | two accepted files with equal authenticated data have equal header fields, slots included |
| `VaultFormat.AcceptedFilesPrefixFree` | crates/cache-warden-vault/src/format.rs:567-657 | no accepted file is a proper prefix of another |
| `VaultFormat.HasDuplicate` | crates/cache-warden-vault/src/format.rs:567-657 | the duplicate check finds a repeated slot id exactly when there is one |
| `VaultCodec.Cursor.Take` | crates/cache-warden-vault/src/format.rs:676-683 | the cursor yields the next n bytes and stands behind them, or fails as truncated |
| `VaultCodec.Cursor.TakeBlob` | crates/cache-warden-vault/src/format.rs:701-707 | a length-prefixed field is read within its bound, in place |
| `VaultCodec.Cursor.TakeUtf8` | crates/cache-warden-vault/src/format.rs:709-714 | a text field is read in place and must be UTF-8 |
| `VaultCodec.Cursor.DecodeSlot` | crates/cache-warden-vault/src/format.rs:447-478 | reading a slot in place agrees with the specification, errors included |
| `VaultCodec.DecodeSlots` | crates/cache-warden-vault/src/format.rs:567-657 | the slot loop agrees with the specification |
| `VaultCodec.AnyDuplicate` | crates/cache-warden-vault/src/format.rs:567-657 | the nested loop decides whether two slots share an id |
| `VaultCodec.Decode` | crates/cache-warden-vault/src/format.rs:567-657 | the decoder as it runs computes the specified result, including which error comes first, on every byte string |
| `VaultCodec.EncodeSlotInto` | crates/cache-warden-vault/src/format.rs:432-445 | a slot is appended to the buffer as specified |
| `VaultCodec.EncodeHeaderBytes` | crates/cache-warden-vault/src/format.rs:508-524 | the header bytes are built as specified |
| `VaultCodec.Encode` | crates/cache-warden-vault/src/format.rs:526-533 | the file bytes are built as specified |
| `VaultSizes.FileLen` | crates/cache-warden-vault/src/format.rs:432-533 | a file takes 44 bytes, its slots, 8 bytes and its body; a valid slot takes at most 393362 bytes |
| `VaultSizes.FileLimitAdmitsIff` | crates/cache-warden-vault/src/format.rs:90-107 | the file-size limit admits every valid vault of n slots exactly when n is at most 42 |
| `VaultSizes.BindingAadInjective` | crates/cache-warden-vault/src/format.rs:405-425 | no two different slot bindings have the same associated data |
| `Approver.StepInv` | crates/cache-warden-approver/src/main.rs:298-502 | every step of every thread keeps the invariant of slots, channel and wire |
| `Approver.RunInv` | crates/cache-warden-approver/src/main.rs:298-502 | so does every interleaving |
| `ApproverSafety.ExactlyOnceInOrder` | crates/cache-warden-approver/src/main.rs:290-310 | in every interleaving each accepted request is queued, pending, being answered or answered, exactly one of these; answers come in request order with the outcome of whoever took the slot |
| `ApproverSafety.WaitNeverFails` | crates/cache-warden-approver/src/main.rs:1261-1281 | the reader's wait on its channel never fails in any reachable state |
| `ApproverSafety.WinnerTook` | crates/cache-warden-approver/src/main.rs:430-442 | a dialog's winner took its slot at a step of the run |
| `ApproverSafety.ApprovedOnlyByBiometry` | crates/cache-warden-approver/src/main.rs:687-726 | an approval was written only after a successful biometric completion of that request, a timeout only by its own timer |
| `ApproverSafety.LateFinalizersAreHarmless` | crates/cache-warden-approver/src/main.rs:469-502 | after the answer, timer and other finalizers change only that dialog's own handles |
| `ApproverSafety.TimerUnblocksReader` | crates/cache-warden-approver/src/main.rs:449-502 | from every state in which the reader waits for a dialog with a countdown, at most seven steps without a human make it read again |
| `ApproverSafety.NoStepDelays` | crates/cache-warden-approver/src/main.rs:449-502 | while the reader waits, no step of any thread takes it further from its answer, and a step that brings it no nearer leaves the next step of its dialog the same |
| `ApproverSafety.FairSchedulesUnblock` | crates/cache-warden-approver/src/main.rs:449-502 | every schedule, however long and whoever else runs, that takes the next step of the dialog as often as its distance says, at most seven times, makes the reader read again |
| `ApproverSafety.ExplainerAnsweredOnce` | crates/cache-warden-approver/src/main.rs:916-1026 | an explainer is answered at most once, exactly when a grant was seen or its window is gone, and the answer says which |
| `ApproverSafety.OneExplainerWindow` | crates/cache-warden-approver/src/main.rs:1037-1175 | the open flag is exactly the existence of a live window, of which there is at most one |
| `ApproverSafety.GrantedOnlyIfProbed` | crates/cache-warden-approver/src/main.rs:916-945 | a grant is reported only if a probe for that window returned true |
| `ApproverSafety.ExplainerNeverStallsApprovals` | crates/cache-warden-approver/src/main.rs:1240-1256 | approval and reader steps have the same effect whatever the explainer is doing |
| `ApproverSafety.ApprovalsIgnoreExplainer` | crates/cache-warden-approver/src/main.rs:916-1026 | explainer steps touch neither the reader nor the dialogs nor their responses |
| `ApproverHelper.Helper.TakeSlot` | crates/cache-warden-approver/src/main.rs:430-434 | taking empties the slot and yields what it held, as one atomic step |
| `ApproverHelper.Helper.Finalize` | crates/cache-warden-approver/src/main.rs:430-442 | a finalizer answers with its outcome exactly when it is the first to take the slot, as a run of atomic steps |
| `ApproverHelper.Helper.DisarmTimeout` | crates/cache-warden-approver/src/main.rs:444-447 | disarming releases the handles only |
| `ApproverHelper.Helper.WindowWillClose` | crates/cache-warden-approver/src/main.rs:393-405 | the closing window cancels if nobody answered, then disarms |
| `ApproverHelper.Helper.CancelClicked` | crates/cache-warden-approver/src/main.rs:364-388 | Cancel and the close it causes write one response at most |
| `ApproverHelper.Helper.CompletionBlock` | crates/cache-warden-approver/src/main.rs:687-726 | the completion answers Approved or BiometricFailed, or nothing if it lost |
| `ApproverHelper.Helper.TimerClosure` | crates/cache-warden-approver/src/main.rs:469-502 | the timer takes the handles first, then the slot, and answers Timeout only with both |
| `ApproverHelper.Helper.TakeHandles` | crates/cache-warden-approver/src/main.rs:469-480 | the timer takes the handles and is spent without them; they were gone only if the slot is empty |
| `ApproverHelper.Helper.TimerTakesSlot` | crates/cache-warden-approver/src/main.rs:469-480 | then it takes the slot, and holds the request if it won |
| `ApproverHelper.Helper.ReadLine` | crates/cache-warden-approver/src/main.rs:1201-1269 | one turn of the reader loop is one step of the machine, for every kind of line |
| `ApproverHelper.Helper.RefreshWindow` | crates/cache-warden-approver/src/main.rs:916-945 | a re-probe answers on a fresh grant only |
| `ApproverHelper.Helper.FinalizeWindow` | crates/cache-warden-approver/src/main.rs:977-1026 | ending the explainer answers Dismissed unless it was answered |
| `ApproverHelper.Helper.ShowWindow` | crates/cache-warden-approver/src/main.rs:1037-1175 | an explainer is shown only if none is open |
| `Hotp.TruncationIsValue31` | crates/cache-warden-cli/src/totp.rs:176-183 | for every digest of at least 19 bytes the masked shifts and ors are the low 31 bits of the big-endian window, in range |
| `Hotp.CodeDenotesTruncation` | crates/cache-warden-cli/src/totp.rs:135-147 | a code exists exactly for 1 to 9 digits, has that many decimal characters, and denotes the truncation modulo a power of ten |
| `Hotp.ShorterCodeIsSuffix` | crates/cache-warden-cli/src/totp.rs:135-147 | a shorter code is the tail of every longer one |
| `Hotp.CodeOfWindow` | crates/cache-warden-cli/src/totp.rs:150-156 | a time code is the counter code of its period, the same throughout it |
| `Base32.Base32Decode` | crates/cache-warden-cli/src/totp.rs:192-216 | the loop over a never-masked 64-bit accumulator computes the unbounded-integer decoding |
| `Base32.EncodedValue` | crates/cache-warden-cli/src/totp.rs:192-216 | the characters of section 6 of RFC 4648 spell the bytes' number followed by the fill bits |
| `Base32.DecodeInvertsEncode` | crates/cache-warden-cli/src/totp.rs:186-216 | any text whose characters, without padding and whitespace and whatever their case, are the letters of the encoding of nonempty bytes decodes to them |
| `Base32.RoundTrip` | crates/cache-warden-cli/src/totp.rs:192-216 | the padded encoding itself decodes to the bytes |
| `Base32.AcceptsAsDocumentedIff` | crates/cache-warden-cli/src/totp.rs:186-204 | acceptance agrees with the documented rule exactly when no character is misread, or something else is refused anyway |
| `Base32.MisreadExample` | crates/cache-warden-cli/src/totp.rs:186-204 | the one-character text U+0141 is accepted although documented as refused |
| `Claim.Base64UrlEncode` | crates/cache-warden-vault/src/claim.rs:166-184 | the chunk loop computes the specified encoding |
| `Claim.EncodeChunk` | crates/cache-warden-vault/src/claim.rs:169-182 | the masked shifts of a chunk's 24-bit word are its six-bit groups, one more than its bytes |
| `Claim.DecodesIffEncodes` | crates/cache-warden-vault/src/claim.rs:165-184 | a strict decoder of section 5 of RFC 4648 gives b from s exactly when s is the encoding of b |
| `Claim.EncodedLength` | crates/cache-warden-vault/src/claim.rs:166-188 | n bytes become (4n+2)/3 characters, all in the alphabet |
| `Claim.DecodableIff` | crates/cache-warden-vault/src/claim.rs:166-188 | a text decodes exactly when it is in the alphabet, of a possible length, with no stray bits at its end |
| `Claim.MintedTokenParses` | crates/cache-warden-vault/src/claim.rs:72-88 | every minted token parses to itself, and tokens are equal only for equal bytes |
| `Claim.AcceptedTokenIsMintedIff` | crates/cache-warden-vault/src/claim.rs:78-88 | an accepted token could have been minted exactly when the low four bits of its last character are clear |
| `Mpint.FirstNonzero` | crates/cache-warden-authsock/src/signer.rs:363-366 | the search loop finds where the leading zeros end |
| `Mpint.EncodeMpint` | crates/cache-warden-authsock/src/signer.rs:362-375 | the encoder appends the length-prefixed body to what was there |
| `Mpint.MpintIff` | crates/cache-warden-authsock/src/signer.rs:357-375 | the body is the one minimal two's-complement string with the number's value, section 5 of RFC 4251 |
| `Mpint.ScalarFitsIff` | crates/cache-warden-authsock/src/signer.rs:499-521 | for every width, an mpint normalises exactly when its value fits, and to that value |
| `Mpint.ScalarRoundTrip` | crates/cache-warden-authsock/src/signer.rs:499-521 | a fixed-width scalar survives encoding and normalising byte for byte, at every width |
| `Mpint.AgreesWithMpintIff` | crates/cache-warden-authsock/src/signer.rs:499-521 | on any bytes the normaliser gives the mpint's value exactly when that is not negative |
| `Mpint.EncodeSignatureBlob` | crates/cache-warden-authsock/src/signer.rs:93-100 | the blob is two length-prefixed strings |
| `Mpint.EcdsaBlob` | crates/cache-warden-authsock/src/signer.rs:333-356 | the signature blob is the name and the two mpints, nested |
| `Mpint.EcdsaBlobRoundTrip` | crates/cache-warden-authsock/src/signer.rs:333-375 | a verifier reads back the name and both fixed-width halves exactly |
| `SshWire.GetStringIff` | crates/cache-warden-authsock/src/message.rs:28-49 | a string reads to s exactly when the bytes are its prefix, s within the cap, and the rest |
| `SshWire.Reader.ReadString` | crates/cache-warden-authsock/src/message.rs:28-49 | the reader advances in place over what it returned, or fails as specified |
| `KeyFiles.ParseOpenSshEcdsaFallback` | crates/cache-warden-authsock/src/signer.rs:455-537 | the reader as it runs, from the lines of the PEM text to its padded buffer, computes the specified key or none |
| `KeyFiles.ParseContainer` | crates/cache-warden-authsock/src/signer.rs:469-537 | the same from the decoded container |
| `KeyFiles.JoinBody` | crates/cache-warden-authsock/src/signer.rs:459-463 | the loop joins the lines that do not start with five dashes |
| `KeyFiles.LinesOfEnded` | crates/cache-warden-authsock/src/signer.rs:459-463 | lines written with either line ending are read back as they were |
| `KeyFiles.PemBodyOf` | crates/cache-warden-authsock/src/signer.rs:459-463 | between two armour lines the joined body is found whole, with either line ending |
| `KeyFiles.PadScalar` | crates/cache-warden-authsock/src/signer.rs:520-521 | the fixed-width buffer is zeros followed by the magnitude |
| `KeyFiles.OuterIff` | crates/cache-warden-authsock/src/signer.rs:469-489 | the container parses to its fields exactly when it is their encoding, unencrypted, with one key |
| `KeyFiles.InnerIff` | crates/cache-warden-authsock/src/signer.rs:491-505 | the private section parses to its fields exactly when it is their encoding with equal check words |
| `KeyFiles.FallbackIff` | crates/cache-warden-authsock/src/signer.rs:446-537 | a key is read exactly from the PEM texts whose body lines decode to a container that describes it: matching names and an mpint normalising to its scalar |
| `KeyFiles.ContainerIff` | crates/cache-warden-authsock/src/signer.rs:469-537 | the same for a decoded container |
| `KeyFiles.FallbackRecoversScalar` | crates/cache-warden-authsock/src/signer.rs:500-521 | a scalar of the curve's width written as an mpint is recovered exactly, shorter and sign-padded ones included |
| `Pkcs8.ExtractEd25519Seed` | crates/cache-warden-authsock/src/signer.rs:705-760 | the searches and bounds checks compute the specified seed or error |
| `Pkcs8.ExtractIff` | crates/cache-warden-authsock/src/signer.rs:705-760 | a seed is extracted exactly from the blobs laid out around it: first identifier, first octet string, nested lengths |
| `Pkcs8.StandardEncoding` | crates/cache-warden-authsock/src/signer.rs:701-704 | the standard encoding, with anything after it, yields its seed |
| `OpDiscovery.FallbackFromCache` | crates/cache-warden-authsock/src/op_discovery.rs:191-230 | the fallback loop computes the seed |
| `OpDiscovery.OpKeyCache.MergeSource` | crates/cache-warden-authsock/src/op_discovery.rs:246-265 | the cache becomes its entries that do not belong to the source, in order, followed by the found ones |
| `OpDiscovery.ResolveOne` | crates/cache-warden-authsock/src/op_discovery.rs:289-314 | an item in the cache costs no call; any other costs exactly one |
| `OpDiscovery.DiscoverKeys` | crates/cache-warden-authsock/src/op_discovery.rs:108-162 | the discovery loops compute the specified outcome and exactly the specified calls, failures included |
| `OpDiscovery.IndexAppend` | crates/cache-warden-authsock/src/op_cache.rs:92-97 | in the fingerprint index later entries win |
| `OpAgreement.FreshIff` | crates/cache-warden-authsock/src/op_discovery.rs:108-162 | a discovery is fresh exactly when all listings are readable and all needed fetches succeed; then it returns one key per fingerprint in first-seen order and fetched each one missing from the cache once, nothing else |
| `OpAgreement.StaleIsSeed` | crates/cache-warden-authsock/src/op_discovery.rs:128-139 | a failed listing, wherever it comes, serves exactly the seed |
| `OpAgreement.WarmRestart` | crates/cache-warden-authsock/src/op_discovery.rs:114-161 | discovery again from the merged cache and the same listings fetches nothing and returns the same keys and cache |
| `OpAgreement.SeedAfterMerge` | crates/cache-warden-authsock/src/op_discovery.rs:175-265 | after a merge the seed is exactly the found keys with a public key that the sources match by name |
| `OpAgreement.SeedAgreesIff` | crates/cache-warden-authsock/src/op_discovery.rs:164-265 | the seed equals the usable discovered keys exactly when each listed item that is first with its fingerprint and has a public key is named by a source |
| `OpAgreement.SeedAgrees` | crates/cache-warden-authsock/src/op_discovery.rs:164-286 | they are equal whenever each listing a source asked for shows its items in the vault the source names; `VaultByIdExample` fails that and the agreement |
| `OpAgreement.VaultByIdExample` | crates/cache-warden-authsock/src/op_discovery.rs:267-286 | a source naming its vault by id discovers a key and seeds none |
| `OpAgreement.MergeKeepsSeed` | crates/cache-warden-authsock/src/op_discovery.rs:232-265 | a merge leaves every seed alone that neither the dropped nor the added entries are eligible for |
| `OpAgreement.OtherAccountsKeepSeed` | crates/cache-warden-authsock/src/op_discovery.rs:232-265 | no sequence of merges under other accounts changes a source's seed |
| `OpAgreement.EverySourceKeepsItsSeed` | crates/cache-warden-authsock/src/op_discovery.rs:232-265 | after any sequence of merges of different accounts every source's seed is its own found keys |
| `OpAgreement.OthersSurvive` | crates/cache-warden-authsock/src/op_discovery.rs:232-265 | entries that belong to no merged source and that no merge adds survive any sequence of merges in order, whatever account they are under |
| `OpAgreement.ForeignEntriesSurvive` | crates/cache-warden-authsock/src/op_discovery.rs:232-265 | so entries of no merged account, those without provenance included, survive in order |
| `AgentWire.TypeBytes` | crates/cache-warden-authsock/src/message.rs:97-127 | a type is read back from its byte; a byte is kept exactly when it is assigned or zero |
| `AgentWire.Encode` | crates/cache-warden-authsock/src/message.rs:349-356 | the message bytes are the length, the type byte and the payload |
| `AgentWire.Stream.Read` | crates/cache-warden-authsock/src/codec.rs:22-47 | reading consumes the stream as specified, for every byte string, whether it is then closed or broken |
| `AgentWire.Stream.Write` | crates/cache-warden-authsock/src/codec.rs:50-55 | writing extends the stream by the message's bytes |
| `AgentWire.ReadWritten` | crates/cache-warden-authsock/src/codec.rs:22-55 | a written message reads back with what follows it, or is refused with its length when over the limit |
| `AgentWire.StreamRoundTripIff` | crates/cache-warden-authsock/src/codec.rs:22-55 | a written list reads back as itself and then the stream's end or error exactly when every message is within 16 MiB |
| `AgentWire.OversizedStops` | crates/cache-warden-authsock/src/codec.rs:31-39 | the first oversized message stops the reader, after everything before it |
| `AgentWire.TruncatedStream` | crates/cache-warden-authsock/src/codec.rs:22-47 | a stream cut anywhere, closed or broken there, gives the whole messages before the cut, then its end if under four bytes of the next remain, else an error |
| `AgentWire.RewrittenIff` | crates/cache-warden-authsock/src/message.rs:349-368 | a read message writes back as the bytes it came from exactly when its type byte is assigned or zero |
| `AgentPayloads.ReadSizePrefixed` | crates/cache-warden-authsock/src/message.rs:28-49 | one labelled, capped field is read in place |
| `AgentPayloads.ReadIdentities` | crates/cache-warden-authsock/src/message.rs:232-268 | the identity loop computes the specified list or error |
| `AgentPayloads.BuildIdentitiesAnswer` | crates/cache-warden-authsock/src/message.rs:274-293 | the payload is the count and then each blob and comment |
| `AgentPayloads.IdentitiesAcceptedIff` | crates/cache-warden-authsock/src/message.rs:232-268 | a payload is accepted exactly when it is a count of at most 10000, that many capped pairs, and anything after |
| `AgentPayloads.IdentitiesRoundTripIff` | crates/cache-warden-authsock/src/message.rs:232-293 | a built list reads back as itself exactly when it is within the caps, whatever trails it |
| `AgentPayloads.ReadSignRequest` | crates/cache-warden-authsock/src/message.rs:312-333 | the request parser as it runs computes the specified fields or error |
| `AgentPayloads.SignRequestIff` | crates/cache-warden-authsock/src/message.rs:312-333 | a request is accepted exactly when it is two capped strings and a tail, whose first four bytes are the flags if there are four |
| `TomlText.TwoReplacesEscapeEach` | crates/cache-warden-cli/src/defs.rs:406-408 | the two sequential replacements are one escape of each character |
| `TomlText.StringRoundTripIff` | crates/cache-warden-cli/src/defs.rs:406-408 | a printed string reads back under TOML v1.0.0 exactly when it has no control character other than tab, else it is no TOML |
| `TomlText.ValueRoundTripIff` | crates/cache-warden-cli/src/defs.rs:425-431 | the same for arrays of strings |
| `TomlText.KeyRoundTripIff` | crates/cache-warden-cli/src/defs.rs:413-422 | the same for keys, bare or quoted |
| `TomlText.FieldRoundTripIff` | crates/cache-warden-cli/src/defs.rs:368-402 | the same for a whole line with its dotted path |
| `TomlText.IntegerRoundTrip` | crates/cache-warden-cli/src/defs.rs:349-354 | a printed 64-bit integer reads back, whatever follows it other than a digit |
| `TomlText.HeaderRoundTrip` | crates/cache-warden-cli/src/defs.rs:323-332 | a table header reads back as its namespace and key |
| `TomlText.TablesRoundTripIff` | crates/cache-warden-cli/src/defs.rs:316-431 | a document of tables of strings, arrays and integers reads back as its tables in order exactly when everything in it is printable, else it is no TOML |
| `Persist.ReadTableIff` | crates/cache-warden-cli/src/defs.rs:281-304 | a printed table with canonical metadata is read as its definition, namespace pinned, exactly when its argv is nonempty or its URI has the `op` scheme |
| `ValueMeta.ReadMetaCanonical` | crates/cache-warden-cli/src/config.rs:806-858 | metadata that validation accepts is canonical: no label and no parameters, or `otp` with a digit count of 1 to 9, a positive period and a lower-case algorithm, as canonical numerals and labels |
| `ValueMeta.MetaReadBack` | crates/cache-warden-cli/src/config.rs:806-858 | canonical metadata is built again from its fields |
| `ValueMeta.MetaTextIsFields` | crates/cache-warden-cli/src/defs.rs:344-356 | the raw lines of canonical metadata are the lines of its fields, so nothing needed escaping |
| `Persist.PrintedTtlReadsBack` | crates/cache-warden-cli/src/protocol/duration.rs:35-55 | the TTL grammar reads back every printed number of seconds, so it is a reader the reload theorem speaks of |
| `Persist.EnvRoundTrip` | crates/cache-warden-cli/src/defs.rs:380-390 | the environment lines rebuild the same sorted map |
| `PersistSave.SerializeSource` | crates/cache-warden-cli/src/defs.rs:368-402 | the source lines are pushed as specified |
| `PersistSave.SerializeTtl` | crates/cache-warden-cli/src/defs.rs:337-342 | a TTL printed unescaped between quotes is the same line as an escaped one |
| `PersistSave.SerializeMeta` | crates/cache-warden-cli/src/defs.rs:344-356 | the metadata lines are pushed raw, as specified |
| `PersistSave.SerializeDefinitions` | crates/cache-warden-cli/src/defs.rs:316-360 | the loop over the sorted copy prints the specified document |
| `PersistReload.ParsePersisted` | crates/cache-warden-cli/src/defs.rs:262-304 | the nested loops over the parsed maps compute the specified list, metadata included, or fail |
| `PersistReload.NestedOrderOfSorted` | crates/cache-warden-cli/src/defs.rs:262-304 | tables in composed-key order are exactly in the order of the nested maps |
| `PersistSave.SortDistinct` | crates/cache-warden-cli/src/defs.rs:319-320 | sorting keeps whether two definitions share a composed key |
| `PersistReload.ReloadIff` | crates/cache-warden-cli/src/defs.rs:281-360 | a saved file loads as its definitions, pinned and in composed-key order, exactly when keys are distinct, strings printable, sources admissible and metadata canonical |
| `PersistReload.CanonicalReload` | crates/cache-warden-cli/src/defs.rs:281-360 | with canonical metadata the other three conditions decide between that list and a refusal of the whole file |
| `PersistReload.ReadEachCanonical` | crates/cache-warden-cli/src/config.rs:806-858 | no table loads with metadata that is not canonical |
| `PersistReload.SnapshotReloadsIff` | crates/cache-warden-cli/src/defs.rs:70-106 | a snapshot reloads as the very same list exactly when strings are printable, sources admissible and metadata canonical |
| `PersistReload.LineBreakExample` | crates/cache-warden-cli/src/defs.rs:406-408 | one argument with a line break makes a file that does not load |
| `PersistReload.LeadingZeroRefused` | crates/cache-warden-cli/src/commands/mod.rs:128-151 | a digit count kept with a leading zero makes a file that does not load, whatever else the definition holds |
| `PersistReload.LeadingZeroExample` | crates/cache-warden-cli/src/commands/mod.rs:128-151 | `--type otp --otp-digits 08` is such a definition, with distinct keys, printable strings and an admissible source |

## Left out

- PersistReload.ReloadIff: TTLs are read by any function that reads back what is printed, of which `Persist.ParseDuration` (without whitespace trimming) is one.
- PersistReload.ParsePersisted: every error is one `None`; which error comes first and its message are not modelled.
- TomlText.TablesRoundTripIff: the reader covers what the printers are meant to write (tables, dotted keys, basic strings, arrays of them, decimal integers); hexadecimal and underscored integers, `u` escapes, literal and multi-line strings, comments and other value types are not read. Since validation accepts canonical metadata only (`ValueMeta.ReadMetaCanonical`), a raw metadata line in such a form reloads as something else than was saved, or not at all.
- KeyFiles.FallbackIff: base64 decoding, the string reader's size cap and the curve library's check of the scalar are parameters.
- Hotp.CodeDenotesTruncation: the keyed hash is a parameter of known output length.
- AgentPayloads.IdentitiesAcceptedIff: the public key parsed from a blob is a function of the blob and is not modelled; lossy UTF-8 conversion is a parameter that keeps well-formed text.
- AgentWire.Stream.Read: a broken stream gives one error whatever the system's reason; a failed read uses up what was left.
- ApproverSafety.ExactlyOnceInOrder: a failed write to the daemon's socket counts as a write, as in the code, which ignores its result.
- OpAgreement.SeedAgrees: assumes the `op` tool lists a vault's items under the name it was asked for; `OpAgreement.SeedAgreesIff` says exactly what fails otherwise.
- Claim and compare-and-swap transitions, slot addition and removal, unlocking and storage commits: their code is not part of this model.
- The store's TTL, pinning and back-off, the daemon, sockets, files, processes, clocks and environment variables.
- AppKit, LocalAuthentication, libdispatch and privacy-database calls, apart from the slots, flags, queue and channel they act on.
- Cryptography: HMAC, HKDF, AEAD, X25519, RSA, ECDSA and Ed25519; PEM, DER and COSE libraries; the vault's sealed body.
- `otpauth` URIs and seed overrides: percent decoding and parameter parsing.
- JSON, configuration validation, command-line grammars, help text and namespace precedence: one-branch code.
