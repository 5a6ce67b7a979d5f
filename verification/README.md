# Verified models of the platform root of trust

A Dafny model of five parts of the ASPEED root-of-trust firmware, with proofs of what
they are relied on for. `dafny verify dfyconfig.toml` checks everything.

**Hash-based signatures** (`Lmots`, `LmotsContexts`, `Merkle`, `Lms`, `LmsContexts`,
`LmsParams`, `MessageBinding`, `HashUses`, `LmsLayout`). LM-OTS and LMS after RFC 8554.
`HashEngines` treats SHA-256 as any function to 32 bytes that may be reported as failing,
and the random source as a stream with a status. Functions define chains, digits, tree nodes, signatures and verdicts;
the classes keep the flat key buffers, the in-place tree and the flags as the program
does and are proved against them. Heights and lengths are symbolic in the lemmas and
come from the two parameter sets at the end. The main results are the end-to-end
theorem over runs of sign calls, one-time use, path binding and, in `MessageBinding`, that
an accepted signature is of one message up to a named collision or a walk down a hash
chain. `HashUses` and `LmsLayout` write out what is hashed and where
everything is.

**Platform state machine** (`PfrTypes`, `PfrUpdate`, `PfrMachine`, `PfrHandlers`, `PfrRuns`,
`PfrTransitions`, `LateRequests`, `PfrStateMachine`). The event loop in the Cerberus
configuration without attestation, seamless and CPLD update. A run interleaves the machine's turns, the posts of its running
handler and events of other threads; update requests arrive only in T0. `PfrRuns` proves
the queue invariant and what RUNTIME means, `PfrTransitions` what each event achieves in
states and posts, and `LateRequests` that the assumption on requests is needed for
RUNTIME; `PfrUpdate` the two-phase recovery update; `PfrHandlers` what resets and
recoveries achieve. `PfrStateMachine` runs the event loop on one object and keeps the invariant.
The hardware, the images and the flash enter as values that each turn meets.

**Secured SPDM channel** (`SpdmCrypto`, `SpdmChannel`, `SpdmEndpoint`). AES-GCM and HKDF
are uninterpreted, with the laws that decryption inverts encryption and that lengths are
as asked. Two endpoints exchange messages over two lossless in-order directions. Keys are tied
to the secrets they are expanded from, and messages are given byte by byte.

**Key manifests, cancellation, version numbers** (`KeyManifests`, `KeyCancellation`,
`ManifestLayout`, `StaleHashes`, `ProvisionUfm`, `Svn`, `ProvisionRuns`,
`ProvisionStore`). Slots in NOR flash with 4096-byte erase pages, policy bytes, and the two-word version encoding, each flash
operation with its own success. `ProvisionRuns` mixes appends, cancellations, updates and
recovery checks; its main result is that a key that was found and cancelled is found in the
same place and refused for good.

**Page-write splitter** (`FlashWriter`). The transfers of one write in 32-bit arithmetic.

`Options`, `Bytes` and `Bits` hold the shared vocabulary.

Where the code departs from what it says or implements, the code is modelled:

- LMS verification accepts only LM-OTS N32_W8, so that N24 signatures, though the
  candidate is right, never verify; and it does not compare the type fields with the
  key's types.
- N24 keys are generated in rows 32 bytes apart but hashed at a stride of 24. Signing and
  public-key derivation read them alike, which is all the scheme needs.
- The comment that a PCH intent has access to four bits only holds because the mailbox
  masks it: the update loop masks the event after it has taken the regions.
- Cancelling a key looks at every hash in a manifest, the search for a key only at as many as
  the manifest counts. A stale hash in an earlier slot takes the cancellation: it succeeds and
  the key stays valid. The exact condition is proved, and a store in which it happens.
- An append that fails after its erase can lose the manifest that shares the page; when it
  does, and which appends cannot, is proved as an exact condition.
- The last write of the provisioning flash is not checked: cancellation and version
  results are stated for writes that are stored, and what a lost one does is stated too.

## Model

| member | source | states |
|---|---|---|
| `Lms.IssuedSignaturesVerify` | lib/lms/lms.c:450-575 | end to end: in every run of sign calls from a generated key, for any messages, random streams, buffer sizes and failures, each signature issued is accepted under the key's public key, whenever in the run that was calculated, exactly when the LM-OTS type is N32_W8 |
| `Lms.SignatureVerifies` | lib/lms/lms.c:520-575 | one signature of the next leaf is accepted if and only if the type is N32_W8 |
| `Lms.SignatureRoot` | lib/lms/lms.c:539-572 | the verifier's root candidate for a signature, for both type pairs, is the tree's root |
| `Lms.SignatureFields` | lib/lms/lms.c:890-939 | the verifier cuts out of a signature the leaf number, one-time signature, types and path that the signer put in |
| `Lms.SignatureBinding` | lib/lms/lms.c:450-575 | two accepted signatures with one leaf number agree on the leaf's candidate key and on every path node, or one of two named pairs is a collision of the truncated hash: the two leaf inputs that the verifications hash, with the paths equal, or the two node inputs that they hash at one height, with the path nodes above equal |
| `MessageBinding.MessageBinding` | lib/lms/lms.c:450-575 | two accepted signatures of one leaf, of any two messages: their verifications meet in a collision of leaf or node inputs as above, or they have one one-time key, and then they are of one message and randomizer, or show a collision of the two message strings, of the two strings of chain ends or of two inputs of one chain step, or the second contains, at a lower digit, a value that walks up to the first's |
| `MessageBinding.OneSignatureOneMessage` | lib/lms/lms.c:450-575 | one signature accepted for two messages: they are equal, or one of the named collisions or walks is at hand |
| `MessageBinding.OtsBinding` | lib/lms/lmots.c:684-735 | the same for one-time signatures with one candidate key |
| `MessageBinding.DigestBinding` | lib/lms/lmots.c:252-257 | one digest for two messages: messages and randomizers are equal, or key identifier, leaf number, 0x8181, randomizer and message of the one collide with those of the other on the hash length |
| `MessageBinding.KeyBinding` | lib/lms/lmots.c:491-584 | one one-time public key for two arrays of chain ends: they are equal, or the two strings hashed collide |
| `MessageBinding.WalkBinding` | lib/lms/lmots.c:371-440 | two walks over the same steps that end alike started alike, or two inputs of one step collide |
| `MessageBinding.LowerDigit` | lib/lms/lmots.c:121-132 | for two digests some chain, checksum included, has the lower digit in the second |
| `MessageBinding.DerivedRowBinding` | lib/lms/lmots.c:852-935 | one derived row for two seeds or two row numbers: they are equal, or the two strings hashed collide |
| `HashUses.UsesApart` | lib/lms/lmots.c:174-290 | domain separation, with every string written out byte by byte: under one key identifier no two different uses, a chain step, a one-time key, a message, a derived row, a leaf or a node, of any place in the tree or the chains, hash one string |
| `HashUses.ChainStepHashes` | lib/lms/lmots.c:371-440 | a chain step hashes identifier, leaf, chain, step and value |
| `HashUses.KeyHashes` | lib/lms/lmots.c:491-584 | a one-time key hashes identifier, leaf, 0x8080 and the chain ends |
| `HashUses.MessageHashes` | lib/lms/lmots.c:174-290 | a message digest hashes identifier, leaf, 0x8181, randomizer and message |
| `HashUses.DerivedRowHashes` | lib/lms/lmots.c:852-935 | a derived row hashes identifier, leaf, row, 0xFF and seed |
| `HashUses.LeafHashes` | lib/lms/lms.c:122-225 | a leaf hashes identifier, node number, 0x8282 and the one-time key |
| `HashUses.NodeHashes` | lib/lms/lms.c:249-365 | an inner node hashes identifier, node number, 0x8383 and both children |
| `LmsLayout.AcceptedExactly` | lib/lms/lms.c:450-575 | the verdict in plain numbers: accepted exactly for the one accepted key type, the signature's length, known types, a leaf of the tree, a readable message and the key's root |
| `LmsLayout.RefusedExactly` | lib/lms/lms.c:450-575 | which of the two errors every other verification gives |
| `LmsLayout.SignRefusals` | lib/lms/lms.c:861-888 | which error a sign call refuses with, before it touches anything; any other failure costs one leaf |
| `LmsLayout.OtsAcceptedExactly` | lib/lms/lmots.c:737-783 | the same for a one-time signature |
| `LmsLayout.IssuedLayout` | lib/lms/lms.c:861-939 | a successful sign call wrote the next leaf's number, the randomizer drawn for this call, and each chain walked from the leaf's key row to the digit of this message |
| `LmsLayout.IssuedKey` | lib/lms/lms.c:890-916 | and left that leaf's key zero, the next leaf number one higher, and everything else alone |
| `LmsLayout.SignatureLayout` | lib/lms/lms.c:896-939 | where leaf number, one-time signature, type and path are in a signature |
| `LmsLayout.OtsSignatureLayout` | lib/lms/lmots.c:990-1081 | where type, randomizer and each chain's value are in a one-time signature |
| `LmsLayout.PathLayout` | lib/lms/lms.c:649-688 | the path node at height h is the other child of the parent of node (2^H + q) / 2^h |
| `LmsLayout.GeneratedLeaf` | lib/lms/lms.c:720-805 | a generated key byte by byte: each leaf has the key's identifier and its own number, and each byte of its private key is that of the hash of its row and the seed, or 0 |
| `LmsLayout.KeyOfChains` | lib/lms/lmots.c:954-988 | a one-time public key is the hash over the ends of all chains, each walked from its key row over steps 0 to 254 |
| `LmsLayout.PublicKeyLayout` | lib/lms/lms.c:418-448 | the bytes of an exported public key |
| `LmsLayout.OtsPublicKeyLayout` | lib/lms/lmots.c:650-682 | the bytes of an exported one-time public key |
| `LmsLayout.LmsImportExactly` | lib/lms/lms.c:377-416 | when an import succeeds, what it takes over, and that a refused one changes at most the type, and only to a known one |
| `LmsLayout.OtsImportExactly` | lib/lms/lmots.c:616-648 | the same for a one-time key, whose type is taken over whatever it is |
| `LmsLayout.Sizes` | lib/lms/mbedtls/lms.h:43-59 | the sizes of both parameter sets in numbers |
| `Lms.TypeFieldsNotCompared` | lib/lms/lms.c:485-518 | the type fields of a signature are only checked to be known types: changing one to another known type does not change the verdict (section 5.4.2 of RFC 8554 compares them) |
| `Lms.FreshKeyConsistent` | lib/lms/lms.c:720-805 | a generated key holds one usable one-time key for each leaf, each with its own public key |
| `Lms.StepKeeps` | lib/lms/lms.c:861-939 | whatever a sign call returns: every stored public key still belongs to its leaf, the next leaf number does not fall, spent leaves stay as they are |
| `Lms.IssuedLeafIsSpent` | lib/lms/lms.c:890-916 | an issued signature is of the next unused leaf, and from then on that leaf's private key is zero and marked gone |
| `Lms.IssuedLeavesIncrease` | lib/lms/lms.c:890-916 | over a run the leaf numbers of issued signatures strictly increase |
| `Lms.IssuedAtMostLeafCount` | lib/lms/lms.c:877-888 | over a run at most 2^H signatures are issued, counted against the leaves used up |
| `Lms.LmsExportAfterImport` | lib/lms/lms.c:377-448 | exporting an imported public key gives back the imported bytes, whatever its types |
| `Lms.LmsImportAfterExport` | lib/lms/lms.c:377-448 | importing an exported key succeeds exactly for the supported types and restores types, key identifier and root; the whole context exactly when the unused root bytes agree |
| `LmsContexts.LmsPrivate.constructor` | lib/lms/lms.c:690-693 | an initialised context holds no key |
| `LmsContexts.LmsPrivate.GeneratePrivateKey` | lib/lms/lms.c:720-805 | fills the context with the key derived from seed and random identifier for all leaves, or leaves it empty; refuses unknown types and a context in use |
| `LmsContexts.LmsPrivate.Free` | lib/lms/lms.c:695-717 | a freed context holds no key |
| `LmsContexts.GenerateLeaves` | lib/lms/lms.c:774-796 | every leaf gets its derived key pair |
| `LmsContexts.LmsPrivate.CalculateMerkleTree` | lib/lms/lms.c:593-635 | the reverse in-place fill leaves in node slot r the recursively defined tree node r, for all nodes |
| `LmsContexts.StoreLeaf` | lib/lms/lms.c:600-619 | one leaf pass extends the filled part of the tree buffer |
| `LmsContexts.StoreInternal` | lib/lms/lms.c:621-634 | one internal pass reads both children from the buffer and stores their parent |
| `LmsContexts.LmsPrivate.GetMerklePath` | lib/lms/lms.c:649-688 | writes the siblings of the leaf's ancestors, or nothing at all |
| `LmsContexts.LmsPrivate.Sign` | lib/lms/lms.c:861-939 | the context changes as a sign step says: the number of the leaf used moves on before anything can fail, the signature is complete on success, and the buffer is untouched unless a leaf was spent |
| `LmsContexts.LmsPrivate.Issue` | lib/lms/lms.c:896-939 | the signature is written in place, one-time part first; a leaf key is spent only with a complete one-time signature |
| `LmsContexts.LmsPublic.CalculatePublicKey` | lib/lms/lms.c:807-858 | stores the tree's root; a failure after the parameters were taken over leaves the root and the flag |
| `LmsContexts.LmsPublic.ImportPublicKey` | lib/lms/lms.c:377-416 | the context after an import, including the type stored before the later checks fail |
| `LmsContexts.LmsPublic.ExportPublicKey` | lib/lms/lms.c:418-448 | writes the encoding and its length, or nothing |
| `LmsContexts.LmsPublic.Verify` | lib/lms/lms.c:450-575 | with working hash calls, and without them whenever a check before the comparison of roots fails, returns exactly the verdict of the specification |
| `LmsContexts.ClimbLevel` | lib/lms/lms.c:545-567 | one level of the verify loop, whose output buffer is one of its inputs, computes the parent of the running value and the path node |
| `LmsContexts.ReadFields` | lib/lms/lms.c:485-518 | the parsed leaf number and whether both type fields are known types |
| `Merkle.ClimbFollowsTree` | lib/lms/lms.c:545-567 | with the signer's path, the verifier's value at each height is the tree node numbered (2^H + q) shifted right by that height |
| `Merkle.ClimbReachesRoot` | lib/lms/lms.c:539-572 | the climb ends at the root, for every tree and leaf |
| `Merkle.PathBinding` | lib/lms/lms.c:539-572 | two climbs from one leaf number that meet used the same leaf value and path nodes, or the very inputs that they hash at the height returned are a collision, and above it the path nodes are the same |
| `Merkle.ClimbsMeet` | lib/lms/lms.c:539-572 | the exact condition: two climbs meet if and only if leaf value and path nodes are the same, or they collide at some height with the same path nodes above it |
| `Merkle.ParentOfSiblings` | lib/lms/lms.c:621-634 | a node and its sibling, in the order of their numbers, hash to their parent |
| `Merkle.LeafPathInside` | lib/lms/lms.c:649-688 | in a tree of 2^H leaves every ancestor of a leaf and its sibling is a node, and the ancestor at height H is the root |
| `Merkle.SiblingIsXorOne` | lib/lms/lms.c:671-680 | the sibling of a node is its number with the lowest bit flipped, on 32-bit numbers |
| `Merkle.AncestorIsShift` | lib/lms/lms.c:545-567 | repeated halving of a node number is a right shift |
| `Merkle.CreateMerkleLeafValue` | lib/lms/lms.c:122-225 | writes the leaf hash of section 5.3 of RFC 8554 at an offset, or nothing |
| `Merkle.CreateMerkleInternalValue` | lib/lms/lms.c:249-365 | writes the internal hash, also when the output overwrites an input |
| `Lmots.SignatureReproducesPublicKey` | lib/lms/lmots.c:684-735 | for every key buffer, message, randomizer and parameter set the candidate of a signature is the public key (sections 4.3, 4.5, 4.6 of RFC 8554) |
| `Lmots.SplitWalk` | lib/lms/lmots.c:321-474 | hashing every chain to its digit and on to 255 equals hashing it from 0 to 255 |
| `Lmots.ChainCompose` | lib/lms/lmots.c:371-440 | a chain walked to b and on to c is walked to c |
| `Lmots.ChecksumPreventsDomination` | lib/lms/lmots.c:121-132 | for two different digests no digit string with its checksum is pointwise at most the other (section 4.4 of RFC 8554) |
| `Lmots.ChecksumFits` | lib/lms/lmots.c:121-132 | the checksum fits its two bytes: the 16-bit arithmetic never truncates |
| `Lmots.EveryMessageHashes` | lib/lms/lmots.c:336-362 | for every message both the signing and the candidate pass make at least one hash step, so that the initial error status cannot survive |
| `Lmots.HashChain` | lib/lms/lmots.c:348-440 | the inner loop walks one chain in the temporary buffer and leaves the status of the last step |
| `Lmots.HashDigitArray` | lib/lms/lmots.c:321-474 | all chains are hashed between their bounds; with working hash calls it succeeds exactly when some chain has a step |
| `Lmots.ChecksumCalculate` | lib/lms/lmots.c:121-132 | the loop computes the checksum of the digest bytes |
| `Lmots.CreateDigitArrayWithChecksum` | lib/lms/lmots.c:174-290 | the message digest with its two checksum bytes |
| `Lmots.PublicKeyFromHashedDigitArray` | lib/lms/lmots.c:491-584 | the public key hash over the chain ends |
| `Lmots.CalculatePublicKeyCandidate` | lib/lms/lmots.c:684-735 | the candidate, with the error for each bad size and the output unchanged on any failure |
| `LmotsContexts.OtsSignThenVerify` | lib/lms/lmots.c:737-783 | a one-time signature verifies under its public key exactly for N32_W8 |
| `LmotsContexts.ChainStartsAtDerivedRow` | lib/lms/lmots.c:852-935 | for N32 the key rows stored 32 apart are the chain starts read at the hash stride |
| `LmotsContexts.GeneratedKeyByte` | lib/lms/lmots.c:852-935 | each byte of a generated key buffer, for both types: rows 32 apart, zero between |
| `LmotsContexts.OtsExportAfterImport` | lib/lms/lmots.c:616-682 | exporting an imported one-time public key gives back the imported bytes |
| `LmotsContexts.OtsImportAfterExport` | lib/lms/lmots.c:616-682 | importing an exported key restores it; the whole context exactly when the unused bytes agree |
| `LmotsContexts.LmotsPrivate.constructor` | lib/lms/lmots.c:787-790 | an initialised context holds no key |
| `LmotsContexts.LmotsPrivate.GeneratePrivateKey` | lib/lms/lmots.c:798-952 | derives every row from the seed; refuses unknown types and a context in use |
| `LmotsContexts.LmotsPrivate.Sign` | lib/lms/lmots.c:990-1081 | on success the signature is written and the key is erased; on any failure both the caller's buffer and the key are unchanged; each error condition |
| `LmotsContexts.LmotsPublic.constructor` | lib/lms/lmots.c:606-609 | an initialised context holds no key |
| `LmotsContexts.LmotsPublic.ImportPublicKey` | lib/lms/lmots.c:616-648 | the context after an import, also when it is refused |
| `LmotsContexts.LmotsPublic.ExportPublicKey` | lib/lms/lmots.c:650-682 | writes the encoding and its length, or nothing |
| `LmotsContexts.LmotsPublic.CalculatePublicKey` | lib/lms/lmots.c:954-988 | stores the public key of the private key, or changes nothing |
| `LmotsContexts.LmotsPublic.Verify` | lib/lms/lmots.c:737-783 | accepts only what the specification accepts, and with working hash calls exactly that |
| `Bytes.EncodeThenDecode` | lib/lms/lmots.c:87-108 | big-endian decoding inverts encoding within the width |
| `Bytes.DecodeThenEncode` | lib/lms/lmots.c:87-108 | big-endian encoding inverts decoding |
| `Bytes.UnsignedIntToNetworkBytes` | lib/lms/lmots.c:87-95 | the loop writes the encoding in place and nothing else |
| `Bytes.NetworkBytesToUnsignedInt` | lib/lms/lmots.c:97-108 | the loop reads the encoded number |
| `LmsParams.SigDigitCount` | lib/lms/mbedtls/lms.h:43-59 | for the known types the number of digits is the hash length plus two checksum bytes |
| `PfrRuns.RuntimeIsVerified` | apps/aspeed-pfr/src/AspeedStateMachine/AspeedStateMachine.c:2129-2421 | in every run, being in RUNTIME implies that the latest verification ended with VERIFY_DONE and found the active BMC image good, and all four images unless it followed a recovery |
| `PfrRuns.VerdictTakenIsLatest` | apps/aspeed-pfr/src/AspeedStateMachine/AspeedStateMachine.c:2178-2205 | a verdict, VERIFY_DONE among them, taken in FIRMWARE_VERIFY is the latest verification's, with only other threads' events behind it |
| `PfrRuns.TakeKeepsMachineOk` | apps/aspeed-pfr/src/AspeedStateMachine/AspeedStateMachine.c:2134-2420 | one turn of the loop keeps the queue invariant in all ten states, leftovers of failed updates included, and never enters the update loop with an intent for which it would not end |
| `PfrRuns.RunKeepsMachineOk` | apps/aspeed-pfr/src/AspeedStateMachine/AspeedStateMachine.c:2129-2421 | the queue invariant, the image invariant and the origin of every pending recovery update hold in every reachable machine |
| `PfrRuns.NeverWaitsOutsideTzero` | apps/aspeed-pfr/src/AspeedStateMachine/AspeedStateMachine.c:2129-2421 | outside T0, lockdown and reboot one of the machine's own events is queued or about to be, and its next step is enabled |
| `PfrRuns.LockdownStays` | apps/aspeed-pfr/src/AspeedStateMachine/AspeedStateMachine.c:2083-2098 | lockdown is never left |
| `PfrTransitions.ResetIsVerified` | apps/aspeed-pfr/src/AspeedStateMachine/AspeedStateMachine.c:2233-2241 | in every run a detected reset taken in RUNTIME or UNPROVISIONED leads to FIRMWARE_VERIFY with exactly the outcome of a new verification posted: of the BMC only, but for the first reset after provisioning |
| `PfrTransitions.InitIsVerified` | apps/aspeed-pfr/src/AspeedStateMachine/AspeedStateMachine.c:2155-2159 | a finished initialisation is followed by a verification |
| `PfrTransitions.RecoveryIsVerified` | apps/aspeed-pfr/src/AspeedStateMachine/AspeedStateMachine.c:2203-2207 | a recovery that got something done is followed by a verification, in the scope it was given, that asks for a good active BMC image only |
| `PfrTransitions.FailedUpdateIsVerified` | apps/aspeed-pfr/src/AspeedStateMachine/AspeedStateMachine.c:2227-2229 | a failed update is followed by a verification in the update's scope |
| `PfrTransitions.FinishedUpdateIsVerified` | apps/aspeed-pfr/src/AspeedStateMachine/AspeedStateMachine.c:2216-2226 | a finished update is followed by a verification in the update's scope, or by a reboot exactly when it came from the BMC and wrote the ROT's active image |
| `PfrTransitions.VerdictReleases` | apps/aspeed-pfr/src/AspeedStateMachine/AspeedStateMachine.c:2184-2194 | VERIFY_DONE leads to RUNTIME and VERIFY_UNPROVISIONED to UNPROVISIONED, with nothing else changed |
| `PfrTransitions.FailureLocksDown` | apps/aspeed-pfr/src/AspeedStateMachine/AspeedStateMachine.c:2195-2210 | a failed recovery, taken in verification, in recovery or in the ROT's own, leads to lockdown |
| `PfrTransitions.FailureIsRecovered` | apps/aspeed-pfr/src/AspeedStateMachine/AspeedStateMachine.c:2187-2189 | VERIFY_FAILED leads to FIRMWARE_RECOVERY with one result of a recovery of both images posted, and the pending recovery update of a bad active image given up |
| `PfrTransitions.TimeoutIsRecovered` | apps/aspeed-pfr/src/AspeedStateMachine/AspeedStateMachine.c:2267-2276 | an expired boot timer in RUNTIME leads to the same, the image that did not boot counting as bad, exactly when its recovery is built in |
| `PfrTransitions.StartInitializes` | apps/aspeed-pfr/src/AspeedStateMachine/AspeedStateMachine.c:2147-2151 | the start event leads to INIT, with no image counted as good and one result posted |
| `PfrTransitions.SecondaryIsCopiedBack` | apps/aspeed-pfr/src/AspeedStateMachine/AspeedStateMachine.c:2160-2162 | a boot from the second ROT image leads to the copy back, with its result posted and its pending update given up |
| `PfrTransitions.CopiedBackReboots` | apps/aspeed-pfr/src/AspeedStateMachine/AspeedStateMachine.c:2167-2171 | which is followed by a reboot |
| `PfrTransitions.RequestIsUpdated` | apps/aspeed-pfr/src/AspeedStateMachine/AspeedStateMachine.c:2180-2183 | a request taken in FIRMWARE_VERIFY is carried out, its results posted |
| `PfrTransitions.RuntimeRequest` | apps/aspeed-pfr/src/AspeedStateMachine/AspeedStateMachine.c:2242-2261 | a request taken in RUNTIME is carried out, stored for the next reset, or dropped, each under its exact condition |
| `PfrTransitions.RequestScope` | apps/aspeed-pfr/src/AspeedStateMachine/AspeedStateMachine.c:340-453 | the scope that an update's results carry to the next verification: one side only, exactly when that side asked for just its own active image |
| `PfrTransitions.UnprovisionedRequest` | apps/aspeed-pfr/src/AspeedStateMachine/AspeedStateMachine.c:2347-2353 | in UNPROVISIONED only a request for the ROT's active image changes anything |
| `PfrTransitions.OtherEventsAreDropped` | apps/aspeed-pfr/src/AspeedStateMachine/AspeedStateMachine.c:2134-2420 | in each state every event that it does not answer to is taken off the queue and changes nothing |
| `PfrTransitions.RebootStartsOver` | apps/aspeed-pfr/src/AspeedStateMachine/AspeedStateMachine.c:2129-2132 | the reboot starts over with what is kept in flash |
| `PfrTransitions.UpdateReportsOutcome` | apps/aspeed-pfr/src/AspeedStateMachine/AspeedStateMachine.c:1524-1745 | what an update posts: one UPDATE_DONE is all exactly when every image update succeeded, otherwise each failure is reported; the last result is that of the last image updated, on behalf of the side that asked, and names exactly the active images written |
| `LateRequests.LateRequestBreaksRuntime` | apps/aspeed-pfr/src/AspeedStateMachine/AspeedStateMachine.c:1717-1730 | a counterexample from power-on: a run in which the platform enters RUNTIME and an update fails, then one update request that arrives in FIRMWARE_UPDATE between the two UPDATE_FAILED; it leads to RUNTIME with a bad active BMC image, so that the assumption on requests is needed |
| `LateRequests.FailedUpdateReached` | apps/aspeed-pfr/src/AspeedStateMachine/AspeedStateMachine.c:1717-1730 | the machine that the late request meets is reached in a run from power-on |
| `PfrHandlers.UpdatedImagesAreVerified` | apps/aspeed-pfr/src/AspeedStateMachine/AspeedStateMachine.c:340-453 | an update request taken in T0 is followed, whichever of its results leads there, by a verification that checks anew every BMC or PCH image the request names: the reset scope never leaves one out |
| `PfrHandlers.ResetScopeIsBmc` | apps/aspeed-pfr/src/AspeedStateMachine/AspeedStateMachine.c:340-453 | a detected reset is of the BMC only, except the first one after provisioning |
| `PfrHandlers.RecoveryImproves` | apps/aspeed-pfr/src/AspeedStateMachine/AspeedStateMachine.c:862-1021 | a recovery makes no image worse and an active image good only beside a good recovery image; it is reported as failed only when it changed nothing and the PCH needed nothing; and it ends the pending recovery update of exactly the region whose active image was bad, the PCH before the BMC |
| `PfrHandlers.RecoveryIsExact` | apps/aspeed-pfr/src/AspeedStateMachine/AspeedStateMachine.c:881-1001 | exactly which images are good after a recovery, from the reads and copies that succeeded, and when it counts as done |
| `PfrHandlers.RecoveredExactly` | apps/aspeed-pfr/src/pfr/pfr_recovery.c:35-197 | exactly what one attempt at one image leaves good or restricted, and when it fails |
| `PfrRuns.RecoveryWritesAreSecondPhase` | apps/aspeed-pfr/src/AspeedStateMachine/AspeedStateMachine.c:1360-1462 | in every run a recovery image is written only on a boot-done event that asks for it, for a pending region, and an earlier step of the run is the request that made it pending: its active update succeeded and the staging hash it cached is the one read again |
| `PfrRuns.OriginWasStarted` | apps/aspeed-pfr/src/AspeedStateMachine/AspeedStateMachine.c:1437-1461 | the origin kept with a pending update is that of a step of the run |
| `PfrUpdate.UpdateWrites` | apps/aspeed-pfr/src/AspeedStateMachine/AspeedStateMachine.c:1582-1734 | exactly which images one request writes, each at most once: the recovery image of a region if and only if it is requested with the boot-done flag, pending, and the staging hash equals the cached one; the active image if and only if it is requested or its recovery update is new |
| `PfrUpdate.PassClearsABit` | apps/aspeed-pfr/src/AspeedStateMachine/AspeedStateMachine.c:1596-1732 | a pass of the update loop clears a requested region bit for the BMC and PCH intents, and none for any other source: the loop ends exactly for the former |
| `PfrUpdate.PendingAfterUpdate` | apps/aspeed-pfr/src/AspeedStateMachine/AspeedStateMachine.c:1437-1461 | a requested recovery update is pending afterwards exactly when it is new and its active update returned success; one that was pending is over |
| `PfrUpdate.SecondPhaseIsRequested` | apps/aspeed-pfr/src/Smbus_mailbox/Smbus_mailbox.c:890-938 | the first phase is followed by the second: a recovery update whose active update succeeded is marked with the side that asked, and asked for again on its behalf once everything has booted, after any that the PCH has pending and for the PCH's image after the BMC's |
| `PfrUpdate.RecoveryFieldAfter` | apps/aspeed-pfr/src/AspeedStateMachine/AspeedStateMachine.c:1582-1734 | the recovery field that an update leaves for each region, for every course of the image updates |
| `PfrUpdate.UnwrittenPass` | apps/aspeed-pfr/src/AspeedStateMachine/AspeedStateMachine.c:1596-1732 | a pass that writes no image, its update being only passed over or its staging hash changed, reports the failure of the pass before once more and clears its own field then |
| `PfrUpdate.LoopHandled` | apps/aspeed-pfr/src/AspeedStateMachine/AspeedStateMachine.c:1360-1462 | which recovery images an update reports as handled |
| `PfrUpdate.WritesInOrder` | apps/aspeed-pfr/src/AspeedStateMachine/AspeedStateMachine.c:1596-1732 | images are updated in the order BMC, PCH, ROT |
| `PfrUpdate.StatusAfterUpdate` | apps/aspeed-pfr/src/AspeedStateMachine/AspeedStateMachine.c:1524-1745 | besides recovery fields an update changes only the mark that the BMC staged the PCH's image |
| `PfrUpdate.LoopHashes` | apps/aspeed-pfr/src/AspeedStateMachine/AspeedStateMachine.c:1437-1461 | the hash cached for a region is replaced exactly when a two-phase update starts |
| `PfrUpdate.RecoveryWriteIsSecondPhase` | apps/aspeed-pfr/src/AspeedStateMachine/AspeedStateMachine.c:1396-1435 | at a recovery write the staging hash is the cached one, and it was truly read unchanged exactly when both readings succeeded |
| `PfrUpdate.FailedReadingsMatch` | apps/aspeed-pfr/src/AspeedStateMachine/AspeedStateMachine.c:1370-1435 | the case that escapes: two failed readings compare equal and the recovery image is written |
| `PfrUpdate.LoopOrigins` | apps/aspeed-pfr/src/AspeedStateMachine/AspeedStateMachine.c:1437-1461 | an origin is recorded exactly when a two-phase update is started, with the staging reading and the active update's result |
| `PfrUpdate.LoopKeepsOrigins` | apps/aspeed-pfr/src/AspeedStateMachine/AspeedStateMachine.c:1582-1734 | a persisted pending state implies that its request's active update succeeded and that the cached hash is the one read then |
| `PfrUpdate.PchRequestsWriteOnlyPch` | apps/aspeed-pfr/src/AspeedStateMachine/AspeedStateMachine.c:1544-1560 | a PCH request writes only PCH images when its intent is masked before it is queued; the loop itself writes whatever is named |
| `PfrUpdate.BootCompleteFinishes` | apps/aspeed-pfr/src/Smbus_mailbox/Smbus_mailbox.c:890-938 | the boot-done request names only pending regions, writes no active image, writes a named recovery image exactly when its staging hash is unchanged, and leaves none of them pending |
| `PfrMachine.HasPendingUpdate` | apps/aspeed-pfr/src/AspeedStateMachine/AspeedStateMachine.c:579-648 | the update found at a reset covers exactly the images marked for it whose request is taken, with the source and the dynamic flag they were stored with, and just these requests are cleared; a BMC-only reset leaves the PCH request |
| `PfrMachine.AtResetRoundTrip` | apps/aspeed-pfr/src/AspeedStateMachine/AspeedStateMachine.c:1981-2034 | what a request for the next reset stores is what the next full verification asks for, but for the ROT recovery image and a dynamic flag without an active image |
| `PfrMachine.StoredForReset` | apps/aspeed-pfr/src/AspeedStateMachine/AspeedStateMachine.c:1981-2034 | the other fields of the status that such a request writes, and the PCH request that is refused |
| `PfrStateMachine.PlatformStateMachine.constructor` | apps/aspeed-pfr/src/AspeedStateMachine/AspeedStateMachine.c:2129-2132 | power-on: BOOT, with the start event queued |
| `PfrStateMachine.PlatformStateMachine.GenerateStateMachineEvent` | apps/aspeed-pfr/src/AspeedStateMachine/AspeedStateMachine.c:191-209 | appends one event to those the running handler posts |
| `PfrStateMachine.PlatformStateMachine.TakePendingUpdate` | apps/aspeed-pfr/src/AspeedStateMachine/AspeedStateMachine.c:579-648 | the in-place scan finds the specified update and clears the requests it takes |
| `PfrStateMachine.PlatformStateMachine.VerifyImages` | apps/aspeed-pfr/src/AspeedStateMachine/AspeedStateMachine.c:677-790 | the images' status after each reset policy, with the last results kept for the images not verified |
| `PfrStateMachine.PlatformStateMachine.Verify` | apps/aspeed-pfr/src/AspeedStateMachine/AspeedStateMachine.c:650-860 | posts exactly the specified verdict and updates images and persisted requests as specified |
| `PfrStateMachine.PlatformStateMachine.RecoverBothImages` | apps/aspeed-pfr/src/AspeedStateMachine/AspeedStateMachine.c:881-1001 | the recovery sequence over both images, with its result and the region whose pending update it ends |
| `PfrStateMachine.PlatformStateMachine.Recover` | apps/aspeed-pfr/src/AspeedStateMachine/AspeedStateMachine.c:862-1021 | the whole new state of a recovery |
| `PfrStateMachine.PlatformStateMachine.HandleRecoveryRequested` | apps/aspeed-pfr/src/AspeedStateMachine/AspeedStateMachine.c:1360-1462 | the decision for a recovery request and the status, regions and cached hash it leaves |
| `PfrStateMachine.PlatformStateMachine.UpdateOneRegion` | apps/aspeed-pfr/src/AspeedStateMachine/AspeedStateMachine.c:1596-1732 | one pass over the handler's variables is the specified pass |
| `PfrStateMachine.PlatformStateMachine.HandleUpdateRequested` | apps/aspeed-pfr/src/AspeedStateMachine/AspeedStateMachine.c:1524-1744 | the update loop ends and leaves the specified status, hashes and posted events |
| `PfrStateMachine.PlatformStateMachine.StoreForReset` | apps/aspeed-pfr/src/AspeedStateMachine/AspeedStateMachine.c:1981-2034 | the stored status of an update at reset |
| `PfrStateMachine.PlatformStateMachine.EnterTminus1` | apps/aspeed-pfr/src/AspeedStateMachine/AspeedStateMachine.c:340-453 | the reset scope written into the event |
| `PfrStateMachine.PlatformStateMachine.RunState` | apps/aspeed-pfr/src/AspeedStateMachine/AspeedStateMachine.c:2110-2127 | the run action of each state |
| `PfrStateMachine.PlatformStateMachine.TakeEvent` | apps/aspeed-pfr/src/AspeedStateMachine/AspeedStateMachine.c:2134-2420 | one turn of the event loop: the specified transition, entry action and run action |
| `PfrStateMachine.PlatformStateMachine.TryStep` | apps/aspeed-pfr/src/AspeedStateMachine/AspeedStateMachine.c:2129-2421 | from a state that satisfies the queue invariant every enabled step is carried out as specified, a turn always ends, and the invariant holds again |
| `PfrStateMachine.PlatformStateMachine.RunSchedule` | apps/aspeed-pfr/src/AspeedStateMachine/AspeedStateMachine.c:2129-2421 | the event loop against any schedule of other threads' events and of what turns meet: its states are a run of the specification, the queue invariant holds throughout, and RUNTIME is only entered with a verified BMC image |
| `SpdmChannel.Lockstep` | apps/aspeed-pfr/src/SPDM/SPDMMctpBinding.c:129-408 | over any interleaving of both directions with lossless in-order delivery, the ends of a direction are apart by exactly the messages under way, automatic re-keys included, and hold the same secret, key, salt and counter when there are none |
| `SpdmChannel.DeliveredIsSent` | apps/aspeed-pfr/src/SPDM/SPDMMctpBinding.c:129-259 | requester to responder: messages arrive in order and each is accepted as exactly the framed content sent, padding removed, precisely when it is shorter than 65536 bytes on the wire; only a receiver without the session rejects a genuine message |
| `SpdmChannel.DeliveredIsSentDown` | apps/aspeed-pfr/src/SPDM/SPDMMctpBinding.c:129-259 | the same from responder to requester |
| `SpdmChannel.OpenInvertsWire` | apps/aspeed-pfr/src/SPDM/SPDMMctpBinding.c:129-259 | decryption in the sender's state inverts encryption for every content and padding if and only if the whole message is shorter than 65536 bytes |
| `SpdmChannel.OpenTooLong` | apps/aspeed-pfr/src/SPDM/SPDMMctpBinding.c:248-252 | a longer message is never accepted, whatever the cipher makes of it: the length variable keeps its high half |
| `SpdmChannel.NoIvReuse` | apps/aspeed-pfr/src/SPDM/SPDMMctpBinding.c:352-384 | when two messages that one side encrypts in a run have the same key and the same IV, then the secrets of two different epochs expand to one key, for the requester and for the responder |
| `SpdmChannel.EpochAndIvDiffer` | apps/aspeed-pfr/src/SPDM/SPDMMctpBinding.c:352-384 | no two messages that one side encrypts in a run share both the key epoch and the IV |
| `SpdmChannel.SenderKey` | apps/aspeed-pfr/src/SPDM/SPDMKeyOperation.c:348-404 | over a run, from keys that are their secrets' own, either side encrypts with key and salt expanded from the secret of epoch (counter at the start + messages sent) / 10000 |
| `SpdmChannel.KeyOfEpoch` | apps/aspeed-pfr/src/SPDM/SPDMKeyOperation.c:348-404 | a direction that starts with its own secret's key and salt keeps that relation, and its secret in epoch e is the e-fold expansion of the first one with the label traffic upd |
| `SpdmChannel.UpdatedKeyed` | apps/aspeed-pfr/src/SPDM/SPDMKeyOperation.c:348-404 | a re-key expands the next secret from the old one, and key and salt from the next one, every label written out in bytes |
| `SpdmChannel.MessageBytes` | apps/aspeed-pfr/src/SPDM/SPDMMctpBinding.c:286-397 | a message byte by byte: type, session, counter, length, the encryption of length, content and padding under the sender's key and IV, and the tag over the eight header bytes |
| `SpdmChannel.IvBytes` | apps/aspeed-pfr/src/SPDM/SPDMMctpBinding.c:352-384 | the IV byte by byte |
| `SpdmChannel.PaddingBytes` | apps/aspeed-pfr/src/SPDM/SPDMMctpBinding.c:286-345 | the padding, its length taken from one random number and its bytes from the next ones |
| `SpdmChannel.SendingReleases` | apps/aspeed-pfr/src/SPDM/SPDMMctpBinding.c:384-408 | sending moves the counter of the sender's own direction, or releases the session exactly with the acknowledgement of its end |
| `SpdmChannel.AcceptedIsAuthentic` | apps/aspeed-pfr/src/SPDM/SPDMMctpBinding.c:129-259 | a message is accepted only if the cipher opens it under the receiver's key and IV with the eight header bytes authenticated, and then as what its inner length field delimits |
| `SpdmChannel.ReceivingMoves` | apps/aspeed-pfr/src/SPDM/SPDMMctpBinding.c:129-245 | a message moves the receiver's counter exactly when it names the session; no other is accepted |
| `SpdmChannel.IvsDiffer` | apps/aspeed-pfr/src/SPDM/SPDMMctpBinding.c:352-384 | the states of a direction before any two different messages differ in the key epoch or in the IV |
| `SpdmChannel.CounterAfter` | apps/aspeed-pfr/src/SPDM/SPDMMctpBinding.c:200-230 | counter and epoch of the n-th message in closed form: each key serves exactly 10000 messages |
| `SpdmChannel.SameEpochSameKey` | apps/aspeed-pfr/src/SPDM/SPDMKeyOperation.c:348-404 | key and salt change only with the epoch |
| `SpdmChannel.HeaderCounterExact` | apps/aspeed-pfr/src/SPDM/SPDMMctpBinding.c:352-384 | over a run the sending counter of either side is given by the messages it sent and stays below the re-key limit, so that its 16-bit copy in the header is exact |
| `SpdmChannel.ForgeryDesynchronizes` | apps/aspeed-pfr/src/SPDM/SPDMMctpBinding.c:200-245 | any message that names the session moves the receiver's counter before it is authenticated: after a forged one the next genuine message meets another epoch or IV |
| `SpdmChannel.BinConcat` | apps/aspeed-pfr/src/SPDM/SPDMSession.c:219-255 | when the output buffer suffices, and the size left in it for the next label |
| `SpdmCrypto.IvInjective` | apps/aspeed-pfr/src/SPDM/SPDMMctpBinding.c:352-384 | under one salt different sequence numbers give different IVs |
| `SpdmEndpoint.ConcatBinary` | apps/aspeed-pfr/src/SPDM/SPDMSession.c:219-255 | writes length, version, label and context into the buffer, or refuses and writes nothing |
| `SpdmEndpoint.GenerateKeyIv` | apps/aspeed-pfr/src/SPDM/SPDMKeyOperation.c:225-251 | key and salt of a secret, the second label fitting the size the first one left |
| `SpdmEndpoint.SessionContext.constructor` | apps/aspeed-pfr/src/SPDM/ResponseCmd/SPDMFinishRsp.c:177-187 | a session as it stands once its keys are derived and it is established |
| `SpdmEndpoint.SessionContext.UpdateSessionKey` | apps/aspeed-pfr/src/SPDM/SPDMKeyOperation.c:348-404 | re-keys one direction, key and salt from the new secret, and leaves the other and the rest of the session alone |
| `SpdmEndpoint.SessionContext.NextMessage` | apps/aspeed-pfr/src/SPDM/SPDMMctpBinding.c:352-384 | takes key, IV and counter before the direction moves on or is re-keyed |
| `SpdmEndpoint.SessionContext.BuildPlaintext` | apps/aspeed-pfr/src/SPDM/SPDMMctpBinding.c:286-345 | length, message type, header, body and padding through a moving position |
| `SpdmEndpoint.WriteMessage` | apps/aspeed-pfr/src/SPDM/SPDMMctpBinding.c:346-397 | the message bytes in the caller's buffer |
| `SpdmEndpoint.SessionContext.EncryptSecureContent` | apps/aspeed-pfr/src/SPDM/SPDMMctpBinding.c:261-408 | the session and the buffer after sending, and the release of the session with its last message |
| `SpdmEndpoint.SessionContext.DecryptSecureContent` | apps/aspeed-pfr/src/SPDM/SPDMMctpBinding.c:129-259 | the session and the verdict after receiving, counters moved also for a rejected message |
| `KeyManifests.AppendConserves` | apps/aspeed-pfr/src/cerberus_pfr/cerberus_pfr_update.c:55-136 | when the occupied slots form a prefix, a successful append keeps every earlier slot byte for byte across the erase of the shared page |
| `ManifestLayout.AppendSucceeds` | apps/aspeed-pfr/src/cerberus_pfr/cerberus_pfr_update.c:55-136 | an append to a store in order succeeds exactly when the image fits and holds a manifest, there is a free slot, and every flash operation it needs succeeds |
| `ManifestLayout.AppendedSlot` | apps/aspeed-pfr/src/cerberus_pfr/cerberus_pfr_update.c:93-131 | the first free slot then holds the image's bytes up to its length, and is erased from there on |
| `ManifestLayout.ManifestFields` | apps/aspeed-pfr/src/cerberus_pfr/cerberus_pfr_update.c:75-93 | a manifest in an image byte by byte: where section, magic numbers, hash type, key count and hashes are, and exactly when they make up a manifest |
| `ManifestLayout.LengthIs` | apps/aspeed-pfr/src/cerberus_pfr/cerberus_pfr_update.c:69-73 | the length written: the image's own length field and 520 bytes of public key, in 32 bits |
| `ManifestLayout.FoundExactly` | apps/aspeed-pfr/src/cerberus_pfr/cerberus_pfr_key_manifest.c:378-440 | the search finds a key in a slot exactly when that slot has it, under one of two hash types, and no earlier key of the slot and no earlier slot does |
| `ManifestLayout.MatchesExactly` | apps/aspeed-pfr/src/cerberus_pfr/cerberus_pfr_key_cancellation.c:262-318 | the cancellation matches a slot exactly when it can read its manifest and the key with the listed id there has the listed hash and hash type; the key count is not looked at |
| `KeyManifests.AppendKeepsPrefix` | apps/aspeed-pfr/src/cerberus_pfr/cerberus_pfr_key_manifest.c:442-477 | the occupied slots are a prefix again exactly when the first free slot's header could be read; otherwise a gap is left |
| `KeyManifests.AppendKeepsStore` | apps/aspeed-pfr/src/cerberus_pfr/cerberus_pfr_update.c:55-136 | the same for the whole invariant, which also keeps each manifest inside its slot |
| `KeyManifests.AppendKeepsFound` | apps/aspeed-pfr/src/cerberus_pfr/cerberus_pfr_key_manifest.c:378-440 | a key that was found keeps its manifest id and key id after an append |
| `KeyManifests.AppendKeepsMatches` | apps/aspeed-pfr/src/cerberus_pfr/cerberus_pfr_key_cancellation.c:262-318 | an append leaves what the cancellation loop sees in every occupied slot |
| `KeyManifests.SlotsAfterRewrite` | apps/aspeed-pfr/src/cerberus_pfr/cerberus_pfr_update.c:93-131 | every slot after an append: the image in the new one, erased bytes after it, everything else unchanged |
| `KeyManifests.FailedAppendKeeps` | apps/aspeed-pfr/src/cerberus_pfr/cerberus_pfr_update.c:93-131 | a failed append keeps a slot, occupied or not, if and only if it does not reach the erase, the slot is in another page, or the broken page holds the slot's bytes by chance |
| `KeyManifests.AppendKeepsSlot` | apps/aspeed-pfr/src/cerberus_pfr/cerberus_pfr_update.c:93-131 | the exact condition for every append: an occupied slot keeps its bytes if and only if the append succeeds, does not reach the erase, has its slot in another page, or leaves the bytes by chance |
| `KeyManifests.FailuresKeepEarlier` | apps/aspeed-pfr/src/cerberus_pfr/cerberus_pfr_update.c:93-131 | what can be checked before: every course of the flash that fails keeps all earlier slots if and only if the append is refused before the erase, the number of occupied slots is even, or the append skips a free slot |
| `KeyManifests.FailedAppendCanLose` | apps/aspeed-pfr/src/cerberus_pfr/cerberus_pfr_update.c:104-122 | otherwise a failure after the erase can lose the key manifest that shares the page |
| `KeyManifests.FoundIsOccupied` | apps/aspeed-pfr/src/cerberus_pfr/cerberus_pfr_key_manifest.c:218-289 | a slot a key is found in is occupied for the append scan too, unless it holds a cancellation or decommission capsule |
| `KeyManifests.CancelledKeyIsRefused` | apps/aspeed-pfr/src/cerberus_pfr/cerberus_pfr_key_cancellation.c:237-329 | with a working flash, after a cancellation that lists the key the search locates, the key is refused in its slot if and only if it was before, or the cancellation could read the slot and no earlier slot matches |
| `KeyManifests.EarlierMatchIsBeyondCount` | apps/aspeed-pfr/src/cerberus_pfr/cerberus_pfr_key_cancellation.c:262-318 | an earlier slot that matches and that the search could read holds the hash at the listed id beyond its own key count, which the cancellation does not look at |
| `KeyManifests.EarlierMatchTakesCancellation` | apps/aspeed-pfr/src/cerberus_pfr/cerberus_pfr_key_cancellation.c:262-318 | the failing case: with such an earlier match the cancellation of the one listed key reports success and the key is accepted as before |
| `StaleHashes.StaleHashTakesCancellation` | apps/aspeed-pfr/src/cerberus_pfr/cerberus_pfr_key_cancellation.c:262-318 | a concrete input for it: two manifests in good order, the first of which has the key's hash but counts no key |
| `KeyManifests.AppendSlot` | apps/aspeed-pfr/src/cerberus_pfr/cerberus_pfr_key_manifest.c:442-477 | the slot chosen is free and readable, and every readable slot before it is occupied |
| `KeyManifests.KeyPartition.FindAppendSlot` | apps/aspeed-pfr/src/cerberus_pfr/cerberus_pfr_key_manifest.c:442-477 | the scan returns that slot |
| `KeyManifests.KeyPartition.ProgramBytes` | apps/aspeed-pfr/src/cerberus_pfr/cerberus_pfr_update.c:113-131 | writing only clears bits |
| `KeyManifests.KeyPartition.AppendKeyManifest` | apps/aspeed-pfr/src/cerberus_pfr/cerberus_pfr_update.c:55-136 | the partition after an append, for every step that may fail |
| `KeyManifests.KeyPartition.FindKey` | apps/aspeed-pfr/src/cerberus_pfr/cerberus_pfr_key_manifest.c:378-440 | the scan returns the first slot that has the key and its first key id there |
| `KeyCancellation.CancellationIsComplete` | apps/aspeed-pfr/src/cerberus_pfr/cerberus_pfr_key_cancellation.c:237-329 | on success every listed key has a matching slot whose bit is clear; in any case no bit is set, only bits of listed keys are cleared, and the rest of the flash is unchanged |
| `KeyCancellation.CancelsFirstMatches` | apps/aspeed-pfr/src/cerberus_pfr/cerberus_pfr_key_cancellation.c:262-318 | with a working flash a cancellation clears, of the bits of its policy, exactly those under which some listed key is found in the first slot that it matches |
| `KeyCancellation.CancelSucceeds` | apps/aspeed-pfr/src/cerberus_pfr/cerberus_pfr_key_cancellation.c:237-329 | with a working flash it succeeds if and only if the policy suits the image type and every listed key matches some slot |
| `KeyCancellation.CancelledBit` | apps/aspeed-pfr/src/cerberus_pfr/cerberus_pfr_key_cancellation.c:112-154 | one cancellation clears one bit and nothing else |
| `KeyCancellation.CancelledIsRefused` | apps/aspeed-pfr/src/cerberus_pfr/cerberus_pfr_key_cancellation.c:72-110 | a cleared bit is refused for the manifest and for the capsule type of its policy |
| `KeyCancellation.VerifiedByte` | apps/aspeed-pfr/src/cerberus_pfr/cerberus_pfr_key_cancellation.c:72-110 | a key is accepted exactly when its bit is set in the byte of its slot, in one of three policies at offsets 0xEC, 0x10C and 0x12C |
| `KeyCancellation.FreshKeysAccepted` | apps/aspeed-pfr/src/cerberus_pfr/cerberus_pfr_key_cancellation.c:72-110 | on an erased provisioning flash every key of every slot is accepted, for the eight known types and no others |
| `KeyCancellation.AllowedExactly` | apps/aspeed-pfr/src/cerberus_pfr/cerberus_pfr_key_cancellation.c:45-70 | which cancellation type each image type allows |
| `KeyCancellation.LostWriteRevivesKeys` | apps/aspeed-pfr/src/Smbus_mailbox/Smbus_mailbox.c:129-151 | a write that is lost is still reported as success, and leaves every key of every policy valid |
| `KeyCancellation.AllowedIsKnown` | apps/aspeed-pfr/src/cerberus_pfr/cerberus_pfr_key_cancellation.c:45-70 | a cancellation's policy is the one of the image type it came with |
| `ProvisionRuns.ManifestsStay` | apps/aspeed-pfr/src/cerberus_pfr/cerberus_pfr_update.c:55-136 | over any run that mixes appends, cancellations, updates and recovery checks from a store in order, the store stays in order and no manifest is moved, changed or lost |
| `ProvisionRuns.FoundForGood` | apps/aspeed-pfr/src/cerberus_pfr/cerberus_pfr_key_manifest.c:378-440 | a key that the search locates keeps its manifest id and key id over such a run |
| `ProvisionRuns.FoundKeyStaysRefused` | apps/aspeed-pfr/src/cerberus_pfr/cerberus_pfr_key_cancellation.c:237-329 | a key that the search located and a cancellation covered is at every later moment still located in the same slot and refused there, for every image type of the policy |
| `ProvisionRuns.KeysOnlyCleared` | apps/aspeed-pfr/src/cerberus_pfr/cerberus_pfr_key_cancellation.c:112-154 | over such a run no key bit is ever set again before the provisioning is erased |
| `ProvisionRuns.UnlistedKeysStay` | apps/aspeed-pfr/src/cerberus_pfr/cerberus_pfr_key_cancellation.c:237-329 | a key that no cancellation of the run lists in its slot stays exactly as valid as it was |
| `ProvisionRuns.CancelledForGood` | apps/aspeed-pfr/src/cerberus_pfr/cerberus_pfr_key_cancellation.c:237-329 | after a cancellation that succeeded each listed key is refused in a matching slot at every later moment |
| `ProvisionRuns.NumbersOnlyRise` | apps/aspeed-pfr/src/cerberus_pfr/cerberus_pfr_update.c:229-243 | anti-rollback: over such a run no stored security version number decreases |
| `ProvisionRuns.NumberIsLargest` | apps/aspeed-pfr/src/cerberus_pfr/cerberus_pfr_update.c:534-556 | over a run the stored number is the largest of the one at the start and of every version that an accepted update of the recovery image or a recovery check offered |
| `ProvisionRuns.AcceptedVersions` | apps/aspeed-pfr/src/cerberus_pfr/cerberus_pfr_svn.c:72-88 | an image is accepted exactly when its version is at most 64 and not below the number at the start nor any version offered since; in particular, once the recovery image was updated, every image below it is refused |
| `ProvisionRuns.OldImageRefused` | apps/aspeed-pfr/src/cerberus_pfr/cerberus_pfr_svn.c:72-88 | an image below the stored number is refused from then on |
| `Svn.GetAfterSet` | apps/aspeed-pfr/src/cerberus_pfr/cerberus_pfr_svn.c:20-70 | reading back gives the number that was set |
| `Svn.WrittenBits` | apps/aspeed-pfr/src/cerberus_pfr/cerberus_pfr_svn.c:20-56 | the two words written have exactly the bits from the number on |
| `Svn.RaisingOnlyClears` | apps/aspeed-pfr/src/cerberus_pfr/cerberus_pfr_svn.c:20-56 | raising a number only clears bits |
| `Svn.FirstSet` | apps/aspeed-pfr/src/cerberus_pfr/cerberus_pfr_svn.c:58-70 | the number read is the lowest set bit, 64 when there is none |
| `Svn.StepNeverLowers` | apps/aspeed-pfr/src/cerberus_pfr/cerberus_pfr_svn.c:309-318 | no gated step lowers a number when its write is stored; a lost write leaves all numbers zero |
| `Svn.StepNumber` | apps/aspeed-pfr/src/cerberus_pfr/cerberus_pfr_update.c:534-556 | the exact number after each step whose write is stored: an accepted update of the recovery image leaves its version, a recovery check the larger of the two numbers, every other step the number |
| `Svn.NumberIsLowestBit` | apps/aspeed-pfr/src/cerberus_pfr/cerberus_pfr_svn.c:58-70 | the number is that of the lowest set bit in the eight bytes of its policy, at 0xD4, 0xDC or 0xE4 |
| `Svn.OtherPolicyUntouched` | apps/aspeed-pfr/src/cerberus_pfr/cerberus_pfr_svn.c:20-56 | setting one policy's number leaves the other policies' |
| `ProvisionStore.ProvisionFlash.Write` | apps/aspeed-pfr/src/Smbus_mailbox/Smbus_mailbox.c:129-151 | read, erase, write back: the contents and the reported status for every failure |
| `ProvisionStore.ProvisionFlash.ReadSvn` | apps/aspeed-pfr/src/cerberus_pfr/cerberus_pfr_svn.c:58-70 | the bit scan returns the stored number |
| `ProvisionStore.ProvisionFlash.StoreSvn` | apps/aspeed-pfr/src/cerberus_pfr/cerberus_pfr_svn.c:20-56 | the contents and the status after setting a number |
| `ProvisionStore.ProvisionFlash.CancelKey` | apps/aspeed-pfr/src/cerberus_pfr/cerberus_pfr_key_cancellation.c:112-154 | the contents and the status after cancelling one key |
| `ProvisionStore.ProvisionFlash.CancelListedKeys` | apps/aspeed-pfr/src/cerberus_pfr/cerberus_pfr_key_cancellation.c:237-329 | the loop over slots with its bitmap of remaining keys |
| `FlashWriter.SplitInPages` | lib/hrot_wrapper/flash/flash_wrapper.c:141-183 | every transfer stays inside one 256-byte page if and only if the length and the first byte's page offset add up to less than 2^32 |
| `FlashWriter.SplitCovers` | lib/hrot_wrapper/flash/flash_wrapper.c:155-183 | the transfers are non-empty, contiguous and together are the data |
| `FlashWriter.PrefixIsLinearWrite` | lib/hrot_wrapper/flash/flash_wrapper.c:155-197 | without address overflow the transfers, or those before a failure, are one linear write of the prefix they cover |
| `FlashWriter.ChunkLengthIs` | lib/hrot_wrapper/flash/flash_wrapper.c:156-164 | the 32-bit arithmetic gives the room left in the page or all that remains, and exactly when the end wraps round into the first page, too much |
| `FlashWriter.SpiFlash.Write` | lib/hrot_wrapper/flash/flash_wrapper.c:141-197 | the loop ends and issues the transfers in order up to the first failure; it returns the number of bytes in the transfers that succeeded, all of the data when all did, as the one value of a 32-bit signed int congruent to it, or the failure's status when there are none |

## Left out

- LmsContexts.LmsPublic.Verify: when all checks pass and a hash call fails, leaves open which of the two verdicts is given, because the code ignores the results of its Merkle hash helpers there.
- LmsContexts.LmsPublic.ImportPublicKey: needs four bytes to read, because the code reads the type before it looks at the length.
- LmsContexts.CalculateRootCandidate: states the root for working hash calls only, for the same reason as verification.
- Lms.IssuedSignaturesVerify: N24 keys are outside its positive half, because the code's verification refuses them; Lms.SignatureRoot covers them up to that refusal.
- PfrStateMachine.PlatformStateMachine.HandleUpdateRequested: is stated for the events on which the loop ends; PfrUpdate.PassClearsABit gives that condition and PfrRuns.TakeKeepsMachineOk shows that no other event gets there.
- PfrStateMachine.PlatformStateMachine.GenerateStateMachineEvent: the event waits among the handler's posts, where the code puts it on the queue at once; PostNext moves it on, so that other threads' events may come between a handler's posts.
- PfrStateMachine.PlatformStateMachine.TakeEvent: is stated for turns on which the update loop ends; RunSchedule shows that no other turn is reached.
- PfrStateMachine.PlatformStateMachine.RunSchedule: the endless loop is run against a finite schedule.
- PfrUpdate.UpdateWrites: an image update is one outcome; what it writes inside the image, including capsules that cancel keys or decommission, is not modelled.
- PfrUpdate.RecoveryFieldAfter: gives no value for a pending update that is passed over or whose staging hash has changed, because it depends on the region before; PfrUpdate.UnwrittenPass says what such a pass does.
- ProvisionRuns.NumbersOnlyRise: runs are those whose writes of the provisioning are stored, as for the other results of ProvisionRuns; Svn.StepNeverLowers and KeyCancellation.LostWriteRevivesKeys say what a lost write does.
- ProvisionRuns.ManifestsStay: an append of a run is refused before the erase, or succeeds at the first free slot; KeyManifests.FailuresKeepEarlier and KeyManifests.AppendKeepsPrefix say what the others do.
- KeyManifests.KeyPartition.FindKey: a manifest that claims more than eight keys is searched only in its eight places, where the code reads on.
- KeyManifests.KeyPartition.AppendKeyManifest: an image whose parts lie beyond its 2048 bytes is refused, where the code looks into the rest of its page buffer.
- SpdmEndpoint.SessionContext.DecryptSecureContent: lengths that lead past the message or the plaintext give the outcome Overrun, where the code reads or copies past the buffer.
- ProvisionStore.ProvisionFlash.Write: a failed erase is taken to leave the contents as they were.
- ProvisionStore.ProvisionFlash.ReadSvn: a failed read, whose status the code ignores, is not modelled.
- Power loss, timing, and erasing memory against compiler optimisation.
- SHA-256, AES-GCM, HKDF, RSA and X.509 themselves; the ASPEED and PSA hash branches are one function.
- Memory allocation in the state machine, the SPDM code and the flash code, taken to succeed; in LMS it may fail.
- The SPDM session table, heartbeat expiry and session establishment: a session starts established and unexpired, and setting an AES key succeeds.
- SPDM message dispatch, certificates and the request flow.
- Reset hold and release, SPI filters, LEDs, mailbox registers, boot timers, attestation, PIT protection and seamless updates.
- Failures of the update-status flash, and the failed-update counter, whose limit is one input of a turn.
- Signature checks of key manifests and capsules, which decide whether these operations are reached at all.
- Events injected from the shell, and the test code.
