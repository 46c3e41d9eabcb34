# TC-Ledger and tclk, modelled in Dafny

The repository makes three kinds of promise, and this project states and proves them.

**Evidence.** A room's export is a file of lines; `ledger.py` commits to it with the Merkle tree of RFC 6962, and proves
that a line is in it or that one export extends another. `merkle/` models the three descriptions of one tree (the
recursive split, the pairwise level loop, the index-shifting verifiers) and proves them equal. SHA-256 is a parameter:
every soundness theorem is a function that computes two different inputs with one digest from any counterexample.

**Deals.** `deal/` models the eight-state `DealManager`, the room adapter that feeds it signed frames, the escrow with
its own deadline in whole seconds, and the per-contract mutex; `FrameLaws` and `HonestDeals` say what arrives on the
other side. `json/` models the canonical JSON the frames and ids are made of, with the parser of the other end.

**Codecs.** `codecs/` holds the in-place Base58 and Keccak-f computations and the signature encoding; `evm/` the reading
of transaction receipts, the settlement evidence built from them, and the two verdicts on a deal and its settlement.

Code made of loops over changing state is imperative here: the level loops, both proof verifiers, `DealManager`,
`RoomDealAdapter`, the multiply-and-carry passes, the Keccak rounds on a 5 by 5 array, the log loop and the two
cross-layer verifiers are methods proved against functions, and the theorems are about those functions. Everything else
is functions and lemmas. `common/Options.dfy` holds the one shared datatype.

Names follow one habit: a member ending in `Collision` returns the collision; `Accepts...`, `Conforms`, `Valid` are the
meaning of a verdict and the method of the verifier's name computes exactly that.

## Findings

Where a promised property is false of the code, the code stands, the failing input is exhibited, and the exact condition
is proved.

- `verifyInclusionProofInMemory` never looks at the claimed position: `MemoryVerifier.PositionNotChecked` builds an
  accepted proof that claims a wrong index. The claim is right if and only if the sides of the path are the directions
  of the claimed index (`MemoryVerifier.ClaimIsRight`), which a caller can compare without hashing.
- The browser computes positions in JavaScript numbers. For every size that is one, they are the tree's for all leaves
  if and only if the size is at most 2^53 (`ExplorerVerifier.PositionsAgreeUpToExact`); `ExplorerVerifier.WrongLeaf`
  names a failing leaf of every larger size, and `ExplorerVerifier.PositionsDisagree` is the smallest one worked out.
- An artifact built for a room without a name is rejected, and only that one (`InclusionArtifact.BuiltArtifactAccepted`).
- `decodeBase58` on a text of only `1`s returns one zero byte too many (`Base58.DecodedMeaning`), and
  `extractEd25519PubKey` cuts longer payloads, so keys of equal 34-byte prefix coincide (`Base58.KeysAndIdentifiers`,
  `Base58.KeyHasIdentifiers`).
- Anyone may open an escrow under a contract id, and a room reveal is accepted from LOCKED, before any comparison. On
  such an escrow every accepted reveal is claimable, and every refund of the rail is accepted in the room, exactly when
  hashlock and deadline pass two comparisons of `verifyLock` (`Deadlines.RevealsAreClaimable`,
  `Deadlines.RefundsReconcile`); from a LOCKED deal some run strands the reveal if and only if a whole second lies before
  the room's deadline (`Deadlines.RevealCanBeStranded`). Once the escrow was compared both hold in every run
  (`Deadlines.RevealIsClaimable`, `Deadlines.RefundReconciles`).
- A refund frame that reaches `ingestRecord` may be taken before the escrow would pay, exactly when the room's deadline
  is the earlier, which on an agreed escrow means that it is not a whole second (`Deadlines.RoomRefundsFirst`).
- `sync` applies a refund frame itself, before `ingestRecord` checks its signature and with a time raised to the room's
  deadline. On an unsettled deal it is taken exactly when it names the payer, at any moment
  (`Deadlines.SyncRefundIsTaken`); with a live escrow the room is then refunded early exactly while the rail does not
  refund yet, whatever the deadlines (`Deadlines.SyncRefundsEarly`).
- A deal can end REFUNDED in the room with its escrow claimed exactly when that escrow was claimed or still can be
  (`Deadlines.EndsApart`). A revealed deal can end CLAIMED in the room with its escrow refunded exactly when the escrow
  was not claimed (`Deadlines.EndsUnpaid`): a claimed receipt is taken without a look at the chain.
- `createOffer` makes offers that no reader takes: it asks neither for a did:key, nor for a decimal amount (BigInt reads
  more than that), nor for an asset. An offer is read if and only if it has all three (`HonestDeals.OfferIsRead`);
  `HonestDeals.AssetlessOfferIsUnread` is one that is not.
- For a dictionary of evidence the two verdicts part: the artifact is valid standalone exactly when it agrees and three
  tests hold that `verify_cross_layer` does not make (`CrossLayerLaws.SelfAttestedIsValid`). After a conformant verdict
  an edited artifact stays conformant exactly while its members say the same as the settlement or are left out; an
  edited room is caught by an anchor only (`CrossLayerLaws.EditedArtifactConforms`).
- An expectation that is not an address, or not hex, is no expectation (`ReceiptLaws.UnusableExpectations`): the receipt
  of any contract passes it (`AbiRoundTrip.ForeignReceiptAccepted`). After a lock whose id cannot be read the claim of
  any id on that contract is taken for it (`Settlement.UnreadableIdIsUnchecked`); the ids agree exactly when the lock's
  could be read (`Settlement.EvidenceIsOneEscrow`).
- The frame limit is 4096 characters in the code and 1000 in `tclk-rail-evm/README.md`; the model follows the code.

## Model

| member | source | states |
|---|---|---|
| Binary.SplitByBitLengthIsSplit | src/tc_ledger/ledger.py:1113-1149 | the generator's shift on bit lengths is the largest power of two below n, the split point of section 2.1 of RFC 6962 |
| Binary.BitAndRecognisesPow2 | src/tc_ledger/ledger.py:1208-1212 | the verifier's m & (m - 1) test holds exactly of powers of two |
| MerkleTree.FoldSplits | src/tc_ledger/ledger.py:388-417 | pairing level by level with odd-node promotion and splitting at the largest power of two build one tree, for every list |
| MerkleTree.NextLevel | src/tc_ledger/ledger.py:406-415 | one pass with a stride of two produces the level above |
| MerkleTree.ExportMerkleRoot | src/tc_ledger/ledger.py:388-417 | the level loop returns the Merkle Tree Hash of RFC 6962, the empty list included |
| MerkleTree.RootCollision | src/tc_ledger/ledger.py:388-417 | two different exports of one size under one root give two inputs with one digest |
| AuditPath.BuildExportLevels | src/tc_ledger/ledger.py:289-320 | the stored levels are the leaf hashes, each level paired from the one below, and the tree hash on top |
| AuditPath.ExportMerkleProof | src/tc_ledger/ledger.py:323-349 | walking the stored levels yields the audit path of the line; an index outside the export is an IndexError |
| AuditPath.PathReachesRoot | src/tc_ledger/ledger.py:323-385 | completeness: the path generated for a leaf folds from that leaf to the root |
| AuditPath.PathHasDirections | src/tc_ledger/ledger.py:323-349 | the positions of a generated path are exactly those the sizes alone predict |
| AuditPath.ExpectedProofDirections | src/tc_ledger/ledger.py:791-817 | the loop returns the predicted positions, and both error exits happen exactly outside the tree |
| AuditPath.DirectionsPrefixFree | src/tc_ledger/ledger.py:791-817 | read from the root, the positions of two different leaves are never one a prefix of the other |
| AuditPath.DirectionsBound | src/tc_ledger/ledger.py:791-817 | a path has at most bit_length(n - 1) steps |
| AuditPath.BitLengthIsCeilLog2 | src/tc_ledger/ledger.py:791-817 | that bound is ceil(log2 n) |
| AuditPath.VerifyExportMerkleProof | src/tc_ledger/ledger.py:352-385 | ValueError exactly on a malformed root or step, and otherwise whether the fold meets the root |
| AuditPath.PathCollision | src/tc_ledger/ledger.py:352-385 | soundness with position: a path with leaf i's positions that reaches the root starts at leaf i and is the generated one, or a collision is computed |
| InclusionArtifact.VerifyExportInclusionProof | src/tc_ledger/ledger.py:867-1006 | the sequence of exits accepts exactly a well-headed artifact whose well-shaped path climbs from this line to the committed root |
| InclusionArtifact.BuiltArtifactAccepted | src/tc_ledger/ledger.py:820-1006 | what the builder writes for any line of any export is accepted for it if and only if the room has a name and root, generation and room are each left open or pinned to what was built |
| InclusionArtifact.BuiltPathAccepted | src/tc_ledger/ledger.py:867-1006 | any artifact with the built position and path is accepted exactly with the format's constants, a named room, the line's and the export's own hashes, and met expectations |
| InclusionArtifact.InclusionCollision | src/tc_ledger/ledger.py:949-987 | an artifact accepted against the root of an export of its size is for the line at its index and carries the generated path, or a collision |
| InclusionArtifact.SurvivalCollision | src/tc_ledger/ledger.py:867-1240 | evidence survives generations: artifact of the old export plus accepted consistency proof pin the line at its index in the new export, or a collision; the old export is not needed |
| InclusionArtifact.PositionIsFixed | src/tc_ledger/ledger.py:949-987 | an accepted artifact is rejected at every other index of the same tree |
| ExplorerVerifier.ExpectedDirections | site/explorer.js:57-86 | the loop over JavaScript numbers returns the positions that their rounding gives, and throws exactly outside the tree |
| ExplorerVerifier.BrowserPositions | site/explorer.js:57-86 | up to 2^53 lines these are the positions of the tree, for every leaf |
| ExplorerVerifier.PositionsAgreeUpToExact | site/explorer.js:57-86 | for every size that is a JavaScript number, all leaves have the tree's positions if and only if the size is at most 2^53 |
| ExplorerVerifier.WrongLeaf | site/explorer.js:57-86 | every larger such size has a leaf, itself a JavaScript number, on which browser and tree differ |
| ExplorerVerifier.PositionsDisagree | site/explorer.js:57-86 | at 2^53 + 2 lines the browser expects three steps for leaf 2^53, where the tree has two |
| ExplorerVerifier.VerifyInclusionProof | site/explorer.js:89-204 | the interleaved checks accept exactly a path of the expected shape from the line to the chosen root |
| ExplorerVerifier.BrowserAgrees | site/explorer.js:89-204 | up to 2^53 lines browser and Python verifier agree when the browser checks the artifact's own root, and never both accept against different roots |
| ExplorerVerifier.BuiltInBrowser | site/explorer.js:89-204 | up to 2^53 lines the built artifact is accepted for its line unless another root is trusted or expected |
| ExplorerVerifier.BrowserCollision | site/explorer.js:57-204 | a browser acceptance against the root of an export of the stated size fixes the line, or a collision |
| Consistency.SubproofHalves | src/tc_ledger/ledger.py:1113-1126 | halving an even old size together with the level leaves the recursive proof unchanged |
| Consistency.SubproofIsPath | src/tc_ledger/ledger.py:1113-1126 | for an odd old size the recursive proof is the last old node and its audit path |
| Consistency.VerifyConsistencyProof | src/tc_ledger/ledger.py:1152-1240 | the whole verifier, conversions and early exits included, accepts exactly what the functional reading of its two loops accepts |
| Consistency.VerifyDigests | src/tc_ledger/ledger.py:1199-1240 | the bit-shifting loops over fn, sn and both running hashes compute that reading |
| ConsistencyTheorems.AcceptsAsClimb | src/tc_ledger/ledger.py:1208-1240 | for 0 < m < n acceptance means: one seed, one proof length, and two climbs along the seed's positions that meet the old and the new root |
| ConsistencyTheorems.ClimbLeftReachesOldRoot | src/tc_ledger/ledger.py:1221-1240 | climbing with the left siblings only rebuilds the root of the old tree |
| ConsistencyTheorems.ConsistencyComplete | src/tc_ledger/ledger.py:1113-1240 | the recursive generator's proof is accepted by the bit-shifting verifier for every export and every 0 <= m <= n, powers of two included |
| ConsistencyTheorems.ConsistencyCollision | src/tc_ledger/ledger.py:1152-1240 | an accepted proof from any claimed old root to the true new root proves that the claim is the root of the first m lines and the proof the generated one, or a collision |
| ConsistencyTheorems.ConsistencyExact | src/tc_ledger/ledger.py:1152-1240 | acceptance is exactly a true old root with the generated proof, up to a collision computed from any other accepted claim |
| ConsistencyTheorems.AppendOnlyCollision | src/tc_ledger/ledger.py:1152-1240 | two exports joined by an accepted proof are a prefix and its extension, or a collision |
| ConsistencyTheorems.AcceptedLength | src/tc_ledger/ledger.py:1208-1240 | the sizes alone fix the one length that can be accepted; it is the generator's, and at most ceil(log2 n) + 1 |
| MemoryVerifier.VerifyInMemory | tclk-rail-evm/src/archiver.ts:149-183 | what the in-memory check accepts, an absent expected root falling back to the proof's own |
| MemoryVerifier.GeneratedIsAccepted | tclk-rail-evm/src/archiver.ts:149-183 | the generated proof of any line of any export is accepted unless another root or room is expected |
| MemoryVerifier.Locate | tclk-rail-evm/src/archiver.ts:149-183 | an acceptance against an export's root finds an index whose line is the record and whose positions are the path's, or a clash of two hash inputs |
| MemoryVerifier.ClaimIsIgnored | tclk-rail-evm/src/archiver.ts:149-183 | acceptance does not depend on the claimed index and size |
| MemoryVerifier.PositionNotChecked | tclk-rail-evm/src/archiver.ts:149-183 | an accepted proof claims index 1 for the line at index 0 |
| MemoryVerifier.ClaimIsRight | tclk-rail-evm/src/archiver.ts:149-183 | against the root of an export of the claimed size, the line found is the claimed one if and only if the sides are the claimed index's directions, or a collision |
| ExportFile.SliceRawExportLines | tclk-rail-evm/src/archiver.ts:192-215 | the slices are lines, each newline at a slice end, and concatenate to the file |
| ExportFile.SlicingUnique | tclk-rail-evm/src/archiver.ts:192-215 | a file has only one slicing into lines |
| ExportFile.FileCollision | tclk-rail-evm/src/archiver.ts:192-215 | the root commits to the file: two files of one line count and root give a collision |
| Text.LessIsBefore | tclk-rail-evm/src/deal.ts:198-203 | the key order is lexicographic: after a common prefix the shorter text or the smaller code unit comes first |
| Json.TidyMembers | tclk-rail-evm/src/deal.ts:198-203 | sorting keys and dropping undefined members keeps what every key reads and yields strictly sorted members |
| Json.CanonicalKeysAscend | tclk-rail-evm/src/deal.ts:198-203 | any earlier key of a canonical object is lexicographically before any later one |
| Json.CanonTwice | tclk-rail-evm/src/deal.ts:191-203 | canonical form is a fixed point |
| Json.CanonIffSame | tclk-rail-evm/src/deal.ts:191-203 | canonical forms are equal exactly when the values are, up to key order and undefined members |
| RoundTrip.ValueReads | tclk-rail-evm/src/deal.ts:191-215 | parsing the ASCII canonical text of any value, inside any context, gives its canonical form and stops where it should |
| RoundTrip.CanonicalRoundTrip | tclk-rail-evm/src/deal.ts:191-215 | JSON.parse inverts canonicalJson and toAscii up to key order and undefined members |
| RoundTrip.CanonicalUnambiguous | tclk-rail-evm/src/deal.ts:191-215 | two values have one canonical text exactly when they are the same value |
| RoundTrip.PrintsIffPrintable | tclk-rail-evm/src/deal.ts:191-203 | canonicalJson throws exactly on an undefined value that is not an object member |
| Printer.ToAsciiIsAscii | tclk-rail-evm/src/deal.ts:210-215 | what is signed and hashed is plain ASCII |
| Frames.CheckSeesThrough | tclk-rail-evm/src/transport.ts:222-346 | the frame validator decides alike on a value and on its canonical form |
| Frames.FrameRoundTrip | tclk-rail-evm/src/transport.ts:202-346 | an encoded value of at most 4096 characters decodes to what validation says of it, and a well-formed frame comes back the same |
| FrameLaws.EncodesExactly | tclk-rail-evm/src/transport.ts:202-208 | a value is sent exactly if it is printable and its line, six characters of prefix included, is at most 4096 long |
| FrameLaws.SentCarries | tclk-rail-evm/src/deal.ts:68-137 | the object that a sender builds for each of the seven frames reads back member by member, with any further members |
| FrameLaws.AmountIsDecimal | tclk-rail-evm/src/transport.ts:241-243 | the amount pattern admits exactly the numerals of positive numbers |
| FrameLaws.HexIsSpelled | tclk-rail-evm/src/utils.ts:19-21 | isValidHex32 admits exactly the spellings of 32 bytes, in either letter case |
| FrameLaws.FrameIsRead | tclk-rail-evm/src/transport.ts:211-346 | a line is read as a given frame exactly when it is prefixed, short enough, parses to members that are the frame's, and the frame respects the rules of its kind |
| FrameLaws.FrameTravels | tclk-rail-evm/src/transport.ts:202-346 | each of the seven frames, sent in any key order with any further members, is read as itself up to canonical free-form members, and as nothing else, if and only if its sender respected the rules |
| Frames.LinesUnambiguous | tclk-rail-evm/src/transport.ts:202-208 | one line is one frame, up to key order and undefined members |
| Frames.LineIsAscii | tclk-rail-evm/src/transport.ts:202-208 | an encoded line is ASCII |
| Hex.HexToBytes | tclk-rail-evm/src/utils.ts:30-38 | the buffer loop stores what parseInt makes of each pair, and throws exactly on an odd number of characters |
| Hex.BytesToHex | tclk-rail-evm/src/utils.ts:40-46 | the string loop writes two lower-case digits a byte |
| Hex.DigitsRead | tclk-rail-evm/src/utils.ts:30-38 | on hex digits those bytes are the ones the digits spell |
| Hex.HexRoundTrip | tclk-rail-evm/src/utils.ts:30-46 | each of the two conversions inverts the other, up to letter case of the digits |
| Hex.HexTextInjective | tclk-rail-evm/src/utils.ts:40-46 | different bytes have different hex text |
| DealManagers.DealManager.Create | tclk-rail-evm/src/deal.ts:305-373 | createOffer with its validations, in their order, and the record it starts |
| DealManagers.DealManager.Accept | tclk-rail-evm/src/deal.ts:406-470 | the guarded accept, ids recomputed; an exception leaves the record as it was |
| DealManagers.DealManager.Lock | tclk-rail-evm/src/deal.ts:472-503 | the guarded lock step on the record; a throw changes nothing |
| DealManagers.DealManager.Verify | tclk-rail-evm/src/deal.ts:505-522 | the guarded verify step on the record; a throw changes nothing |
| DealManagers.DealManager.Reveal | tclk-rail-evm/src/deal.ts:524-559 | the guarded reveal step on the record; a throw changes nothing |
| DealManagers.DealManager.Claim | tclk-rail-evm/src/deal.ts:561-576 | the guarded claim step on the record; a throw changes nothing |
| DealManagers.DealManager.Refund | tclk-rail-evm/src/deal.ts:578-601 | the guarded refund step on the record; a throw changes nothing |
| DealManagers.DealManager.Cancel | tclk-rail-evm/src/deal.ts:603-622 | the guarded cancel step on the record; a throw changes nothing |
| DealManagers.DealManager.TakeReceipt | tclk-rail-evm/src/deal.ts:624-639 | the receipt step on the record; a throw changes nothing |
| DealManagers.DealManager.RecordLedgerSequence | tclk-rail-evm/src/deal.ts:644-653 | the two evidence tables after one entry |
| DealRuns.CreateEstablishesInv | tclk-rail-evm/src/deal.ts:305-373 | a created deal satisfies the invariant |
| DealRuns.RunKeepsInv | tclk-rail-evm/src/deal.ts:406-653 | every event sequence keeps it: terms, ids and parties follow from offer and accept, and each status has the data it implies |
| DealRuns.RunAdvances | tclk-rail-evm/src/deal.ts:406-622 | between any two moments of any run the rank only rises, terminal states absorb, and terms and contract id stay once accepted |
| DealRuns.AcceptFixesTerms | tclk-rail-evm/src/deal.ts:242-256 | after an accept that returns, each field of the terms is the named field of the offer or the accept, and each party has the role the offer gives it |
| DealRuns.RunKeepsTerms | tclk-rail-evm/src/deal.ts:242-256 | the same at every moment of every run, with the first offer and the one accept |
| DealRuns.RevealedMeansOpened | tclk-rail-evm/src/deal.ts:524-559 | a revealed deal was opened by its payee before refundAfterMs |
| DealRuns.ClaimedMeansRevealed | tclk-rail-evm/src/deal.ts:524-576 | a claimed deal was earlier revealed by the payee with a preimage of the statement, strictly before refundAfterMs |
| DealRuns.RefundedMeansExpired | tclk-rail-evm/src/deal.ts:578-601 | a refunded deal was refunded by its payer at or after refundAfterMs |
| DealRuns.CancelledMeansNeverLocked | tclk-rail-evm/src/deal.ts:603-622 | a cancelled deal had no lock reference at any moment of its run |
| DealRuns.SettlesOnce | tclk-rail-evm/src/deal.ts:561-601 | no continuation of a run settles a deal the other way |
| Deal.SortedRailsAscend | tclk-rail-evm/src/deal.ts:324 | the rails of an offer are those asked for, each once, in lexicographic order |
| HonestDeals.OfferIsAsAsked | tclk-rail-evm/src/deal.ts:305-373 | each field of a created offer is what was asked for, and the creator has the role it names |
| HonestDeals.OfferIsRead | tclk-rail-evm/src/deal.ts:305-373 | a created offer that is sent is read if and only if its creator is a did:key, its amount a decimal numeral and its asset not empty |
| HonestDeals.AssetlessOfferIsUnread | tclk-rail-evm/src/deal.ts:305-373 | an offer that is created and that no reader takes |
| HonestDeals.OfferIsFiled | tclk-rail-evm/src/transport.ts:593-621 | the other side's own creation from the offer read succeeds exactly before it expires, under the same id and with the same offer |
| HonestDeals.AcceptIsApplied | tclk-rail-evm/src/deal.ts:406-470 | an accept computed over one copy of the offer and sent is applied to any other copy exactly when it names the offer, comes from another did:key and arrives in time |
| HonestDeals.SettlesByClaim | tclk-rail-evm/src/deal.ts:472-639 | lock frame, comparison, reveal frame, claim and receipt end CLAIMED exactly if lock and reveal came from the right party, in time, with an offered rail and a preimage of the statement; the receipt is kept exactly if it says so |
| HonestDeals.SettlesByRefund | tclk-rail-evm/src/deal.ts:472-639 | lock frame, comparison, refund frame and receipt end REFUNDED exactly if the lock was right and the payer refunded at or after the deadline |
| HonestDeals.CancelsExactly | tclk-rail-evm/src/deal.ts:603-622 | a deal that is not locked is cancelled exactly by its parties |
| HonestDeals.RepeatsExactly | tclk-rail-evm/src/deal.ts:406-622 | an event that repeats what was taken returns without a change, one that contradicts it throws, and so does any once the deal settled otherwise |
| HonestDeals.EvidenceIsNoted | tclk-rail-evm/src/transport.ts:623-701 | a frame that is taken notes its record's number and hash under its own stage and no other |
| HonestDeals.FrameIsIngested | tclk-rail-evm/src/transport.ts:534-704 | a signed record of a well-formed frame about a filed deal, delivered for the first time, is ingested exactly when the deal takes its event |
| HonestDeals.LockIsIngested | tclk-rail-evm/src/transport.ts:645-653 | for a lock frame on an accepted deal: exactly if the payer sent it for this contract, on an offered rail, before the deadline |
| HonestDeals.MomentIsDated | tclk-rail-evm/src/transport.ts:587 | a record is read at one moment, whenever it is read, exactly if its date parses to other than the epoch |
| HonestDeals.RecordHashCollision | tclk-rail-evm/src/transport.ts:583-586 | the evidence hash of a record fixes the whole record, or a collision |
| Binding.PreimageInjective | tclk-rail-evm/src/deal.ts:220-225 | the tagged preimage determines tag and payload |
| Binding.ContractIdCollision | tclk-rail-evm/src/deal.ts:228-239 | a contract id fixes offer and accept, up to the order of free-form members, or a collision |
| Binding.CrossCollision | tclk-rail-evm/src/deal.ts:220-239 | an offer id is never a contract id, or a collision |
| Binding.SameAgreementSameId | tclk-rail-evm/src/deal.ts:235-239 | an agreement resent in another key order has the same contract id |
| RoomAdapter.DeliveryKeyInjective | tclk-rail-evm/src/transport.ts:543-545 | one delivery key is one sequence number and one signature |
| RoomAdapter.AcceptFiles | tclk-rail-evm/src/transport.ts:623-643 | a successful accept leaves the deal with the recomputed contract id it is filed under |
| RoomAdapter.FilingStands | tclk-rail-evm/src/transport.ts:610-701 | whatever a filed deal goes through later, its keys stay right |
| RoomAdapter.RoomDealAdapter.FramesReachTheirDeal | tclk-rail-evm/src/transport.ts:590-701 | a frame about a filed deal is routed to that deal, by offer id for an accept and by contract id otherwise |
| RoomAdapter.RoomDealAdapter.FileOffer | tclk-rail-evm/src/transport.ts:593-621 | a new deal object is filed under its recomputed id or not at all |
| RoomAdapter.RoomDealAdapter.ApplyTo | tclk-rail-evm/src/transport.ts:623-701 | the routed deal takes the event and its sequence number, an accepted deal is filed by contract, and a throw changes no deal and no index |
| RoomAdapter.RoomDealAdapter.IngestRecord | tclk-rail-evm/src/transport.ts:534-704 | the result is the verdict on the state before; both indexes stay right; a redelivery or an exception changes no index, no deal and no seen key |
| RoomAdapter.RoomDealAdapter.Sync | tclk-rail-evm/src/transport.ts:709-716 | over any list of records: every result fits its record, a delivery is a duplicate exactly when it was taken before, the seen keys are those taken, the indexes stay right, no deal falls back, and the first exception is the last result |
| AsyncLocks.RunKeepsInv | tclk-rail-evm/src/app/orchestrator.ts:89-106 | the queue invariant in every state that any interleaving reaches |
| AsyncLocks.MutualExclusion | tclk-rail-evm/src/app/orchestrator.ts:89-106 | when a section of a key has started, every section called earlier on that key has ended: one at a time, in order of arrival |
| AsyncLocks.KeysAreIndependent | tclk-rail-evm/src/app/orchestrator.ts:196-209 | ids that differ in case share a lock, and a step on one key leaves the others alone |
| AsyncLocks.SuccessorIsEnabled | tclk-rail-evm/src/app/orchestrator.ts:89-106 | once the earlier sections ended, by return or by throw, the oldest waiting one can start or a promise before it can settle |
| AsyncLocks.SuccessorStarts | tclk-rail-evm/src/app/orchestrator.ts:89-106 | settling alone brings it to its start |
| Rail.CeilSurvivesRounding | tclk-rail-evm/src/utils.ts:12-17 | rounding the quotient to a JavaScript number does not change its ceiling |
| Rail.DeadlineWindow | tclk-rail-evm/src/utils.ts:12-17 | the agreed escrow deadline lies in [refundAfterMs, refundAfterMs + 999], and at the left end exactly for whole seconds |
| Rail.RailAgreesWithContract | tclk-rail-evm/src/rail.ts:172-285 | the rail submits a claim or refund exactly when the contract accepts it at that moment |
| Rail.WindowsPartitionTime | tclk-rail-evm/src/rail.ts:172-285 | on a locked escrow, claiming with the right secret and refunding are possible at complementary times |
| Rail.LockVerifiesExactly | tclk-rail-evm/src/rail.ts:139-167 | for any agreed deal and any escrow, verifyLock accepts exactly a locked hash escrow under the agreed id with the offer's amount and token, the parties by role, the accept's statement, and the second that holds the offer's deadline |
| Rail.EscrowValidatesExactly | tclk-rail-evm/src/app/orchestrator.ts:214-252 | the orchestrator's own comparison, in the same terms: no token, and only addresses it can resolve |
| Rail.OpeningIsAgreed | tclk-rail-evm/src/rail.ts:72-134 | what rail.lock submits for an agreed deal carries the offer's amount, asset and deadline, the accept's statement and the payee by role |
| Rail.HonestLockVerifies | tclk-rail-evm/src/rail.ts:72-167 | what rail.lock submits is accepted exactly when it can be encoded for a non-zero payee, and then passes verifyLock exactly when its sender is the agreed payer's address |
| Deadlines.RevealsAreClaimable | tclk-rail-evm/src/rail.ts:139-235 | on any live escrow, compared or not: every reveal the room takes is claimable if and only if the hashlock is the statement and the escrow's deadline is not before the room's |
| Deadlines.RefundsReconcile | tclk-rail-evm/src/app/orchestrator.ts:654-723 | the room takes every refund the rail makes if and only if the escrow's deadline is not before the room's |
| Deadlines.RoomRefundsFirst | tclk-rail-evm/src/deal.ts:578-601 | a refund frame that is ingested can be taken while the rail would not refund if and only if the room's deadline is the earlier; on an agreed escrow, if and only if it is not a whole second |
| Deadlines.StartInv | tclk-rail-evm/src/deal.ts:305-373 | every created deal starts a world of the invariant |
| Deadlines.WorldStepKeepsInv | tclk-rail-evm/src/app/orchestrator.ts:275-330 | steps of the room, the clock, the orchestrator and of anyone on the chain keep the invariant: what verifyLock or reconciliation once compared holds for good, and VERIFIED means compared |
| Deadlines.EscrowSettlesOnce | tclk-rail-evm/contracts/Htlc.sol:116-163 | no later step changes a claimed or refunded escrow |
| Deadlines.RevealIsClaimable | tclk-rail-evm/src/app/orchestrator.ts:510-570 | in every run, once the escrow was compared, a reveal the room takes finds the claim open or made and the refund shut |
| Deadlines.RefundReconciles | tclk-rail-evm/src/app/orchestrator.ts:654-723 | in every run, once the escrow was compared, the room takes the payer's refund whenever the rail refunds or has refunded |
| Deadlines.SyncRefundIsTaken | tclk-rail-evm/src/app/orchestrator.ts:286-292 | the refund frame that sync applies by itself is taken on an unsettled deal exactly when it names the payer, at any moment |
| Deadlines.SyncRefundsEarly | tclk-rail-evm/src/app/orchestrator.ts:286-292 | on any live escrow some such frame makes the room refund before the rail, exactly while the rail does not refund, and no reveal is taken afterwards |
| Deadlines.RevealCanBeStranded | tclk-rail-evm/src/app/orchestrator.ts:531-570 | from a LOCKED deal without an escrow, some run has the reveal taken with the claim shut and the refund open, if and only if a whole second lies between now and the room's deadline; never after a comparison |
| Deadlines.EndsApart | tclk-rail-evm/src/deal.ts:578-601 | a locked or refunded deal has a run that ends REFUNDED with the escrow claimed, if and only if the escrow was claimed or still can be |
| Deadlines.EndsUnpaid | tclk-rail-evm/src/app/orchestrator.ts:277-285 | a revealed deal has a run that ends CLAIMED with the escrow refunded, if and only if the escrow was not claimed |
| Base58.MultiplyAdd | site/explorer.js:231-242 | one character's multiply and carry passes give 58 v + d in bytes below 256 with a nonzero top byte |
| Base58.DecodeBase58 | site/explorer.js:225-248 | throws exactly outside the alphabet, and otherwise returns a zero byte for each leading '1' and then the number |
| Base58.DecodedMeaning | site/explorer.js:225-248 | value and leading zeros of the result are the text's unless every character is '1'; then there is one zero too many |
| Base58.DecodeInjective | site/explorer.js:225-248 | no two texts decode alike |
| Base58.EncodeReads | site/explorer.js:225-248 | every byte string with a nonzero byte is decoded from its Base58 encoding |
| Base58.DecodedImage | site/explorer.js:225-248 | the decoder reaches exactly the nonempty byte strings |
| Base58.ExtractEd25519PubKey | site/explorer.js:251-262 | the key of an identifier, and exactly when there is one |
| Base58.KeysAndIdentifiers | site/explorer.js:251-262 | keys coincide exactly when 34 payload bytes do; for payloads of 34 bytes that is one identifier |
| Base58.KeyHasIdentifiers | site/explorer.js:251-262 | any key has an identifier for every tail after its 34 bytes |
| IntBits.AndBit | src/tc_ledger/cross_verify.py:75-78 | conjunction with a negative complement acts bit by bit |
| Keccak.RotatedBit | src/tc_ledger/cross_verify.py:64-73 | a masked shift up or-ed with a shift down rotates each bit |
| Keccak.ThetaPass | src/tc_ledger/cross_verify.py:63-67 | the in-place pass is theta of section 3.2.1 of FIPS 202, lanes below 2^64 |
| Keccak.RhoPiPass | src/tc_ledger/cross_verify.py:68-74 | the walk with one pending lane is rho then pi, sections 3.2.2 and 3.2.3, on all 25 lanes at once |
| Keccak.ChiPass | src/tc_ledger/cross_verify.py:75-78 | the row pass is chi, section 3.2.4 |
| Keccak.IotaPass | src/tc_ledger/cross_verify.py:79 | the round constant is iota, section 3.2.5 |
| KeccakSpec.TableIsGenerated | src/tc_ledger/cross_verify.py:47-54 | all 24 table entries are the constants that the feedback register of section 3.2.5 generates |
| KeccakSpec.WalkVisits | src/tc_ledger/cross_verify.py:69-74 | step t of the walk is the only one at its lane, and rotates by the offset of that lane |
| KeccakSpec.EveryLaneVisited | src/tc_ledger/cross_verify.py:69-74 | 24 steps reach every lane but the origin |
| Keccak.Permute | src/tc_ledger/cross_verify.py:62-79 | 24 rounds in place are Keccak-f[1600] |
| KeccakSponge.PaddingIsPad101 | src/tc_ledger/cross_verify.py:55-57 | the padding bytes are pad10*1 for the rate and fill whole blocks |
| KeccakSponge.PaddingInjective | src/tc_ledger/cross_verify.py:55-57 | no two messages pad alike |
| KeccakSponge.AbsorbBlock | src/tc_ledger/cross_verify.py:58-61 | little-endian words xored lane by lane absorb the block's bit string |
| KeccakSponge.Keccak256 | src/tc_ledger/cross_verify.py:44-84 | the digest is the first 256 bits of the sponge over the padded message |
| Signature.DecodeEncode | src/tc_ledger/ledger.py:137-153 | base64 decoding inverts encoding |
| Signature.DecodeSignature | src/tc_ledger/ledger.py:130-153 | accepted are exactly the 86-character form of some 64 bytes and that form with two pads, and those bytes are returned |
| Signature.SignatureTexts | src/tc_ledger/ledger.py:130-153 | the two accepted forms of a value differ, and no text stands for two values |
| Signature.SignedTextUnambiguous | src/tc_ledger/ledger.py:79-155 | in rooms without a bar, which the code demands, one signed text is one room, nonce and text |
| Signature.BarsMakeRoomsCollide | src/tc_ledger/ledger.py:79-155 | without that demand two rooms share signed texts |
| PyHex.NormalizeIsCanonical | src/tc_ledger/cross_verify.py:148-159 | normalize_hex yields 0x and an even number of lower-case digits |
| PyHex.NormalizeCanonical | src/tc_ledger/cross_verify.py:148-159 | such texts are its fixed points |
| PyHex.NormalizeExactly | src/tc_ledger/cross_verify.py:148-159 | there is a result exactly for at least one hex digit, prefixed or not, between blanks: 0x and those digits in lower case, a zero in front of an odd number of them |
| Receipts.ParseAndVerifyErc20Transfer | src/tc_ledger/evm_verifier.py:43-148 | succeeds exactly when some log records this transfer on a usable, non-zero token, and returns those four values whatever the order of the logs |
| Receipts.ParseAndVerifyHtlcEvent | src/tc_ledger/evm_verifier.py:229-396 | guards, loop, two filters and the count compute the declared parse |
| ReceiptLaws.QuantityIsRead | src/tc_ledger/evm_verifier.py:241-296 | a status or block number is read as n exactly when it denotes n: text after 0x spells it in hex of either case, other text in decimal |
| ReceiptLaws.TextDenotes | src/tc_ledger/evm_verifier.py:241-296 | hex and decimal text of a number, in any number of digits, denote it |
| ReceiptLaws.ParsedMeansOne | src/tc_ledger/evm_verifier.py:229-396 | success with e holds if and only if the guards hold, no log ends the parse and exactly one log passes every filter and reads as e |
| ReceiptLaws.OrderIsIrrelevant | src/tc_ledger/evm_verifier.py:273-396 | reordering the logs changes neither success nor the event |
| ReceiptLaws.EventMeetsExpectations | src/tc_ledger/evm_verifier.py:241-384 | the event meets each usable expectation of address, contract id and kind, and its receipt reports success, goes to that address and is of the event's block |
| ReceiptLaws.UnusableExpectations | src/tc_ledger/evm_verifier.py:259-271 | an address or id that does not normalize gives the parse without it |
| AbiRoundTrip.ForeignReceiptAccepted | src/tc_ledger/evm_verifier.py:259-296 | for every contract a receipt that passes under an unusable address |
| ReceiptLaws.LockedTokenWasTransferred | src/tc_ledger/evm_verifier.py:320-332 | a reported token lock comes with the token's transfer of that amount from payer to escrow in the same receipt |
| AbiRoundTrip.TransferReads | src/tc_ledger/evm_verifier.py:79-130 | the log of a token transfer reads as its token, sender, receiver and amount |
| AbiRoundTrip.TransferWasLogged | src/tc_ledger/evm_verifier.py:79-130 | a transfer that is read stands in its log: emitter, padded sender, padded receiver, and the amount in the digits of the data |
| AbiRoundTrip.LockedReads | src/tc_ledger/evm_verifier.py:298-346 | under any address filter for its contract, the log of a Locked event reads as its own fields, and raises exactly without the token's transfer |
| AbiRoundTrip.LockedParses | src/tc_ledger/evm_verifier.py:229-396 | where that log is the only match of a receipt whose status denotes 1, as hex or decimal text or a number, the parse that expects its contract, id and kind returns its fields and block if and only if it locks ether or the transfer is in the receipt |
| AbiRoundTrip.ClaimedParses | src/tc_ledger/evm_verifier.py:229-396 | likewise for a receipt whose only match is a Claimed log |
| AbiRoundTrip.RefundedParses | src/tc_ledger/evm_verifier.py:229-396 | likewise for a receipt whose only match is a Refunded log |
| AbiRoundTrip.LockedWasEncoded | src/tc_ledger/evm_verifier.py:298-346 | on hex data a reported lock is the encoding of its fields, but for the token word's first twelve bytes and any tail |
| Settlement.BuildRpcSettlementEvidence | src/tc_ledger/evm_verifier.py:399-526 | evidence is what the lock event and the given settlement determine, and an error in every other case |
| Settlement.FetchedIsAsked | src/tc_ledger/evm_verifier.py:206-226 | a receipt is used only if it says that it is for the transaction asked about |
| Settlement.EvidenceIsOneEscrow | src/tc_ledger/evm_verifier.py:399-526 | each field of the evidence is the lock event's; lock and settlement are of one escrow contract in block order, the status names the transaction given, and their ids agree exactly when the lock's could be read |
| Settlement.UnreadableIdIsUnchecked | src/tc_ledger/evm_verifier.py:434-458 | a lock without a readable id and the claim of any other id on its contract make evidence |
| CrossLayer.VerifyCrossLayer | src/tc_ledger/cross_verify.py:781-1068 | the accumulated reasons are empty exactly when anchors, transcript, all term bindings and provenance hold, and name nothing but provenance exactly when the rest holds |
| CrossLayer.VerifyDeal | src/tc_ledger/cross_verify.py:640-1070 | from either source of evidence, the caller's dictionary or a node's transactions, the artifact and its verdict |
| CrossLayer.VerifyStandaloneProof | src/tc_ledger/cross_verify.py:1338-1726 | valid and conformant are exactly their declarative meanings over the artifact |
| CrossLayerLaws.NormalOfLower | src/tc_ledger/cross_verify.py:148-159 | normal forms do not depend on letter case, so the two verifiers' comparisons can be related |
| CrossLayerLaws.ConformanceNeedsReceipts | src/tc_ledger/cross_verify.py:324-345 | only evidence read from transactions can conform |
| CrossLayerLaws.ConformantIsConfirmed | src/tc_ledger/cross_verify.py:640-1726 | every artifact the cross-layer verifier calls conformant is valid and conformant standalone, under the same anchors and without any |
| CrossLayerLaws.ConformantIsOnChain | src/tc_ledger/cross_verify.py:640-1070 | a conformant verdict means one Locked event in a successful receipt with the agreed hashlock, amount and asset, and the agreed id where readable; the token's transfer beside it; and for a given claim a Claimed event whose secret opens the hashlock |
| CrossLayerLaws.ConformsExactly | src/tc_ledger/cross_verify.py:640-1070 | from the caller's inputs, the verdict is reached and conformant if and only if the given anchors hold, the transcript is signed, included and without anomalies, and the transactions give a lock and at most one settlement that are what was agreed, each given payment key deriving its party's address |
| CrossLayerLaws.SelfAttestedIsValid | src/tc_ledger/cross_verify.py:1338-1726 | the artifact of a dictionary is never conformant standalone, and valid exactly when anchors, transcript and terms held, no transfer is claimed, no claim precedes the lock and any secret fits the hashlock |
| CrossLayerLaws.EditedArtifactConforms | src/tc_ledger/cross_verify.py:1338-1726 | which edits of a conformant artifact's agreement the standalone check still calls conformant, exactly |

## Left out

- Tree size: a root does not commit to it, so the soundness theorems take the size of the export as given.
- Hex text of roots and nodes in `ledger.py`, `archiver.ts` and `explorer.js` arguments: the model takes decoded bytes, and text that does not decode is `WrongType`.
- Python type checks that raise on arguments of the wrong type.
- RoundTrip.ValueReads: JSON numbers are safe integers here; other numbers, which the code prints and parses, are not modelled.
- RoundTrip.CanonicalRoundTrip: numbers other than safe integers are not modelled.
- RoundTrip.CanonicalUnambiguous: numbers other than safe integers are not modelled.
- Frames.FrameRoundTrip: frames with fractional or unsafe numbers are not modelled.
- Frames.LinesUnambiguous: frames with fractional or unsafe numbers are not modelled.
- RoomAdapter.RoomDealAdapter.IngestRecord: an offer whose rails list has an entry that is not text ends as a BadFrame here; the code accepts it and files the offer.
- CrossLayer.VerifyStandaloneProof: covers the artifacts that the cross-layer verifier writes, not every document of the schema.
- A JSON size or index beyond 2^53 that is not a JavaScript number is rounded when the browser reads it, before the model begins.
- Letter case outside ASCII, white space outside ASCII, and the text that only Python's `int` takes (signs, underscores, inner spaces).
- A receipt's data or block number given as a JSON float, list or object, and event data given as a JSON number.
- Decimal text of amounts in `evm_verifier.py`: amounts are numbers, and the decimal text is a parameter where the two verifiers compare it.
- `parse_export_lines` and `parse_deal_archive`: the parsed agreement and transcript are inputs of the cross-layer model. The latter calls a function with arguments it does not take.
- `parse_settlement_evidence` beyond the provenance it forces: a dictionary's other fields are arbitrary.
- Embedded frames, raw lines, Merkle proofs and evidence ids in standalone artifacts: the cross-layer verifier does not write them. JSON Schema validation is a given truth value.
- secp256k1 address derivation, SHA-256, Ed25519, `Date.parse` and the `BigInt` constructor are parameters.
- Awaits inside `ingestRecord`: a record is ingested in one step.
- Monotonicity of a whole room key: a re-sent offer replaces the deal filed under its id; the run theorems are about one deal object.
- `attachLedgerCommitment`, archiving, sessions, CLIs, HTTP and the wallet; address, token and amount resolution are parameters.
- Transactions that stay unmined or are replaced: a step on the chain is a call that the contract executes.
- Deadlock of the orchestrator: it can call itself under its own lock; only exclusion, order and progress of the queue are modelled.
- `Htlc.sol` beyond its status, deadline and hash guards: token transfers are not modelled.
- Deadlines.WorldStepKeepsInv: room events carry the shared clock, so clock skew between room and chain is not modelled.
