# fin6: ceremony, history, ledger, grids

fin6 is a ledger kept by grids of nodes. Each grid holds a ceremony, a synchronous exchange on a ring-and-column
graph, that ends in a block and a quorum certificate or in nothing. Certified grid blocks are merged upwards, tier by tier,
into one network block, which moves money, advances every grid's register and may found or fold away a grid. Network
blocks are then hardened by stamps that spend one-time turns of an era, and the heaviest hardened branch wins.

This project models those parts as Dafny classes, methods and functions in the shape of the code, and proves what they
are for: agreement and completion of the ceremony, soundness and completeness of the Merkle proofs, the price of a
rewrite and the convergence of fork choice, conservation of money over whole runs, merged deltas as sequential
execution, one block a height through view changes, the partition of the network among its grids over any run, that
what a leader builds every seat accepts, and what an accepted certificate, spend, stamp, block or header is worth. Where the code does not have a property it is for, a lemma gives the failing
input and another the exact condition ("Findings" below).

## How the code is modelled

- An object whose methods change it is a class with those fields (`WitnessTree`, `SealAccumulator`, `HeaderHistory`,
  `Envelope`, `NetworkHistory`, `TxSystem`, `ChainState`, `Topology`, `GridRegister`, `TierWorld`, `Node`). Each method
  is proved against a function or relation on values, and the theorems are about those.
- Node ids and hashes that are only compared stand for their rank in the string order. A dict is walked in an arbitrary order,
  except the mempool, whose insertion order the code uses.
- Digests are a free algebra. A root, digest or block hash stands for what it is computed from. Text that is hashed into a
  leaf stays text, so that two texts that collide as text do collide.
- Signatures are ideal: one signature verifies under a key for a statement. A corrupt seat can make any statement under its
  own key and none under another's.
- A proof of a transaction holds only where a witness exists (`Sound`), and, for the converse results, wherever one does
  (`Complete`). Commitments open one way (`Binding`). The modulus is any prime, said as "a product vanishes only with a factor" (`Field`).
- The puzzle, the probe stream of the draw, the seating order and the draws of the grids are arbitrary functions.
- `Option` and `Result` stand for the exceptions and None results of the code.

## Model

| member | source | states |
|---|---|---|
| Distances.Bfs | chain/ceremony.py:146-162 | The queue loop's table of distances is exact: a seat is in it, with distance at most k, exactly when it is within k steps of the source, for every k |
| Distances.Diameter | chain/ceremony.py:146-162 | The result is -1 only if some seat cannot reach another; otherwise everyone is within it of everyone, and, if it is positive, not everyone is within one step less |
| Distances.BallsCompose | chain/ceremony.py:146-162 | What is j steps from something i steps away is i + j steps away: the step that turns a diameter into twice the diameter |
| CeremonyGrid.Grid.Edges | chain/ceremony.py:131-137 | The edge list holds every front, right or mutual link exactly once, smaller end first, in strictly ascending order |
| CeremonyGrid.Grid.DiameterOf | chain/ceremony.py:146-162 | On any well-seated grid the computed diameter is never -1, at most twice the number of rows, and it is the least bound on the distance of two seats |
| CeremonyGrid.Grid.AllWithin | chain/ceremony.py:110-162 | Every two seats are at most twice the number of rows apart, because each reaches the leader straight up its column |
| CeremonyGrid.Grid.LinkedIff | chain/ceremony.py:110-137 | Two seats are linked exactly when one sits right in front of the other, or next to it in its row, the last seat next to the first |
| Seating.SeatAll | chain/ceremony.py:68-106 | Seating fails exactly for fewer than two ids or an empty pool of leaders; otherwise everyone is seated once, the leader is the first of the pool, and no counting seat has a non-counting seat in front of it |
| Seating.PlacesDiffer | chain/ceremony.py:95-106 | Cutting distinct ids into rows gives every place its own id |
| Envelope.Envelope.AddProposal | chain/ceremony.py:226-239 | Adds a proposal exactly when the rules admit it and its hash is new, and says whether anything changed |
| Envelope.Envelope.AddAttestation | chain/ceremony.py:241-255 | Files a checked attestation under its node, counting seats apart from the others, one per seat, and says whether anything changed |
| Envelope.Envelope.AddFault | chain/ceremony.py:257-268 | Keeps a verified fault report under its identity once, and says whether anything changed |
| Envelope.Envelope.Absorb | chain/ceremony.py:270-280 | Whatever order the other envelope's dicts are walked in, the result is the checked union: a function of the two contents |
| Ceremony.ReactionExists | chain/ceremony.py:506-534 | Every seat state has a reaction: idle, attest, refuse or denounce |
| Ceremony.ReactionIsUnique | chain/ceremony.py:506-534 | A seat state has only one reaction, down to which two proposals it reports |
| CeremonyRun.React | chain/ceremony.py:506-534 | The branches of `_react` carry out that one reaction on the envelope, the validation record and the reacted flag; what it means for the validation is `CeremonyValidation.SeatIsTrusty` |
| CeremonyRun.Round | chain/ceremony.py:459-498 | One snapshot round over the edges, with corrupt seats sending what they can forge, takes every seat from its state after t rounds to its state after t + 1 |
| CeremonyRun.Rounds | chain/ceremony.py:459-498 | The whole loop of a run, for any proposals, any corrupt seats and any number of rounds, ends in the state the round-by-round definition gives, over the edges the grid lists |
| CeremonyDecision.Decide | chain/ceremony.py:566-642 | Every seat's verdict is the one the rule gives its final state, and the outcome, certificate included, is the one those verdicts give |
| CeremonyTheorems.RunCeremony | chain/ceremony.py:435-642 | Seeding, rounds and decision together end in an outcome of the schedule, for every leader behaviour and adversary |
| CeremonyAgreement.ExistingIsHonest | chain/ceremony.py:241-255 | An attestation that passes the check and whose signature can exist is either a corrupt seat's, or names the one block its seat validated and accepted |
| CeremonyAgreement.HonestAttestsOnce | chain/ceremony.py:506-534 | In every round of every run an honest seat's attestation, wherever it is held, names the one block that seat accepted |
| CeremonyAgreement.Agreement | chain/ceremony.py:506-594 | Any two seats that accept, in any run under any leader, accept one block, whenever twice the quorum exceeds the counting seats plus those of them that sign arbitrarily |
| CeremonyAgreement.AgreementAtTwoThirds | chain/params.py:169-172 | At the shipped quorum of two thirds rounded up, fewer than a third of the counting seats may sign arbitrarily |
| CeremonyTheorems.NeverDifferentBlocks | chain/ceremony.py:594-613 | No run ends in the branch for seats that accepted different blocks while twice the quorum exceeds the counting seats plus those of them that sign arbitrarily |
| CeremonyTheorems.CertificateVerifies | chain/ceremony.py:614-642 | Whatever certificate any run finalises with satisfies the quorum check of `verify` on the block it names |
| CeremonyCompletion.RoundSpreadsProposal | chain/ceremony.py:459-498 | In an honest run a round loses no proposal and brings a seat every proposal a linked seat had |
| CeremonyCompletion.ProposalReaches | chain/ceremony.py:459-534 | In an honest run every seat within t steps of the leader holds the proposal after t rounds, and has attested to it |
| CeremonyCompletion.AttestationReaches | chain/ceremony.py:459-534 | In an honest run a seat j steps from a seat that is i steps from the leader holds that seat's attestation once i + j rounds have passed |
| CeremonyCompletion.EveryoneAccepts | chain/ceremony.py:459-594 | After twice the diameter every seat accepts the proposal, for any quorum the counting seats can reach |
| CeremonyTheorems.HonestRunFinalises | chain/ceremony.py:459-642 | An honest run of at least twice the diameter finalises the leader's proposal with exactly the counting seats as signers and exactly the other seats as shadows |
| CeremonyTheorems.RunHonest | chain/ceremony.py:435-642 | The default schedule of max(2, 2 * diameter) rounds with an honest leader finalises the proposal, and the certificate then passes `verify` |
| CeremonyValidation.SeatIsTrusty | chain/ceremony.py:506-534 | In every round of every run a seat's verdict on its one block is what its own validation says of that block, which it holds; every proposal held is the leader's, every report its reporter's, and a seat that refused reports the block |
| CeremonyValidation.AcceptedIsValidated | chain/ceremony.py:566-594 | A seat that accepts a block holds that one proposal only, attested to it, and its validation passed it |
| CeremonyValidation.ReactedNeverAccepts | chain/ceremony.py:506-594 | A seat that refused a block or denounced the leader accepts nothing, and a refused block is one its validation fails and its report names |
| CeremonyValidation.FinalisedIsValidated | chain/ceremony.py:594-642 | In every run the finalised block passed the validation of every accepting seat, of at least a quorum of seats, of every signer that is not corrupt, and of at least quorum minus traitors honest counting seats |
| CeremonyValidation.NobodyValidatesNobodyFinalises | chain/ceremony.py:566-642 | A block no seat's validation passes is finalised in no run, whoever signs what |
| CeremonyValidation.DenouncingDrops | chain/ceremony.py:506-525 | A seat that meets a second proposal denounces the leader, once, and gives up its own attestation |
| CeremonyValidation.ShownIff | chain/ceremony.py:300-304 | In every run a seat sees an equivocation exactly when it holds a report of that kind: none it holds is unsubstantiated |
| CeremonyValidation.AnyonesPairIsShown | chain/ceremony.py:257-304 | Two signed blocks of anyone for this height are admitted as a report and abort the seat as the leader's own would |
| CeremonyValidation.ReportsReach | chain/ceremony.py:459-498 | Among honest seats a report filed anywhere is in every envelope within as many rounds as steps |
| CeremonyValidation.HashesReach | chain/ceremony.py:459-498 | So is every proposal, of however many the leader hands out |
| CeremonyValidation.EquivocationStopsTheRun | chain/ceremony.py:459-642 | A leader that hands two signed blocks to any two seats finalises nothing: after the diameter among honest seats everyone holds both and nobody accepts |
| Seats.CanonicalOrder | chain/seats.py:35-41 | The order lists the members once each, strictly ascending |
| Seats.SortedListIsUnique | chain/seats.py:35-41 | Two strictly ascending lists of one set of members are equal, so the order is a function of the set |
| Seats.ToBits | chain/seats.py:71-80 | Succeeds exactly when every signer is a seat, and then gives the bitmap whose bits are exactly the signers' places |
| Seats.FromBits | chain/seats.py:83-102 | Succeeds exactly on the well-formed bitmaps, those that encode some set of seats, and lists that set in seat order |
| Seats.BitmapIsUnique | chain/seats.py:71-80 | A set of seats has one bitmap |
| Seats.BitsRoundTrip | chain/seats.py:71-102 | Reading back the bitmap of sorted signers gives the signers |
| Seats.NamesRoundTrip | chain/seats.py:71-102 | Writing out the seats a well-formed bitmap names gives the bitmap |
| QuorumCert.CompactForm | chain/block.py:460-478 | Succeeds exactly when every signer, shadow ones included, is a seat, and swaps the two lists for bitmaps bound to the seat order, changing nothing else |
| QuorumCert.ExpandedForm | chain/block.py:480-495 | Undoes a compact form of the same order; refuses one made against another order |
| QuorumCert.CompactThenExpand | chain/block.py:460-495 | Compacting then expanding a certificate with sorted distinct seats is the identity |
| QuorumCert.Verify | chain/block.py:497-568 | The full verdict of both forms, said of the plain certificate: right block, known scheme, signers among the seats, distinct, with valid signatures, at least the quorum, and a root that matches; what passes names different seats of the roster, at least the quorum, each of whose keys signed this statement |
| QuorumCert.SameVerdict | chain/block.py:460-568 | Both encodings of one certificate get the same verdict for every quorum, block and roster |
| QuorumCert.ValidIsVouched | chain/block.py:497-568 | The signers of a valid certificate are at least quorum different seats of the roster, each with a signature of its own key on the statement |
| CertificateWorth.ShadowsSignedToo | chain/block.py:497-568 | Shadow signers signed the statement too, are of the roster, and are none of the signers that count |
| CertificateWorth.RootPinsTheSigners | chain/block.py:407-420 | Verified certificates with one root have one list of signers and signatures |
| CertificateWorth.CertificatesMeet | chain/block.py:497-568 | Two certificates under one roster share a signer that is not faulty, when twice the quorum exceeds the roster plus its faulty seats |
| CertificateWorth.OneBlockCertifiedIff | chain/block.py:497-568 | Whatever anyone signs, honest seats one block a height, no height of a chain has two certified blocks exactly when twice the quorum exceeds the roster plus its faulty seats |
| CertificateWorth.TwoCertificates | chain/block.py:497-568 | Otherwise: signatures in which every honest seat signs one block, and two certificates on two blocks of one height that verify |
| Digests.SubIsDefault | chain/seal.py:94-99 | A node equals its level's default exactly when no leaf is below it, so storing the rest loses nothing |
| Digests.ClimbOpens | chain/seal.py:279-308 | Any climb that lands on a tree's node started from a leaf that is there, at that position, at exactly that depth |
| WitnessTree.CanonicalIsUnique | chain/seal.py:111-131 | The stored table is a function of the leaves: two trees of one height with the same leaves store the same nodes |
| WitnessTree.WitnessTree.Set | chain/seal.py:146-161 | Refuses exactly the positions outside the tree, changing nothing; otherwise one leaf changes, the size grows to cover it, and the stored nodes are again exactly the non-default ones |
| WitnessTree.WitnessTree.Clear | chain/seal.py:163-178 | Takes out one leaf, and shrinks the size to a cleared position below it |
| WitnessTree.WitnessTree.Extend | chain/seal.py:185-188 | Appends every value in turn; fails exactly when they do not all fit |
| WitnessTree.WitnessTree.Path | chain/seal.py:192-206 | The path of a filled slot is accepted for the value it holds against the tree's root |
| WitnessTree.WitnessTree.Boundary | chain/seal.py:218-229 | One walk gives the prefix's node above the cut at every level |
| WitnessTree.WitnessTree.RootAt | chain/seal.py:231-237 | The root of a tree that holds only the first k leaves, for every k, negative and too large ones included, as long as no leaf lies past the size; otherwise, for k at or above the size, the root of all leaves |
| WitnessTree.WitnessTree.PathAt | chain/seal.py:239-260 | None exactly for a position at or above a cut that is below the size; for a filled position the path is accepted against the root `RootAt` gives for that cut |
| WitnessProof.CompressRoundTrip | chain/seal.py:192-206 | The bitmap and short list of a full sibling list expand to that list, with one set bit for each listed entry |
| WitnessProof.VerifyWitness | chain/seal.py:279-308 | The verifier's loop accepts exactly the well-formed proofs whose siblings climb from the value's leaf to the root |
| WitnessProof.AcceptedOpensToTheLeaf | chain/seal.py:279-308 | Any proof accepted against a tree's root has that tree's height and opens to the value really at its position |
| WitnessProof.OwnSiblingsAccepted | chain/seal.py:192-206 | A tree's own siblings, compressed, make a proof that is accepted against its root |
| SealAccumulator.SealAccumulator.Add | chain/seal.py:331-340 | Succeeds exactly for a value never added while the tree has room; a full tree refuses only after list, index and seal tree have moved, leaving the set invalid |
| SealAccumulator.SealAccumulator.Spend | chain/seal.py:342-353 | Buries exactly the value's slot in both trees, and refuses exactly a stranger or a spent value, changing nothing |
| SealAccumulator.SealAccumulator.Unspend | chain/seal.py:355-365 | Puts exactly a spent value's slot back, and refuses exactly a stranger or a live value, changing nothing |
| SealAccumulator.SealAccumulator.Truncate | chain/seal.py:367-388 | Drops the last values exactly when the count fits and none of them is spent; refused for a spent slot, it has already deleted the index entries below that slot, and stays valid exactly when there are none |
| SealAccumulator.SealAccumulator.Rebuild | chain/seal.py:488-496 | On a valid set the batch build changes nothing: the trees kept in place are, node for node, the ones it makes |
| SealAccumulator.SealAccumulator.WitnessPath | chain/seal.py:431-442 | Gives a proof exactly when the value is live, and the proof is accepted |
| SealAccumulator.Load | chain/seal.py:462-486 | Succeeds exactly on distinct values with dead slots in range that fit the tree, and gives the valid set with that dump |
| SealTheorems.ProvableIff | chain/seal.py:26-37 | Some proof of a value's live leaf is accepted exactly when the value is live or spells out the tombstone of a spent one |
| SealTheorems.ProvableMeansLive | chain/seal.py:431-442 | A value that does not begin with the tombstone prefix has an accepted proof of its live leaf exactly when it is live |
| SealTheorems.TombstonesCanBeForged | chain/seal.py:22-27 | A dump, a value never added to it and a proof of that value's live leaf that is accepted |
| SealTheorems.SameRootSameLeaves | chain/seal.py:111-131 | Two trees of one height with one root hold the same leaves at the same places |
| SealTheorems.RootPinsTheDump | chain/seal.py:427-459 | Equal witness roots mean equal dumps, when no value spells a tombstone |
| SealTheorems.SpentAllIs | chain/seal.py:342-353 | A list of spends goes through exactly when its values are distinct and live, and buries exactly their slots |
| SealTheorems.UndoRestores | chain/seal.py:355-388 | Unspending a delta's inputs and truncating its outputs restores the dump from before, hence both roots |
| SealTheorems.UnspentIff | chain/seal.py:355-365 | Unspending is the inverse of spending and nothing else: it leads to a set exactly when spending the value there leads back |
| SealTheorems.TruncatedIff | chain/seal.py:367-388 | Truncating leads to a set exactly when adding the cut values there leads back |
| HeaderHistory.HeaderHistory.Append | chain/seal.py:540-543 | Adds one hash at the end, and refuses, changing nothing, exactly when the tree is full |
| HeaderHistory.HeaderHistory.TruncateTo | chain/seal.py:545-549 | Keeps the first blocks up to the given height, whatever height is given |
| HeaderHistory.HeaderHistory.RootAt | chain/seal.py:574-576 | The root the header after `count` blocks committed, for every count, out of range ones included |
| HeaderHistory.HeaderHistory.ProofOf | chain/seal.py:556-572 | Gives a proof exactly for a height in the spine not above the cut, and `verify_ancestry` accepts it against that cut's root |
| HeaderHistory.AncestryIsReal | chain/seal.py:598-608 | An accepted ancestry proof names a hash that sits in the spine at the height the proof claims |
| HeaderHistory.AncestryIff | chain/seal.py:556-608 | Some proof for a hash and a height is accepted under a root exactly when that hash is at that height |
| HeaderHistory.RootPinsTheSpine | chain/seal.py:579-580 | One root names one spine |
| Wots.Digits | chain/hardening/wots.py:61-87 | Exactly the 32-byte messages have digits: the nibbles, then the first three nibbles of the shifted three-byte checksum |
| Wots.ChainsCompose | chain/hardening/wots.py:54-58 | Walking a chain a steps and then b is walking it a + b |
| Wots.RecoveryIff | chain/hardening/wots.py:95-123 | A signature recovers a turn's public key exactly when it is the one that turn makes for the message |
| StampBinding.SignatureFixesMessage | chain/hardening/wots.py:95-123 | Signatures of two messages differ, whoever made them |
| EraPool.NewEra | chain/hardening/pool.py:74-100 | Builds the levels of the era's tree, and refuses exactly more turns than leaves |
| EraPool.Era.AuthPath | chain/hardening/pool.py:114-119 | Gives the siblings of a leaf up to the root, and fails exactly for an index past the leaves of a tree with at least one level |
| EraPool.MembershipIff | chain/hardening/pool.py:153-164 | Membership accepts, at each index, the leaf that is there with the tree's own path and nothing else |
| EraPool.OnlyItsOwnKeys | chain/hardening/pool.py:88-100 | The only keys an era's tree knows are those of its turns, each at its own index; the padding is nobody's |
| Stamps.Mine | chain/hardening/stamp.py:95-107 | Returns the least nonce that solves the puzzle with the turn's own path and signature, and fails exactly for a bad turn, a malformed puzzle or no nonce in range |
| Stamps.AcceptsIff | chain/hardening/stamp.py:110-125 | A stamp verifies exactly when its nonce solves the puzzle and it is, path and signature, the one its turn makes for that anchor and nonce |
| StampBinding.StampIsForOneBlock | chain/hardening/stamp.py:29-64 | A stamp that verifies in two blocks, in whichever eras, is in two blocks of one hash, one height and one era, or the two show a collision of the puzzle hash |
| StampBinding.NoStampHardensTwo | chain/hardening/history.py:311-350 | No stamp of a valid history stands in two blocks or twice in one, unless two blocks show such a collision |
| StampBinding.StampIsWork | chain/hardening/stamp.py:110-125 | Every stamp of a passing block is a drawn turn's and solves the puzzle of this block's hash, height and era at the required difficulty |
| Draw.CommitteeIsFresh | chain/hardening/draw.py:32-52 | A committee is exactly width different turns of the era, none of them spent |
| Draw.ExhaustedIff | chain/hardening/draw.py:32-52 | The draw gives up exactly when the first 64 * width + 64 + 4 * turns + 1 probes point at fewer than width unspent turns |
| Draw.DrawTurns | chain/hardening/draw.py:32-52 | The probe loop computes that draw, wherever it stops |
| StampBinding.CommitteeIsOfTheParent | chain/hardening/draw.py:23-52 | The committee of a passing block is drawn from the stream of its parent, height and era, among the turns unspent on that branch |
| StampBinding.SpentRootPinsTheTurns | chain/hardening/history.py:311-350 | Held blocks with one spent root stand on branches with one set of spent turns, at one height |
| History.InsertValidIff | chain/hardening/history.py:392-404 | A block that passes keeps the store a tree of branches exactly when its hash is new and not genesis |
| History.HeldBlockPassesAgain | chain/hardening/history.py:392-404 | Every block a history holds passes again, and taking it in again breaks the index |
| History.RepeatMakesCycle | chain/hardening/history.py:150-166 | A passing block with a held hash, on top of that hash's own child, closes a loop no branch walk leaves |
| HistoryTheorems.BranchCounts | chain/hardening/history.py:150-211 | On every branch height is the length, cumulative the sum of weights, and the spent turns number width times the height, all of them in the era |
| HistoryTheorems.HeightIsBounded | chain/hardening/history.py:150-166 | No branch of a valid history is longer than turns over width |
| HistoryTheorems.PoolRunsOut | chain/hardening/history.py:311-350 | A block passes `check` only on a branch that still has width turns left |
| HistoryTheorems.RewriteCeiling | chain/hardening/draw.py:63-70 | A stretch of d blocks stamped only by an owned set of turns uses at least d times the threshold of those unspent at the fork |
| HistoryTheorems.OvertakingCost | chain/hardening/history.py:408-429 | To weigh as much as d blocks above a fork, a branch of any length stamped only by an owned set needs d times the threshold of its turns unspent at that fork |
| HistoryRuns.FormulaIsABoundIff | chain/hardening/history.py:456-458 | In one history the ceiling the code computes from the width bounds every stretch exactly when no block of that history has fewer stamps than the width |
| HistoryRuns.OneBlockIsBeyondTheFormula | chain/hardening/history.py:456-458 | Each held block with fewer stamps than the width is a stretch of depth one, stamped by its own turns unspent at the fork, for which the formula says zero |
| HistoryRuns.AcceptedBeyondTheFormula | chain/hardening/history.py:311-350 | A new block with fewer stamps than the width that passes `check` exceeds the formula as soon as it is in |
| HistoryRuns.ThresholdAtWidthSuffices | chain/hardening/history.py:311-350 | When the parameters' threshold is at least the width, the formula bounds every stretch of the history |
| HistoryWitnesses.SomeBlockIsUnderStamped | chain/hardening/history.py:311-350 | For every width of at least two, a valid history that holds a block with fewer stamps than the width |
| HistoryWitnesses.BlockExists | chain/hardening/history.py:311-350 | On an easy chain a block with any number of stamps from the threshold to the width passes on any branch the era still serves |
| NetworkHistory.NetworkHistory.SpentUpto | chain/hardening/history.py:161-166 | The walk to genesis collects exactly the turns drawn on the branch |
| NetworkHistory.NetworkHistory.CommonAncestor | chain/hardening/history.py:168-190 | Finds a block both branches contain such that no deeper block is on both |
| NetworkHistory.NetworkHistory.ReorgDepth | chain/hardening/history.py:192-199 | The number of blocks of the current branch above that fork, zero exactly when the tip is an ancestor |
| NetworkHistory.NetworkHistory.Check | chain/hardening/history.py:311-350 | Passes exactly the blocks that extend a known block at the right height, drew the right committee, and carry at least the threshold of different drawn turns' valid stamps, with the weight, total and spent root those give |
| NetworkHistory.NetworkHistory.Accept | chain/hardening/history.py:392-429 | A passing new block is kept and the tip chosen again; anything else changes nothing; no move undoes more than the limit |
| NetworkHistory.NetworkHistory.Restore | chain/hardening/history.py:354-390 | Loads a log exactly when each row passes on what the rows before it and the held blocks made; gives then the store of its rows with the held ones skipped and one choice of the tip, else stops with the tip as it was; a node that starts from nothing never halts |
| NetworkHistory.NetworkHistory.Harden | chain/hardening/history.py:215-261 | Its stamps are those of the drawn turns that are present and owned, each mined for the block's anchor; it passes `check` exactly when the block before is known and it carries the threshold of stamps, and it fails only when the draw, the era or the difficulty rules it out |
| NetworkHistory.NetworkHistory.Assemble | chain/hardening/history.py:263-293 | What it makes passes exactly when enough turns sent something and the first thing each drawn turn sent verifies |
| HistoryRuns.OrderDoesNotMatter | chain/hardening/history.py:392-404 | The blocks held are the set of blocks delivered, in whatever parent-first order |
| HistoryRuns.PlayIsUnique | chain/hardening/history.py:408-429 | Blocks, limit and start leave a node one sequence of tips and halts |
| HistoryRuns.PlayEnds | chain/hardening/history.py:408-429 | Unless it halted on the way, a node ends on the heaviest block of all, least hash on ties; a halt is for good |
| HistoryRuns.NoMoveUndoesMore | chain/hardening/history.py:192-199 | In every run no tip move undoes more blocks than the limit |
| HistoryRuns.PlaysConverge | chain/hardening/history.py:408-429 | Two nodes given the same blocks in any parent-first orders, under any two limits, end on the same tip unless one halted |
| ForkChoice.BestHasMostStamps | chain/hardening/history.py:408-429 | The best tip ends a branch with the most stamps on it, and of those the one with the least hash |
| ForkChoice.EndsOnMostStamps | chain/hardening/history.py:392-429 | So a node that has not halted ends its run there, of all blocks it was given |
| ForkChoice.HaltsIff | chain/hardening/history.py:408-429 | A running node halts exactly where the best tip is another and more than the limit of its own blocks lie above the deepest one both share; then it stays where it is |
| HistoryRuns.Converge | chain/hardening/history.py:392-429 | Two node objects fed the same blocks in any parent-first orders end valid, holding those blocks, with the tips and halts of their runs; on one tip unless one halted |
| HistoryRuns.RestartAgreesIff | chain/hardening/history.py:354-429 | A node restarted over all the blocks of its run stands where the running node stood exactly when that one had not halted |
| HistoryRuns.Restart | chain/hardening/history.py:354-429 | A node object fed blocks and one restored from a log of them, in any parent-first order, hold the same blocks, and stand alike exactly when the first has not halted |
| HistoryWitnesses.SomePlayHalts | chain/hardening/history.py:408-429 | For every limit, up to what four bytes of turns allow, a chain and blocks in an order a node takes them, which make it halt |
| HistoryRuns.MovingTheTipCosts | chain/hardening/history.py:408-429 | A move that undoes d blocks for a branch stamped only by an owned set means d times the threshold of its turns were unspent at the fork |
| TxSystem.TxSystem.constructor | chain/txsystem.py:51-182 | The rows appended family by family, and the recorded positions of each family, are those of the shape |
| TxSystem.RowPlaces | chain/txsystem.py:51-174 | Each family of rows starts where its position says and the bind row is last |
| TxSystem.RowsFit | chain/txsystem.py:51-174 | No row reaches outside the variable vector |
| TxSystem.TxSystem.F | chain/txsystem.py:211-251 | Evaluates every row at the point modulo p, and refuses exactly a point of the wrong length |
| RowTheorems.BitForced | chain/txsystem.py:121-147 | A zero bit row forces 0 or 1, because p is prime |
| RowTheorems.RecompMeans | chain/txsystem.py:121-147 | A recomposition row is the value minus the number its bits spell |
| RowTheorems.RangeForced | chain/txsystem.py:121-147 | Zero bit and recomposition rows put every output value in [0, 2^B), when 2^B is at most p |
| RowTheorems.ConservedIffPayable | chain/transaction.py:332-343 | With inputs in range, zero rows mean inputs equal outputs plus fee over the integers exactly when the fee is less than k times 2^B |
| RowTheorems.ConservedWithin | chain/transaction.py:332-343 | Zero rows mean inputs equal outputs plus fee over the integers when the inputs are in range with room for k of them below p, and m outputs of full range plus the fee come to at most p |
| RowTheorems.MintedIffInField | chain/mint.py:201-226 | With no inputs the outputs add up to the declared total exactly when the total is less than p |
| RowTheorems.LiftSatisfies | chain/txsystem.py:198-209 | A lifted block with output values in range satisfies every range row |
| Transactions.Authenticate | chain/transaction.py:267-357 | The checks in the clear pass exactly the authentic transactions: shape, repeats, every row family, binding, owners and signatures; what that is worth is `SpendAuthority.VerifiedIsSigned` and `Money.VerifiedConserves` |
| Money.VerifiedConserves | chain/transaction.py:388-422 | A verified transaction's outputs are in range, and if its inputs are, hidden values are conserved exactly when the fee is less than k times 2^B |
| Money.VerifiedConservesWithin | chain/transaction.py:388-422 | A verified transaction conserves hidden values when its inputs are in range with room for k of them, and m outputs of full range plus its fee come to at most p |
| Money.SlotValue | chain/transaction.py:300-331 | Every commitment a checked vector declares opens to the witness's slot |
| SpendAuthority.VerifiedIsSigned | chain/transaction.py:345-357 | Every input of a verified transaction opens to the owner whose key signed this chain, fee, inputs, outputs, owners, sealed openings and tags, and the nullifier it publishes is that note's |
| SpendAuthority.OneNullifierANote | chain/transaction.py:345-357 | A note has one nullifier, when commitments open one way |
| SpendAuthority.VerifiedIsOneAsset | chain/transaction.py:332-343 | All notes of a verified transaction, in and out, are of one asset |
| SpendAuthority.VerifiedMintIsOneAsset | chain/mint.py:170-237 | All notes of a verified mint are of one asset, and its proof is bound to the genesis document, the total and the outputs |
| SpendAuthority.VerifiedIsBound | chain/transaction.py:267-300 | The proof, the scalar shown and the last row of a verified transaction are bound to its whole body; it has inputs, outputs and a fee that is not negative |
| SpendAuthority.LeavingIsSigned | chain/state.py:221-229 | Every note that leaves the live set in a run of verified transactions was signed for by its owner in one of them, and its nullifier is published |
| SpendAuthority.SignatureFixesTheTransaction | chain/transaction.py:110-132 | A signature taken into another authentic transaction fits only one with the same chain, fee, inputs, outputs, owners, sealed openings and tags, or shows a collision of the binding scalar or a forgery |
| Money.MintAddsUp | chain/mint.py:170-237 | A verified mint's outputs are in range and add up to the declared total exactly when the total is less than p |
| Builders.BuildTransaction | chain/transaction.py:137-233 | Builds exactly on the inputs its guards allow; what is built passes its own checks exactly when its outputs and nullifiers do not repeat, and a witness for its proof exists |
| Builders.BuildMint | chain/mint.py:123-167 | Builds exactly on the inputs its guards allow; what is built declares the notes' sum, has a witness, and verifies exactly when its proof does |
| Builders.EveryCongruentFee | chain/transaction.py:332-343 | For every non-negative fee that is the balance modulo p some transaction with that fee passes all checks in the clear and has a witness |
| Builders.EveryCongruentTotal | chain/mint.py:201-226 | For every non-negative total that is the minted value modulo p some mint that declares it has a witness and passes every other check |
| Supply.LiveSetAfter | chain/state.py:317-332 | Applying a delta takes exactly its spent notes out of the live set and puts exactly its created ones in |
| Supply.StepHoldsIff | chain/state.py:221-229 | An accepted transaction keeps live value plus burned fees exactly when its fee is less than k times 2^B |
| Supply.RunConserves | chain/state.py:221-229 | Any run of accepted transactions with fees less than k times 2^B keeps live value plus burned fees |
| Supply.MergeConserves | chain/state.py:317-332 | Applying the merged delta of checked grids, fees as before, succeeds and keeps live value plus burned fees |
| Supply.MintStarts | chain/mint.py:170-237 | A verified mint whose total is less than p starts the supply at that total |
| Supply.MoneyIsConserved | chain/state.py:221-229 | From the mint through any run, live value plus burned fees is the minted total, and every live note is in range |
| Supply.UnpayableFeeIsAccepted | chain/transaction.py:332-343 | For any one note sent on as one note some accepted transaction has the honest balance plus p as its fee |
| Supply.OverstatedMintIsVerified | chain/mint.py:201-226 | For any one note some verified mint declares p more than it is worth |
| Ledger.AppliesIff | chain/state.py:317-344 | A delta applies exactly when `can_apply_delta` holds and it repeats nothing, and then each record changes by exactly the delta |
| Ledger.JoinAppliesIff | chain/state.py:317-332 | A joined delta is refused exactly when one of the two steps is, if the second spends nothing the first creates |
| Ledger.BatchIsSequence | chain/state.py:221-229 | Running an unchained list one by one is applying its delta, refusals included |
| Merging.MergeDeltas | chain/state.py:76-102 | The fold keeps exactly the deltas that collide with no earlier kept one and repeat no input or nullifier, merges those, and names the others |
| Merging.MergedIsDistinctIff | chain/state.py:76-102 | The merged delta repeats nothing exactly when no kept delta creates a note twice |
| Merging.CreatedTwiceIsKept | chain/state.py:76-102 | A delta that creates one note twice is kept whole, passes `can_apply_delta` wherever the note is new, and is refused by every ledger |
| Merging.MergedAppliesIff | chain/state.py:76-102 | Deltas that each pass `can_apply_delta` on one ledger merge into one that passes, and that applies exactly when no kept one creates a note twice |
| Merging.MergeAgain | chain/state.py:76-102 | Merging what was kept drops nothing and changes nothing |
| GroupWorth.DropsNothingIff | chain/state.py:76-102 | A merge drops nothing exactly when no delta repeats an input or a nullifier and no two share an input, a nullifier or a created note |
| Merging.SetDelta | chain/state.py:284-315 | A set that passes its grid's check has a delta that applies and repeats nothing |
| Merging.MergeIsSequence | chain/state.py:76-102 | Sets that each pass their grid's check on one ledger merge into a delta that passes `can_apply_delta`, and applying it is running the kept grids' transactions one by one, all accepted |
| Records.AgreeAfterIff | chain/state.py:317-332 | After a delta is applied to a ledger in order the two records of a spend agree exactly when it names as many nullifiers as inputs |
| Records.RecordsAgree | chain/state.py:124-153 | In every run of issues, transactions and merged block deltas from the empty ledger, at every point, as many notes are spent as nullifiers are published |
| ChainState.ChainState.Issue | chain/state.py:171-185 | Adds one note exactly before genesis, for a note never issued, while there is room |
| ChainState.ChainState.CheckTransaction | chain/state.py:189-219 | Passes exactly a proven transaction whose inputs are live, whose nullifiers and outputs are new, and which meets nothing seen |
| ChainState.ChainState.ApplyDelta | chain/state.py:317-332 | Succeeds exactly when every spend, nullifier and creation is in order, the trees have room, and the delta names as many nullifiers as inputs; where only the last fails, the delta is in and the ledger no longer in order |
| ChainState.ChainState.CanApplyDelta | chain/state.py:334-344 | The read-only check gives exactly the condition `AppliesIff` speaks of |
| ChainState.ChainState.CheckCeremonyTxs | chain/state.py:284-315 | Accepts exactly the sets whose every transaction verifies, is the grid's, fits the ledger of the last block and shares nothing with the others, and returns their delta |
| ChainState.ChainState.RecordBlock | chain/state.py:155-167 | Moves height, tip and spine by one block exactly when the block is the next one and the spine has room; the ledger stays |
| ChainState.NextInSet | chain/state.py:284-315 | What one more transaction has to satisfy for a grid's set to stay one |
| ViewChange.Check | chain/viewchange.py:93-121 | Accepts exactly a certificate for the view with a quorum of different seats' signed moves to it |
| ViewChange.RequiredBlock | chain/viewchange.py:123-137 | The loop finds the block of a highest lock, greatest hash on ties, or none when nothing is locked |
| ViewChange.RequiredIsUnique | chain/viewchange.py:123-137 | A certificate obliges a leader to at most one block |
| ViewChangeWorth.CheckedIsSigned | chain/viewchange.py:93-121 | Behind a certificate that passes are at least quorum different seats of the roster, each of whose keys signed a move of this chain, height and epoch to this view |
| ViewChangeWorth.OneCertOneView | chain/viewchange.py:93-121 | A certificate with anyone in it passes for one view of one height of one chain |
| ViewChangeWorth.RequiredIsHighest | chain/viewchange.py:123-137 | Nothing is required exactly when nobody reports a lock; else a block reported for the highest view anyone reports, the greatest hash among those |
| ViewChangeWorth.PermittedIsRequired | chain/viewchange.py:140-156 | In a later view a certificate permits exactly the block it requires, or any if it requires none |
| ViewChange.MayPropose | chain/viewchange.py:140-156 | In view 0 permits exactly a proposal without moves; later exactly the required block, or any block when the certificate requires none |
| ViewChange.InvHolds | chain/viewchange.py:6-44 | In every state of every run, disciplined seats' locks are their latest votes, their votes in a view name one block, and every proposal was allowed |
| ViewChange.LaterIsSame | chain/viewchange.py:123-156 | Once a quorum votes for b in view w, every allowed later proposal is b, when no faulty lock tops a certificate that was proposed under |
| ViewChange.OneBlockDespiteFaults | chain/viewchange.py:6-44 | One height never finalises two blocks, in any views, with faulty seats voting and reporting as they please, in the runs where any two quorums share a disciplined seat and no faulty lock tops a certificate that was proposed under |
| ViewChange.OneBlockAHeight | chain/viewchange.py:6-44 | With no faulty seat in the roster and a quorum over half of it, one height never finalises two blocks |
| ViewChangeRuns.OneBlockIff | chain/viewchange.py:6-44 | Every run finalises at most one block a height exactly when no quorum can vote, or no seat of the roster is faulty and the quorum is over half of it |
| ViewChangeRuns.SomeRunSplits | chain/viewchange.py:123-156 | With one faulty seat in the roster, or quorums that need not meet, some run finalises two blocks at one height, whatever the quorum |
| ViewChangeRuns.SplitRun | chain/viewchange.py:93-156 | That run: one quorum votes in view 0, another leaves it under a certificate that passes the check, and votes for another block in view 1 |
| ViewChange.OneLieDecides | chain/viewchange.py:123-137 | One seat that claims a lock above everyone else's decides the block, in a certificate that passes the check |
| Enrolment.Build | chain/locality.py:45-70 | The genesis topology has inverse tables, indices 0..K-1 and its own regions' names; every grid is non-empty, no larger than the grid size, and no two of a region differ by more than one |
| Topology.Topology.constructor | chain/locality.py:35-40 | From any assignment into listed grids numbered 0..K-1 each grid's list is its nodes in sorted order |
| Topology.Topology.AssignNewcomer | chain/locality.py:72-97 | Fails exactly when no grid serves the region or none has room, else the drawn grid gets the node; the tables stay inverse exactly when the node had no grid |
| Topology.Topology.FoundGrid | chain/locality.py:99-121 | Succeeds exactly for a new name, a known donor and movers that are all the donor's; a stray mover leaves the new grid standing with the movers before it, the tables still inverse |
| Topology.Topology.MergeGrid | chain/locality.py:123-159 | Succeeds exactly for two different grids of one region; every node moves, the numbers close up in order, and a refusal changes nothing |
| Topology.Topology.NextGridId | chain/locality.py:161-167 | The first name of the region's series that none of its grids has, hence no grid has |
| Topology.Topology.OwnerOf | chain/tiers.py:183-200 | The search for a transaction's grid always finds one, and no other grid owns that partition |
| Topology.SurvivorsInOrder | chain/locality.py:148-157 | In number order the grids left after a merge carry the old numbers with exactly one gap |
| Locality.OneOwner | chain/locality.py:220-248 | Each partition number below K belongs to exactly one grid |
| Locality.JoinedSound | chain/locality.py:72-97 | A newcomer keeps the tables inverse exactly when it had no grid yet |
| Locality.FoundedSizes | chain/locality.py:99-121 | The cohort changes sides and nobody else moves |
| Register.GridRegister.Apply | chain/register.py:157-202 | Refuses exactly another grid's roll; otherwise every member's record and the epoch advance by one ceremony |
| Register.AdvancedSound | chain/register.py:157-202 | Every ceremony keeps what entries promise: an attester has attended the threshold, an apprentice is below it, neither carries a fault, and only the faulted are suspended |
| Register.AdvancedMembersIff | chain/register.py:157-202 | Its membership stands still exactly when the roll and the faults name members only |
| Register.StandingAfter | chain/register.py:157-202 | Who is suspended, who stays an attester and who becomes one after a ceremony, exactly |
| Register.AttestersAreClean | chain/register.py:206-227 | An attester never carries a fault, so that refusal of a founding never fires |
| Register.GridRegister.Release | chain/register.py:206-227 | Hands over a cohort's records exactly when all of it are unfaulted attesters, and changes nothing otherwise |
| Register.GridRegister.Found | chain/register.py:230-245 | The child's members carry over what they earned, marked with the donor |
| Register.GridRegister.Absorb | chain/register.py:275-306 | Takes in every member of a register of disjoint membership at the same epoch, emptying it; otherwise neither changes |
| Register.GridRegister.CreditService | chain/register.py:247-271 | Adds each member's own share and nothing else, and counts the members it met |
| Tallies.OneCeremony | chain/register.py:157-202 | A ceremony moves each counter of a member by what the roll says of it: there, led, faulted, last seen, and the streak, which a fault or one absence too many cuts |
| Tallies.CountersTally | chain/register.py:157-202 | Over any run of rolls and faults a member's attendances, ceremonies led and fault epochs are those of the run, on top of what it came with |
| Tallies.LastSeenIsLast | chain/register.py:157-202 | And it was last seen at the last ceremony it was there for |
| Tallies.MergedMembers | chain/register.py:275-308 | After a merge a member of the departed grid has the record and the misses it had there, marked with that grid; the host's own are untouched |
| Tallies.FoundedMembers | chain/register.py:206-245 | A founder starts in the child with the record it had, marked with the donor, and no misses; who stays keeps both |
| Tallies.ServiceAdds | chain/register.py:247-273 | Service adds to the three upper-tier counters, each by its own share, and moves nothing else of a record |
| Tallies.AccusedIff | chain/tiered.py:445-464 | Faulted are exactly those a signed report accuses |
| Tallies.RootPinsTheLines | chain/register.py:356-361 | Two registers have one root exactly when they agree on every member's line, faults counted, misses aside |
| Tallies.NextRootIff | chain/register.py:157-202 | Registers with one root have one root after the next roll exactly when the roll resets the same members' streaks |
| Tallies.UnforgivingRootsStay | chain/params.py:101 | Where no absence is forgiven, as shipped, the root decides every later root |
| Tallies.ForgivingRootsPart | chain/register.py:157-202 | Where some are forgiven: two registers with one root whose roots part at the next roll |
| Ceilings.QuorumForIs | chain/register.py:351-354 | A grid's quorum is the least number of at least one that is at least the fraction of its attesters |
| Ceilings.TwoThirdsMeet | chain/register.py:351-354 | At two thirds any two quorums of a grid share more than its faulty attesters, when fewer than a third are faulty |
| Ceilings.ThresholdIs | chain/hardening/params.py:64-66 | A block's threshold is the least number of at least one that is at least the fraction of its committee |
| Ceilings.HasRoomIff | chain/register.py:329-345 | A register has room for one more apprentice exactly when it has none, or one more stays within the fraction of its attesters |
| Apprenticeship.GateIff | chain/register.py:157-202 | After any attendance history a newcomer is an attester exactly when some stretch with no absence longer than forgiven holds the threshold of attendances |
| Apprenticeship.GateOfMember | chain/register.py:157-202 | After any run of rolls that seats a newcomer without faulting it, its register entry is an attester's exactly when some stretch of its attendance with no absence longer than forgiven holds the threshold |
| GridWorld.OneRegister | chain/tiers.py:334-381 | In a partitioned world a node is in the register its grid names and in no other |
| GridWorld.RolledPartitionedIff | chain/tiers.py:204-330 | A block's rolls keep the world partitioned exactly when every roll and fault names members of its own grid |
| GridWorld.FoundedPartitioned | chain/tiers.py:334-362 | A founding that is not refused keeps the world partitioned |
| GridWorld.MergedPartitioned | chain/tiers.py:364-381 | A merge that is not refused keeps the world partitioned |
| GridWorld.MergeRefusedIff | chain/register.py:275-306 | Between two grids of a partitioned world a merge is refused exactly for different regions or epochs |
| TierWorld.TierWorld.ApplyGrids | chain/tiers.py:204-330 | Rolls, service, then the founding, then the merge, on the registers and the topology together; fails, with rolls and service already in, exactly when the founding or the merge is refused |
| TierWorld.TierWorld.FoundGrid | chain/tiers.py:334-362 | Succeeds exactly when the name is free, the donor known and its whole cohort releasable, changing both sides; an unknown donor or a cohort it cannot release changes nothing, and a name in use is noticed only after the registers have moved |
| TierWorld.TierWorld.MergeGrid | chain/tiers.py:364-381 | Succeeds exactly for two different known grids of one region at equal epochs; refused, whatever the reason, it has already dropped the departing register, whose grid the topology goes on naming |
| TierWorld.TierWorld.Admit | chain/tiers.py:404-428 | Seats a new node in a drawn grid of its region with room, refusing exactly a node that has a grid or a region without room |
| TierWorld.TierWorld.PlanFoundings | chain/tiers.py:611-646 | The search returns the planned founding: the first grid that is over size with attesters for two cohorts, its region's next name, and the first of them in drawn order; none exactly when no grid is due |
| TierWorld.TierWorld.PlanMerges | chain/tiers.py:649-700 | The search returns the planned merge: none in a founding block, else the first shrunken grid with a host and the smallest host, by draw on ties |
| Growth.FoundingIsUnique | chain/tiers.py:611-646 | The founding plan is a function of the state |
| Growth.MergeIsUnique | chain/tiers.py:649-700 | The merge plan is a function of the state |
| Growth.FoundingAppliesIff | chain/tiers.py:334-362 | A planned founding is refused exactly when the same block faults a member of its cohort |
| Growth.BothSidesCanVote | chain/tiers.py:611-646 | When the donor's roll faults nobody both sides of a planned founding keep at least a cohort of attesters |
| Growth.PlannedMergeFits | chain/tiers.py:649-700 | A planned merge is refused exactly for unequal epochs after the rolls, and when it applies the host does not need a split |
| GrowthRuns.GridsPartitionTheNetwork | chain/tiers.py:204-428 | At every point of every run of joins, rolls, foundings and merges each partition number has one grid, and each node is in the register its grid names and no other |
| GrowthRuns.ChildIsTooYoung | chain/tiers.py:364-381 | A grid founded in one block cannot host a merge in the next: its register is one epoch behind |
| GrowthRuns.SecondBlockCannotBeApplied | chain/tiers.py:649-700 | Two blocks that follow from the state, everyone present and nobody faulted, of which the second cannot be applied |
| GrowthRuns.PairExists | chain/tiers.py:611-646 | Two grids of eleven and two nodes under the default sizes, with the first two names of an injective naming, are such a state |
| GridWorkload.Validate | chain/tiers.py:787-916 | Every refusal of the grid block's validation, previous certificate included, as one condition it decides exactly |
| CrossGrid.AcceptedTransactions | chain/tiers.py:787-852 | In an accepted grid block every transaction is verified, all its nullifiers are of the grid's partition, it spends live notes under new nullifiers into new notes, and shares none of these with another |
| CrossGrid.AcceptedHeader | chain/tiers.py:787-916 | It stands on this chain, tip and epoch; its previous certificate is for this height, or none where the grid has none; its roll is that certificate's, over the seats not suspended; its reports are signed and substantiated |
| CrossGrid.NoNullifierInTwo | chain/locality.py:234-248 | Accepted blocks of two grids publish no nullifier in common |
| CrossGrid.NoNoteInTwo | chain/locality.py:234-248 | And spend no note in common, so nobody spends twice across grids: a note has one nullifier, a nullifier one partition, a partition one grid |
| GridWorkload.Choose | chain/tiers.py:755-785 | The set the leader takes from its mempool, first come first served, is one its grid's check accepts, within the limit, and leaves out nothing that still fitted |
| GridWorkload.EarlierGoesFirst | chain/tiers.py:755-770 | What the first i transactions of a mempool yield comes first in what all of them yield, whatever came later, and once the limit is reached nothing is added |
| GridWorkload.FittingIs | chain/tiers.py:755-770 | What a mempool yields is a grid's set, of the mempool, within the limit, and nothing that still fitted is left out |
| GridWorkload.Build | chain/tiers.py:755-916 | A built grid block is accepted by every seat with the same world and ledger exactly when the grid has no certificate yet or one for the height the block follows |
| GridWorkload.CurrentIffCarried | chain/tiers.py:204-268 | After a block, whichever certificate its leader showed, a grid that has a certificate can follow it at the next height exactly when that block carried the grid |
| GridWorkload.OnceMissedAlwaysShut | chain/tiers.py:854-916 | With leaders that show the certificate their own desk holds, a grid left out of one block is left out of every later one |
| GridWorkload.AcceptedUnderIff | chain/tiers.py:787-916 | Some block under a given certificate is accepted exactly when that certificate follows |
| GridWorkload.StaleAcceptedIff | chain/tiers.py:892-916 | A grid that missed a block gets one accepted exactly when its leader shows a certificate of this chain and height with valid attestations, of whichever grid |
| GridWorkload.SiblingCertIsEnough | chain/tiers.py:892-916 | A sibling's certificate of the current height is such a one; the block's roll then credits none of the grid's own members |
| GridWorkload.StaleCarriedShowsAnother | chain/tiers.py:854-916 | In any run a grid that missed a block is carried again only under a certificate that is not its own, and stays shut out until then |
| TierBlocks.BuildGroup | chain/tiers.py:938-958 | Keeps the children that collide with nothing before them and names exactly the others |
| TierBlocks.BuiltGroupIsAccepted | chain/tiers.py:938-1006 | A group leader's block is accepted by every seat, whichever child it brought |
| GroupWorth.GroupAccepted | chain/tiers.py:960-1006 | In an accepted tier-1 block every child is certified and of its own partition, no two share an input, a nullifier or a created note, and merging loses none of them; the header says which they are |
| GroupWorth.NobodyIsOmitted | chain/tiers.py:995-1001 | The seat that brought a block finds its grid among the children or its own header among those named as dropped |
| CrossGrid.DroppedForAnOutput | chain/tiers.py:938-958 | Of the accepted blocks of one epoch a merge drops only one that creates a note an earlier kept one creates: never for what it spends |
| TierBlocks.GroundedApplies | chain/tiers.py:1145-1153 | The epoch of accepted children always applies, and applying it is running the kept grids' transactions one by one |
| TierBlocks.BuiltRootIsAccepted | chain/tiers.py:1155-1257 | The root leader's block is accepted by every seat with the same world, ledger and spine |
| TierBlocks.BuiltSoloIsAcceptedIff | chain/tiers.py:1039-1119 | With a single grid the wrapped block is accepted exactly when the grid's block is |
| TierBlocks.RegisterMatches | chain/tiers.py:204-330 | After a block of accepted children that founds and merges nothing, every child's register has the root its block committed |
| TierBlocks.AppliedMatchesHeader | chain/tiers.py:204-330 | After a block the top tier accepted the ledger's roots and counts are the header's and, without a founding or merge, so is every child's register root |
| TierBlocks.SoloMatchesHeader | chain/tiers.py:204-330 | The same of a one-tier block, whose one child no tier below has accepted |
| TierWorkloads.BuildRoot | chain/tiers.py:1145-1191 | On the objects a node holds: plans, merges, applies a copy and fills in the header, whose roots commit the ledger the epoch leaves; raises exactly when the epoch does not apply or a tree is full |
| TierWorkloads.ValidateRoot | chain/tiers.py:1193-1257 | Every refusal of the top tier's check, the plans derived again and the epoch applied to a copy, as one condition it decides exactly; what passes commits the ledger the epoch leaves |
| TierWorkloads.BuildSolo | chain/tiers.py:1039-1085 | With one grid: builds the grid's block and wraps it; every seat accepts the result exactly when the grid's certificate is current |
| TierWorkloads.ValidateSolo | chain/tiers.py:1087-1119 | Every refusal of the one-tier check, wrapping the child again and comparing, as one condition it decides exactly |
| HeaderCommitments.RootHeaderCommits | chain/tiers.py:1193-1257 | An accepted network header commits, slot by slot, the notes of the ledger its epoch leaves, spent ones buried, its nullifiers, the witness tree over the same leaves, and both counts; it is the next height on this tip and spine |
| HeaderCommitments.SoloHeaderCommits | chain/tiers.py:1087-1119 | So does a one-tier header, which names one group of one child and drops nobody |
| HeaderCommitments.RootsPinTheLedger | chain/tiers.py:1155-1191 | Two ledgers have equal header roots exactly when they have the same notes, spent slots and nullifiers, for values that spell no tombstone |
| HeaderCommitments.RootHeaderNames | chain/tiers.py:1193-1257 | It names every group, each certified, the seat's own among them, and commits every child's register and the seats that are listed there and not suspended |
| HeaderCommitments.ChildrenInOrder | chain/tiers.py:1145-1153 | Children of several groups come group by group, each in its own order |
| TierWorkloads.ApplyLedger | chain/tiers.py:221-245 | Merges, applies and records in place: succeeds exactly when the epoch runs and the block is the next with room in the spine, and leaves the ledger the checks derived |
| ChainState.ChainState.Copy | chain/state.py:375-385 | A copy that holds the same ledger and spine and shares nothing |
| Mempool.Node.Admissible | chain/node.py:143-196 | The cheap checks pass exactly what may join: right chain, not held, fits the ledger, nothing reserved, and a fee above the cheapest when the pool is full |
| Mempool.Node.VerifyAndAdmit | chain/node.py:253-285 | Takes in whatever is proven, first giving up a cheapest transaction when the pool is full, unless that is this very one; the two reservation tables stay the inverse index exactly when nothing the newcomer needs is still reserved |
| Mempool.WithIndexedIff | chain/node.py:253-285 | Taking in a new transaction keeps the tables the inverse index exactly when nothing it needs is reserved |
| Mempool.QueuedTwiceIsHeldTwice | chain/net/node.py:1329-1348 | Two admissible spends of one note, both queued and then taken in, are both held, and giving up the second frees the note the first still spends |
| Mempool.PairMayJoin | chain/node.py:143-196 | Two such transactions, both admissible to an empty pool |
| Mempool.Node.Submit | chain/node.py:287-298 | Takes in exactly what may join and is authentic and proven, and changes nothing otherwise; one transaction gives way exactly when the pool is full, a cheapest one that pays strictly less |
| Mempool.Node.Settle | chain/node.py:433-443 | After a block what is held is exactly what was, without what the block included or the new ledger refuses |
| Mempool.NoConflicts | chain/node.py:143-196 | Two held transactions never spend one note or publish one nullifier |
| Mempool.JoinerFits | chain/node.py:143-196 | Whoever may join is of this chain and of bounded size, spends live notes under new nullifiers into new notes, and shares no note and no nullifier with anyone held |
| Mempool.CheapestIsOldest | chain/node.py:317-327 | Whoever is given up first pays less than anyone else held, or as little and came before |
| BlockBuilding.BuildBlock | chain/node.py:343-371 | The block a node builds from its mempool, first come first served, passes the check of any node on the same state |
| BlockBuilding.AllPacked | chain/node.py:343-373 | A mempool whose transactions run one after another goes into the block whole, as far as the limit lets it |
| BlockBuilding.PackedInOrder | chain/node.py:343-373 | What the first i transactions of a mempool yield comes first in the block, whatever came later |
| BlockBuilding.CheckBlock | chain/state.py:233-270 | The check's loop accepts exactly the next block with the right ids and roots whose transactions verify and run one by one |
| BlockWorth.CheckedIsNext | chain/state.py:233-270 | A block that passes is the next of this chain, lists the ids of its transactions, each of them once, and all verify |
| BlockWorth.RunsApart | chain/state.py:233-270 | No two of its transactions spend one note or publish one nullifier, and each fits the ledger the ones before it leave |
| BlockWorth.CheckedCommits | chain/state.py:233-270 | Its two roots are over the notes, spent ones buried, and the nullifiers of the ledger its transactions leave |
| BlockWorth.CheckedConserves | chain/state.py:233-270 | It leaves live value plus burned fees as it was, when its fees are less than k times 2^B |
| CoinSelection.PrefixIsRichest | wallet/store.py:195-244 | No k notes are worth more than the k largest |
| CoinSelection.GreedyIsOptimal | wallet/store.py:195-244 | Where the largest-first loop covers the amount nothing smaller does, and where it does not nothing does |
| CoinSelection.Select | wallet/store.py:195-244 | Picks notes of one partition that cover the amount, as few as any one partition's notes could do it with, and gives up exactly when no partition has at most MAX_INPUTS notes that cover it |
| HashInput.ReadUndoesFed | chain/crypto.py:33-60 | A decoder reads back the tag and the whole nested part list from the bytes the hash is fed |
| HashInput.HashInputsAreUnambiguous | chain/crypto.py:33-60 | Calls that feed the hash equal bytes have equal tags and equal part lists, nested ones included |

## Findings

Each is a property the code, its documentation or its callers rely on, where it fails, and exactly when it holds.

- **A failed truncation deletes half the index** (`chain/seal.py:367-388`). Truncating five values of which the third-last
  is spent raises after the entries of the earlier cut slots are gone, so those values can be added again. The set stays valid
  exactly when the spent slot is the first one cut: `SealAccumulator.SealAccumulator.Truncate`.
- **A full accumulator is half updated** (`chain/seal.py:331-340`). The witness tree refuses after the list, the index and the
  seal tree have moved. It happens exactly when items plus the domain leaf fill the tree: `SealAccumulator.SealAccumulator.Add`.
- **A tombstone can be proved live** (`chain/seal.py:22-37`). Add "a" and spend it: the text of its tombstone, a value nobody
  added, has an accepted proof. Provable means live exactly for values that spell no spent slot's tombstone:
  `SealTheorems.ProvableIff`, `SealTheorems.TombstonesCanBeForged`.
- **`accept` takes a held block again** (`chain/hardening/history.py:392-404`). `restore` skips held hashes, `accept` does not: any
  block of the history passes `check` again and is then listed twice as a child, and one with a held hash on top of
  its own child makes the branch walk endless. The store stays a tree exactly when the hash is new and not genesis:
  `History.InsertValidIff`, `History.HeldBlockPassesAgain`, `History.RepeatMakesCycle`.
- **The rewrite ceiling is too low** (`chain/hardening/draw.py:63-70`, `chain/hardening/history.py:456-458`). It divides by the width of
  a committee, but `check` asks for threshold stamps only, so a block with fewer stamps than the width is a rewrite of depth one
  where the formula says zero. In a history it is a ceiling exactly when no block has fewer stamps than the width; parameters whose threshold
  is at least the width suffice: `HistoryRuns.FormulaIsABoundIff`, `HistoryRuns.OneBlockIsBeyondTheFormula`,
  `HistoryWitnesses.SomeBlockIsUnderStamped`, `HistoryRuns.ThresholdAtWidthSuffices`.
  The bound that does hold divides by the threshold: `HistoryTheorems.RewriteCeiling`.
- **`assemble` keeps the first stamp of a turn, good or bad** (`chain/hardening/history.py:263-293`). A bad stamp that arrives before
  the turn's good one costs the block. It passes exactly when the first of every drawn turn's stamps verifies:
  `NetworkHistory.NetworkHistory.Assemble`.
- **A restarted node never halts** (`chain/hardening/history.py:354-390`). `restore` chooses the tip once, from genesis, so a reorg that halted the
  running node is adopted silently after a restart. Restarted and running node stand alike exactly when the running one has not halted, and
  whatever the limit some blocks halt it: `HistoryRuns.RestartAgreesIff`, `HistoryRuns.Restart`, `HistoryWitnesses.SomePlayHalts`.
- **A fee is compared modulo p only** (`chain/transaction.py:332-343`). Any note sent on as one note has an accepted transaction whose fee is the
  balance plus p, and applying it breaks the supply. Accepted transactions conserve money exactly when the fee is less than k times 2^B:
  `Supply.StepHoldsIff`, `Supply.UnpayableFeeIsAccepted`.
- **A minted total is compared modulo p only** (`chain/mint.py:201-226`). A mint of one note may declare p more than the note is worth. The outputs
  add up to the total exactly when the total is less than p: `Money.MintAddsUp`, `Supply.OverstatedMintIsVerified`.
- **The builder can make a transaction its own checks refuse** (`chain/transaction.py:137-233`). It does not look for equal outputs or equal nullifiers.
  What it builds passes exactly when there are none: `Builders.BuildTransaction`.
- **A delta that creates a note twice is merged** (`chain/state.py:76-102`). `merge_deltas` looks for repeats among inputs and nullifiers only: one
  delta that creates "a" twice is kept whole, passes `can_apply_delta`, and `apply_delta` then raises. The merged delta repeats nothing, and
  applies, exactly when no kept delta creates a note twice, which `authenticate` ensures for transactions:
  `Merging.CreatedTwiceIsKept`, `Merging.MergedIsDistinctIff`, `Merging.MergedAppliesIff`, `Supply.SetIsDistinct`.
- **One lying seat decides a view change** (`chain/viewchange.py:123-137`). Locks are believed without the votes behind them: a seat that claims
  the highest view names the block. Of four seats with a quorum of three, three vote for one block in view 0; two of these and the fourth leave, the fourth
  claims a lock on another block, and the three that left finalise that one in view 1. In general one height finalises one block in every run
  exactly when no quorum can vote at all, or no seat of the roster is faulty and the quorum is over half of it:
  `ViewChangeRuns.OneBlockIff`, `ViewChangeRuns.SplitRun`, `ViewChange.OneLieDecides`. With faulty seats what is left is that a run is safe in which
  no faulty lock tops a certificate: `ViewChange.OneBlockDespiteFaults`.
- **A refused founding leaves a grid behind** (`chain/locality.py:99-121`). The new grid and the movers before a stray one stay.
  It happens exactly when some mover is not the donor's: `Topology.Topology.FoundGrid`.
- **A register admits whoever a roll or a fault names** (`chain/register.py:157-202`). Membership stands still exactly when both name members only. A
  grid's block carries every report pending in the network (`chain/tiers.py:775-777`), so a node accused in one grid is entered, suspended, in the
  register of every grid whose block carried the report:
  `Register.AdvancedMembersIff`, `GridWorld.RolledPartitionedIff`.
- **A planned founding can be refused by its own block** (`chain/tiers.py:334-362`). The block's faults are applied between the plan and the
  founding. It is refused exactly when the block faults a member of the cohort: `Growth.FoundingAppliesIff`.
- **A planned merge can be refused by its own block** (`chain/tiers.py:364-381`, `chain/tiers.py:649-700`). A grid founded one block before
  is the smallest sibling of its region, so the plan picks it, but its register has rolled no ceremony and stands an epoch
  behind. The block cannot be applied, and the departing grid's register is already gone while the topology goes on naming
  the grid. Refused exactly for unequal epochs after the rolls; two grids of eleven and two nodes under the default sizes lead there in
  two blocks: `Growth.PlannedMergeFits`, `GrowthRuns.SecondBlockCannotBeApplied`, `GrowthRuns.PairExists`, `TierWorld.TierWorld.MergeGrid`.
- **A grid that misses one network block is shut out** (`chain/tiers.py:854-916`). Its next block must carry a certificate for the
  height it follows, and the one it holds is older from then on. A built block is accepted exactly when the certificate is current, and with leaders
  that show their own certificate the grid never comes back: `GridWorkload.Build`, `GridWorkload.OnceMissedAlwaysShut`.
- **A previous certificate is not bound to its grid** (`chain/tiers.py:892-916`). The check asks for the chain, the height and valid attestations of
  seats of the roster, not for the grid's own ceremony, so a shut-out grid gets a block accepted exactly when its leader shows any such certificate,
  a sibling's for instance, whose roll credits none of the grid's members: `GridWorkload.StaleAcceptedIff`, `GridWorkload.SiblingCertIsEnough`.
- **A transaction is admitted on a check made before it was queued** (`chain/node.py:253-285`, `chain/net/node.py:1329-1348`). The proof is checked from a
  work queue and nothing is compared with the pool again, so two spends of one note can both be held, giving up one frees the other's
  reservation, and room may be made for a lower fee. The reservation tables stay the inverse index exactly when nothing the newcomer needs is reserved at that
  moment: `Mempool.Node.VerifyAndAdmit`, `Mempool.WithIndexedIff`, `Mempool.QueuedTwiceIsHeldTwice`, `Mempool.PairMayJoin`.
- **A register's root does not commit its misses** (`chain/register.py:157-202`, `chain/register.py:356-361`). Where absences are forgiven, whether the
  next absence cuts a streak depends on misses the root leaves out: two registers of one member with one root have two roots after the same roll. Equal
  roots stay equal after a roll exactly when it resets the same streaks, and always at the shipped forgiveness of zero:
  `Tallies.NextRootIff`, `Tallies.ForgivingRootsPart`, `Tallies.UnforgivingRootsStay`.
- **An equivocation need not be the leader's** (`chain/ceremony.py:257-268`, `chain/ceremony.py:300-304`). Every seat aborts with "leader equivocated" on a
  report about anyone's two blocks of this height and epoch. A seat aborts so exactly when it holds some report of that kind:
  `CeremonyValidation.ShownIff`, `CeremonyValidation.AnyonesPairIsShown`.
- **Documentation.** The module text of `chain/hardening/stamp.py` says a stamp is anchored to the weight so far; the code anchors the height, and so does the
  model. The checksum of a signature is written as three bytes of which the first three nibbles are taken (`chain/hardening/wots.py:80-87`), so only
  its value divided by 256 reaches the digits; recovery does not depend on it.

## Left out

- CeremonyAgreement.Agreement: signatures are ideal and two seats never share a key (`DistinctKeys`); what a stolen key does is not modelled.
- CeremonyTheorems.HonestRunFinalises: a run is honest when all its seats are; a silent or partly honest run has only the agreement results.
- Seating.SeatAll: takes the ids already sorted by their keyed hash, and different.
- Envelope.Envelope.AddFault: a report's substantiation is a given verdict; the evidence formats of the five kinds of fault are left out.
- SealAccumulator.SealAccumulator.Rebuild: the seal tree is its sequence of leaves; the incremental folding of `_SealTree` is not part of this model.
- SealTheorems.ProvableIff: for a label that does not begin with an underscore, as all labels in use do not.
- NetworkHistory.NetworkHistory.Accept: requires a block that would pass to be new, the condition `History.InsertValidIff` shows to be necessary.
- NetworkHistory.NetworkHistory.Restore: with `verify` off, for logs whose rows would pass; what an unchecked damaged log leaves behind is left out, and so are rows under the hash of genesis.
- NetworkHistory.NetworkHistory.Harden: the mining budget is a number of tries; wall-clock time and holders' odds are left out.
- Wots.RecoveryIff: says nothing about who can compute a signature, and different messages may have comparable digits.
- Stamps.AcceptsIff: likewise, of stamps.
- StampBinding.StampIsForOneBlock: the puzzle hash is an arbitrary function, so a collision of it is the other possible outcome and not excluded.
- SpendAuthority.VerifiedIsSigned: assumes a sound proof system; that only the owner can make its signature is not part of this model.
- Money.VerifiedConserves: assumes a sound proof system and binding commitments; `mq` is not part of this model.
- TxSystem.TxSystem.F: the note map and the nullifier form are abstract functions of a slot; the sparse monomial index and the fast path are left out.
- Merging.MergeIsSequence: transactions repeat nothing within themselves, which `authenticate` ensures (`Supply.SetIsDistinct`).
- ChainState.ChainState.ApplyDelta: says nothing about the state that a refused step or a full tree leaves behind, which the node discards with the process.
- Register.GridRegister.Absorb: with two different thresholds, which no world has, it says what the result is but not whether the entries still meet the threshold.
- TierWorld.TierWorld.ApplyGrids: for rolls and faults that name members of their own grid, the condition `GridWorld.RolledPartitionedIff` shows to be necessary; the ledger's part of a network block is `TierWorkloads.ApplyLedger`; persistence and mempool rerouting are left out.
- Topology.Topology.NextGridId: a name is an injective function of region and number, standing for `region-number`.
- GrowthRuns.GridsPartitionTheNetwork: for rolls and faults that name members of their own grid, the condition `GridWorld.RolledPartitionedIff` shows to be necessary.
- GridWorkload.Build: the mempool's proofs are taken as verified, and the verdict on each certificate's attestations as given with it.
- TierBlocks.BuiltRootIsAccepted: certificates of the groups are taken as valid; their own verification is `QuorumCert.Verify`.
- TierWorkloads.ValidateRoot: verdicts on the groups' certificates are given; inner blocks that should carry none, dropped notices and protocol versions are left out.
- TierWorkloads.ApplyLedger: one node's state; eviction from its mempool is `Mempool.Node.Settle`, the registers are `TierWorld.TierWorld.ApplyGrids`.
- TierBlocks.AppliedMatchesHeader: with a founding or merge the registers of the grids concerned change after the header was made, so it speaks of the others only through `TierWorld.TierWorld.ApplyGrids`.
- ViewChange.OneBlockDespiteFaults: the discipline of a seat (one vote a view, latest vote reported, no vote in a view it left) is the one the module's text describes; the code does not enforce it.
- Mempool.Node.Submit: caches of verified and refused proofs, strikes and suspicion are left out, and a pool that may hold nothing at all (`max_mempool` zero).
- HashInput.ReadUndoesFed: texts are their UTF-8 bytes, and a length of 2^32 or more is an error.
- Genesis documents, parameter assessment, protocol activation, clocks, directories, catch-up, stores, sockets, wallets' keys and scanning, and the demos: single checks, or input and output.
- Malformed JSON and wrong types: inputs are values of their types.
