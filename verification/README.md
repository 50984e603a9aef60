# OpenChat: consensus, ledger, relay, mempool and history sync

OpenChat is a messenger whose end-to-end encrypted messages are transactions on a small
permissioned chain. Validators agree on blocks by a two-phase vote over gossip, relays rebuild the
chain by replay, and a client recovers its history by scanning it. This project models the parts of
the Go code whose correctness is not visible in any one function, and proves what they promise over
every input, every run and every crash point. Where the code does less than its comments say, the
theorem says exactly when it does.

Hashing and signing are arbitrary functions (`Blocks.Crypto`). A theorem that needs more says so:
`DigestsHave32Bytes`, `SignaturesVerify`, `SignaturesHave64Bytes` (only signatures of 64 bytes verify),
or the absence of collisions among named inputs.

| file | models | in the form of |
|---|---|---|
| Base, Text | big-endian integers, hex, decimal, Go's string order | functions and their inverses |
| Blocks, Merkle, Votes | transactions, blocks, certificates, the Merkle loop, the signed encodings, round keys | functions; the loops as methods |
| MerkleLengths | the trees as data, and what a root says about lists of different lengths | functions |
| Quorums | n - f with Go's division, and how quorums meet | arithmetic over sets |
| Ledger | every single store write of `CommitBlock` and `NewChain`, as a plan of writes | functions |
| Storage, Chain | the key-value store and the chain object | classes, proved against Ledger |
| EngineModel, Engine | one validator: handlers, and `runRound` cut at its three waits | functions; a class proved against them |
| Bodies | what a header hash and a recomputed Merkle root say about a block's transactions | functions |
| Protocol, Safety | honest engines over a network that delays, drops, repeats, reorders and injects | a step system and its invariant |
| Conduct, Leaders, Proposals | in which rounds an honest engine works, what it keeps, proposes and votes for, over every run | theorems about the step system |
| Rounds, Fork, Tamper | rounds played by hand, and the two runs that show what is not guaranteed | runs of the step system |
| Wire, Relay, Gossip, Backfill, Retry | protobuf conversion, `GetBlocks`, replay, the gossip listener, backfill beside it, and what a broken-off commit leaves | methods over the chain and pool objects; functions |
| Mempool, Pipeline | the pool, and pool to chain and back | a class; a step system |
| History, ChatStore, HeldTexts | the scan, the local store, and when a stored hash stands for its own message | methods and a class; functions |
| Synced, SyncSteps | what a sync stores for each transaction, own ones included, and its small steps against the whole | functions; a step system |
| SyncRuns, NoLoss, Logins | a device over time, what it loses and when, and one identity after another | a step system |
| ContactCode | contact codes over base64url (section 5 of RFC 4648) | functions |

Calls into the store, the chats file and a gateway may fail at any time, unless the object is `reliable`
or the gateway `up`; then the contracts promise success. In the step systems a run is any sequence of events; an event that is not possible in a state
changes nothing. In `Protocol`, a message that verifies under an honest key must carry bytes that
key has signed; everything else may be injected at will, by up to f faulty validators and by
anybody. Timeouts are the event `GiveUp`, possible at any time.

## What the code does not do, and when it does

- There is no lock across rounds. For four or more validators, all honest, there is a run after
  which two of them hold different blocks at height 1 (`Fork.ForkRun`). Agreement over all runs holds
  exactly up to three validators, where the quorum is everybody (`Fork.AgreementExactlyWhenUnanimous`).
  What holds at every size is agreement per round, and that enough commits close all later rounds.
- Engines and relays agree on header hashes and never recompute a received block's Merkle root. With
  two or more honest validators there is a run after which two engines have committed one hash over
  different transactions (`Tamper.TamperRun`); hashes fix the transactions, over all runs, only for a
  validator alone (`Tamper.HashesFixTransactionsOnlyAlone`). A relay accepts the next certified block with
  other transactions under its header (`Gossips.ExchangedIsAccepted`). Recomputing the root is what is
  missing: of two committed blocks under one hash, one of which passes the root check, the other carries the
  same transaction hashes if and only if it passes too (`Tamper.RootCheckFixesHashes`); over gossip whose
  certificates vouch for true headers, a relay stays a prefix of the true chain if and only if every block
  it accepts passes the root check and fixed sizes (`Gossips.GuardKeepsPrefix`).
- A block whose commit the store broke off after its first watermark is never accepted on that node again,
  whatever comes later: its own first nonce counts as a replay (`Retries.RetryAfterBreak`, if and only
  if). A relay that was waiting for it never gets past that height by genuine blocks
  (`Retries.RelayAfterBreak`, if and only if).
- Equal Merkle roots do not determine the transactions: an odd list and the same list with its last entry
  repeated share a root under every hash (`Merkle.RepeatedLastSharesRoot`). They do for lists of one length
  (`Merkle.EqualRootsEqualTransactions`), and for lists of whatever length that repeat no transaction hash
  (`MerkleLengths.RepeatlessRootsEqual`), as the lists do that the nonce loop accepts.
- A live message is stored under the hash that the gateway claims for it (client.go:229, service.go:61-66),
  and a later sync skips the real message of that hash (chat_store.go:228). On a fresh install one such
  message with another text, followed by one sync without any failure, leaves a store whose checkpoint is at
  the tip and which does not hold the real message (`NoLosses.FalseLive`); delivering one message of a sender
  under the hash of another does it (`NoLosses.SwappedDelivery`). What is never lost is the hash
  (`SyncRuns.NoHashLost`). The texts are never lost either, over all runs, if and only if every live message
  under the hash of one from its peer carries the text of that one (`NoLosses.NoLossExactly`). Recomputing
  the hash of a delivered message to this wallet with a signature of 64 bytes is enough
  (`NoLosses.RecheckedNeverLoses`).
- Saving the chats is not atomic. If the app restarts on a file that was cut short, it has no store, and no
  later event gives it one (`SyncRuns.CutShortStaysClosed`).
- The comment at client.go:274-276 says that a key learnt later in a scan still opens an earlier own
  message. It does not; a key must be supplied or learnt earlier in chain order
  (`Histories.OutgoingRecovered`, if and only if; `Histories.LaterKeyDoesNotHelp`).
- Logging out while a history sync runs clears the chats before the sync is cancelled. If the sync
  still ends, its checkpoint covers messages that are gone, exactly if there were any below it
  (`NoLosses.WipeDuringSync`, `NoLosses.UnguardedIsSafeOnlyIfEmpty`).
- A pooled transaction goes stale when the nonce loop of any block, accepted or refused, passes an equal
  or higher nonce of its sender (`Pipeline.ForeignBlockStales`, if and only if). A certified block that is
  refused for a nonce stales its own leading transactions, which stay pooled
  (`Pipeline.RefusedBlockStalesItsFirst`), and no block that carries a stale one is ever accepted
  (`Pipeline.StaleForever`).
- A logout whose file deletion fails leaves the old checkpoint to the next identity, which then misses its
  own messages below it, if there are any (`Logins.ReloginIsSafeExactly`, if and only if).
- Recipient and ciphertext are signed without a length between them: the boundary can move under the same
  signature and the same hash (`Blocks.RecipientCanMove`).
- The freshness check multiplies in 64 bits: at every reading of the clock it means two minutes for all
  timestamps up to a given distance if and only if that distance is at most 9 223 372 036 854 ms, about 292
  years; one millisecond beyond, on either side, it wraps and admits (`Mempools.FreshIsTwoMinutes`,
  `Mempools.FreshBeyond`).
- A block that gossip commits while backfill waits for its reply makes backfill's own commit of it fail, which
  ends the whole call and leaves the remaining gateways unvisited (`Backfills.BackfillOnce`).
- docs/deploy.md:20-26 gives quorum 1 for two and three validators and consensus/types.go:42-44 has
  validators subscribe to committed blocks; the code does neither, and the model follows the code.

## Model

| member | source | states |
|---|---|---|
| Protocol.StepKeepsInv | app/golang/internal/consensus/pbft.go:153-224 | Every handler call and every stretch of runRound between two waits keeps the invariant: filed votes are authentic, honest keys never sign two votes of a kind in one round, honest precommits have a prevote quorum behind them, and each committed height has a single-round precommit quorum |
| Protocol.RunsKeepInv | app/golang/internal/consensus/pbft.go:106-224 | The invariant holds after every run, whatever is delayed, dropped, repeated, reordered or injected |
| Safety.RoundAgreement | app/golang/internal/consensus/pbft.go:153-213 | With at most f = (n-1)/3 faulty validators, all honest precommits of one height and round name one block hash, in every run |
| Safety.CertificatesAgree | app/golang/internal/consensus/pbft.go:196-213 | Any two quorum certificates made of one round's entries certify the same header hash, whoever assembled them |
| Safety.AssembledCertificatesPass | app/golang/internal/consensus/pbft.go:196-212 | In every run, the certificate an engine assembles from its filed precommits passes VerifyCommitQuorum |
| Safety.Closure | app/golang/internal/consensus/pbft.go:135-151 | Once more than f honest validators have committed a height in rounds up to r, no n-f validators can ever have precommits for it in a later round, now or after any continuation of the run |
| Safety.RunKeeps | app/golang/internal/blockchain/chain.go:99-147 | What an engine has committed, and the round it did so in, no continuation of the run changes |
| Safety.SameRoundSameBlock | app/golang/internal/consensus/pbft.go:190-224 | Engines that decided a height in the same round committed the same header hash, at every validator count |
| Safety.RunsKeepGood | app/golang/internal/blockchain/chain.go:99-147 | In every run of the protocol every honest engine's chain is gap-free, hash-linked, certified, signed and well-numbered |
| Conducts.EveryStepMoves | app/golang/internal/consensus/pbft.go:135-151 | After every run, whatever happens next: an engine's tip rises by one, and then it is at the beginning of round 0 with no proposal and no vote of the committed height left and all of other heights kept; or the tip stays, and it is in the same round or at the beginning of the next one, and the first proposal and the first votes filed under any key stay |
| Conducts.NoRoundSkipped | app/golang/internal/consensus/pbft.go:135-151 | In every run, at every height, an engine has stood at the beginning of each round up to the one it is in |
| Conducts.NoRoundTwice | app/golang/internal/consensus/pbft.go:135-151 | In every run, a round once begun is never begun again |
| Conducts.FirstProposalIsFiled | app/golang/internal/consensus/pbft.go:298-309 | After every run, an authentic proposal that arrives is filed under its height and round exactly if none was |
| Proposals.ProposedExactly | app/golang/internal/consensus/pbft.go:242-266 | In every run, the proposals of honest leaders are exactly those that an entry of the round's leader into its round publishes: on the block at its own tip, with the root of its own transactions, exactly the transactions and time of that event, no certificate, and its signature |
| Proposals.OneProposalARound | app/golang/internal/consensus/pbft.go:153-161 | In every run, an honest leader proposes at most once in a round |
| Proposals.ReadsExactly | app/golang/internal/consensus/pbft.go:163-182 | After every run, an engine that waits and finds a proposal casts a prevote for it if and only if the round's leader signed it for this height and every transaction in it verifies; otherwise it casts none and goes to the next round |
| Proposals.HonestProposalIsAcceptable | app/golang/internal/consensus/pbft.go:242-288 | What an honest leader published passes that check if and only if its transactions verify |
| Proposals.VotedIsLed | app/golang/internal/consensus/pbft.go:163-212 | In every run, the block an engine votes for or waits to commit has the round's leader as proposer and its signature, and all its transactions verify; if the leader is honest it published a proposal of this round under this header |
| Proposals.BallotsAreLed | app/golang/internal/consensus/pbft.go:163-194 | In every run, each honest vote is for the hash of such a block of the vote's height and round, and under an honest leader for the hash of a proposal it published |
| Proposals.CommittedIsLed | app/golang/internal/consensus/pbft.go:196-213 | In every run, each committed block is such a block in the round it was decided in |
| Proposals.CommitsExactly | app/golang/internal/consensus/pbft.go:135-213 | After every run, an engine with a certificate commits the block under it: its chain becomes what CommitBlock makes of it, a refused block's watermarks included; it goes to the next height if the block was accepted, and to the next round if it was refused or the store broke the commit off |
| Protocol.OwnVoteCarriesBallot | app/golang/internal/consensus/types.go:74-98 | The vote an engine sends is signed over its ballot's bytes, authentic once the ballot is cast, and admitted by every engine |
| Safety.UnanimousAgreement | app/golang/internal/consensus/pbft.go:106-224 | With one to three validators, all honest, the committed header-hash chains of any two are prefix-ordered in every run, even when they commit in different rounds |
| Fork.ForkRun | app/golang/internal/consensus/pbft.go:135-151 | For every network of four or more distinct honest validators whose signatures verify, and any two timestamps under which the leaders' two blocks hash differently, there is a run after which two validators hold different header hashes at height 1 |
| Fork.AgreementExactlyWhenUnanimous | app/golang/internal/consensus/util.go:33-36 | Under the same hypotheses, agreement on header hashes over all runs of honest validators holds if and only if there are at most three of them, which is exactly when n-f is n |
| Tamper.TamperRun | app/golang/internal/consensus/pbft.go:268-288 | For two or more honest validators and any transactions the chain would accept, there is a run after which two engines have committed one header hash at height 1, one over these transactions and one over none |
| Tamper.HashesFixTransactionsOnlyAlone | app/golang/internal/blockchain/block.go:52-54 | Over all runs of honest validators, equal committed hashes mean equal transactions if and only if there is one validator |
| Tamper.RootCheckFixesHashes | app/golang/internal/consensus/pbft.go:268-288 | In every run, of two committed blocks under one hash, one of which passes the root check, the other carries the same transaction hashes under the same root if and only if it passes too |
| Bodies.GuardDecides | app/golang/internal/blockchain/block.go:57-111 | Any two blocks under one header hash, one of which passes the root check: the other carries the same hashes under the same root if and only if it passes too and has as many transactions |
| Bodies.AcceptedGuardDecides | app/golang/internal/blockchain/chain.go:110-138 | For lists that CommitBlock's nonce loop accepts, the number need not be known: if and only if the root matches |
| Bodies.GuardDecidesBody | app/golang/internal/blockchain/block.go:43-83 | With addresses and signatures of their fixed sizes the whole block is the same if and only if it passes the guard and has as many transactions |
| Bodies.AcceptedGuardDecidesBody | app/golang/internal/blockchain/chain.go:110-138 | With increasing nonces per sender the whole block is the same if and only if it passes the guard |
| Quorums.QuorumIsTwoFPlusOne | app/golang/internal/consensus/util.go:17-36 | n-f equals 2f+1 exactly if n is 3f+1 |
| Quorums.UnanimityIsForThree | app/golang/internal/consensus/util.go:33-36 | The quorum is everybody exactly for n up to 3, with Go's division at n = 0 |
| Quorums.QuorumsShareHonest | app/golang/internal/consensus/util.go:33-36 | Two quorums share an honest member as long as at most f of the validators are not honest |
| Quorums.TooFewRemain | app/golang/internal/consensus/util.go:33-36 | When more than f validators stay out, the rest are no quorum |
| Engines.Engine.constructor | app/golang/internal/consensus/pbft.go:65-98 | A new engine has the sorted validators, empty maps and is about to start round 0 |
| Engines.Engine.HandleProposal | app/golang/internal/consensus/pbft.go:298-309 | The first proposal per height and round wins and nothing else changes |
| Engines.Engine.HandleVote | app/golang/internal/consensus/pbft.go:311-343 | A vote is filed exactly if it has the wanted type, verifies and comes from a validator, and never replaces an earlier one of that voter |
| Engines.Engine.CountVotes | app/golang/internal/consensus/pbft.go:345-359 | The loop's counter is the number of distinct voters filed under the key for that hash |
| Engines.Engine.CollectSigs | app/golang/internal/consensus/pbft.go:202-209 | The certificate lists each filed vote for the hash exactly once, and nothing else, in any map order |
| Engines.Engine.Gc | app/golang/internal/consensus/pbft.go:361-380 | All three maps lose exactly the keys with the height's prefix |
| Engines.Engine.EnterRound | app/golang/internal/consensus/pbft.go:153-161 | Only the round's proposer publishes, and what it publishes is a signed block on its own tip with the computed root (Proposals.ProposedExactly says which); an unreadable head fails the round, and a reliable store has none |
| Engines.Engine.ValidateProposal | app/golang/internal/consensus/pbft.go:268-288 | A proposal is accepted exactly if proposer, height, proposer signature and every transaction's signature are right |
| Engines.Engine.SignVote | app/golang/internal/consensus/types.go:74-86 | The vote is signed over the bytes that its fields spell |
| Engines.Engine.ReadProposal | app/golang/internal/consensus/pbft.go:163-182 | The first wait: prevote for a valid proposal, give up the round on an invalid one, else wait |
| Engines.Engine.SeePrevotes | app/golang/internal/consensus/pbft.go:184-194 | The second wait: precommit the same block once n-f prevotes for it are filed, and not before |
| Engines.Engine.SeePrecommits | app/golang/internal/consensus/pbft.go:196-213 | The third wait: below n-f precommits nothing happens; at n-f the block is committed under a complete certificate, or an unreliable store breaks the commit off |
| Engines.Engine.Decide | app/golang/internal/consensus/pbft.go:211-224 | After the commit the engine is at round 0 of the next height with the old height's buckets dropped; after an error it is in the next round |
| Engines.Engine.GiveUp | app/golang/internal/consensus/pbft.go:136-150 | A failed round leads to the next one, wrapping in 32 bits, and changes nothing else |
| EngineModel.FileKeeps | app/golang/internal/consensus/pbft.go:327-341 | Filing keeps every bucket under its own key and type, and never replaces a voter's filed vote |
| EngineModel.FiledVoteIsForRound | app/golang/internal/consensus/pbft.go:327-341 | A vote found under a round's key is a vote for exactly that height and round: tallies never mix |
| EngineModel.GcIsExact | app/golang/internal/consensus/pbft.go:361-380 | gc(height) deletes a round's bucket if and only if it is of that height, for all heights and rounds |
| EngineModel.CertificateIsValid | app/golang/internal/consensus/pbft.go:202-212 | n-f filed precommits for the block make a certificate that VerifyCommitQuorum accepts |
| EngineModel.CertificateSize | app/golang/internal/consensus/pbft.go:202-209 | A certificate has exactly one entry for each vote filed for the hash |
| EngineModel.ProposerAgreement | app/golang/internal/consensus/pbft.go:65-68 | Nodes given the same validators in any order pick the same proposer for every height and round |
| Text.TextLessExactly | app/golang/internal/consensus/pbft.go:65-67 | Strings, and so validators and proposed senders, are ordered by the first byte in which they differ, a beginning before what it begins |
| EngineModel.OneTurnEach | app/golang/internal/consensus/pbft.go:126-133 | With distinct validators and no wrap, n consecutive rounds give each validator exactly one turn |
| EngineModel.LeadersRotate | app/golang/internal/consensus/pbft.go:126-133 | The first validator leads round 0 of height 0, and the leader of the next round is the leader of the next height |
| Votes.BuildSigningBytes | app/golang/internal/consensus/types.go:75-112 | The append loops build type, big-endian height, big-endian round and hash |
| Votes.SigningBytesInjective | app/golang/internal/consensus/types.go:75-82 | Signed bytes determine type, height, round and hash |
| Votes.PrecommitIsCommitSig | app/golang/internal/blockchain/block.go:27-41 | The two separately written precommit encodings agree: a precommit verifies exactly if it is a valid certificate entry for the block it names |
| Votes.ProposalIsNoVote | app/golang/internal/consensus/pbft.go:36-39 | Below height 2^56 the bytes signed for a proposal are never those of a vote |
| Votes.RoundKeyInjective | app/golang/internal/consensus/pbft.go:420-422 | Decimal "height/round" keys are injective |
| Votes.PrefixSelectsHeight | app/golang/internal/consensus/pbft.go:364-426 | "height/" is a prefix of exactly the keys of that height |
| Blocks.VerifyCommitQuorum | app/golang/internal/blockchain/block.go:124-148 | Accepts if and only if at least `quorum` distinct configured validators have some valid signature on the block |
| Blocks.QuorumIgnoresOrder | app/golang/internal/blockchain/block.go:124-148 | Order and repetition of the entries change nothing |
| Blocks.TxSigningBytesInjective | app/golang/internal/blockchain/transaction.go:38-55 | For senders of one length, signed bytes determine all other fields if and only if the recipients are equally long |
| Blocks.RecipientCanMove | app/golang/internal/blockchain/transaction.go:38-82 | Moving the boundary between recipient and ciphertext keeps the signed bytes, the signature's validity and the hash |
| Blocks.HeaderBytesInjective | app/golang/internal/blockchain/block.go:57-75 | Headers with equally long previous hash and proposer are determined by their bytes |
| Merkle.ComputeMerkleRoot | app/golang/internal/blockchain/block.go:87-111 | The method sets exactly the root of the recursive tree over the transactions' hashes |
| Merkle.FoldLayers | app/golang/internal/blockchain/block.go:97-110 | The layered loop ends and leaves the root of the recursive tree |
| Merkle.PaddingIsImplied | app/golang/internal/blockchain/block.go:98-100 | Repeating the last node of an odd layer changes nothing above it |
| Merkle.LayerKeepsRoot | app/golang/internal/blockchain/block.go:101-108 | Halving a layer keeps the tree's root |
| Merkle.EqualRootsEqualTransactions | app/golang/internal/blockchain/block.go:85-111 | Two lists of one length with one root have the same transaction hashes in order, unless strings hashed for these two roots collide |
| Merkle.RepeatedLastSharesRoot | app/golang/internal/blockchain/block.go:98-100 | Lists of different length can share a root under every hash |
| MerkleLengths.RepeatlessRootsEqual | app/golang/internal/blockchain/block.go:85-111 | Lists of any lengths that repeat no transaction hash and share a root have the same hashes in order, unless strings hashed for the roots collide or a transaction hash is an inner node's input |
| Ledgers.EveryLifeIsGood | app/golang/internal/blockchain/chain.go:99-147 | Through accepted and rejected blocks, store errors and crashes between any two writes, the chain stays gap-free, hash-linked, certified, signed, with nonces strictly increasing per sender and watermarks above them |
| Ledgers.LivesOnlyAppend | app/golang/internal/blockchain/chain.go:19-31 | What any earlier moment of a node's life had committed, every later one still holds |
| Ledgers.CrashConsistency | app/golang/internal/blockchain/chain.go:40-147 | From the store after any number of CommitBlock's writes, NewChain recovers a good chain: the old one until the block itself is written, then the longer one |
| Ledgers.TryExactly | app/golang/internal/blockchain/chain.go:40-147 | Cut short after a write, a commit leaves the same chain whether the store failed or the process crashed and restarted; uncut, a restart changes nothing |
| Ledgers.AcceptedKeepsGood | app/golang/internal/blockchain/chain.go:99-147 | An accepted block extends a good chain by one and keeps it good |
| Ledgers.RejectionKeepsChain | app/golang/internal/blockchain/chain.go:99-138 | A rejected block leaves blocks, head and tip unchanged and can only raise watermarks, and only of senders in that block |
| Ledgers.PartialCommitOnlyRaises | app/golang/internal/blockchain/chain.go:124-142 | Cut anywhere before its last write, a commit has done no more than that |
| Ledgers.BrokenOffKeepsGood | app/golang/internal/blockchain/chain.go:124-142 | A commit that the store broke off leaves the same chain, still good, with watermarks only raised |
| Ledgers.NoncePlanAccepts | app/golang/internal/blockchain/chain.go:124-138 | An accepted transaction list extends a well-numbered history and ends up below the watermarks |
| Ledgers.BlockIsAcceptable | app/golang/internal/blockchain/chain.go:124-138 | Every block of a good chain holds signed transactions whose nonces increase per sender |
| Ledgers.FreshBootIsGood | app/golang/internal/blockchain/chain.go:40-58 | A fresh store boots to the good chain that holds only genesis |
| Ledgers.HeadIsHighest | app/golang/internal/storage/store.go:54-84 | A stored block replaces the one of its height and no other, and the head is the highest height stored |
| Bodies.GenesisIsFixed | app/golang/internal/blockchain/block.go:151-160 | Genesis has height 0, no predecessor, time 0, proposer "genesis", no transactions and the root of none |
| Storage.KeySpaceRefinesMaps | app/golang/internal/storage/store.go:54-165 | After any sequence of writes every read of the one key space answers as three independent maps would |
| Storage.BlockKeyInjective | app/golang/internal/storage/store.go:43-48 | Block keys are injective |
| Storage.NonceKeyInjective | app/golang/internal/storage/store.go:50-52 | Nonce keys are injective |
| Storage.KeyFamiliesDisjoint | app/golang/internal/storage/store.go:19-52 | No block, nonce or head key is a key of another family |
| Storage.Store.PutBlock | app/golang/internal/storage/store.go:54-84 | Stores the block and raises the head unless the block is below it, in one step or not at all |
| Storage.Store.GetBlock | app/golang/internal/storage/store.go:86-110 | The block last stored at the height, or none |
| Storage.Store.Head | app/golang/internal/storage/store.go:112-132 | The stored head, 0 on a fresh store |
| Storage.Store.LastNonce | app/golang/internal/storage/store.go:134-156 | The address's watermark, 0 if none |
| Storage.Store.SetLastNonce | app/golang/internal/storage/store.go:158-165 | Sets one watermark and nothing else, or nothing |
| Chains.Chain.Open | app/golang/internal/blockchain/chain.go:40-58 | NewChain's loading of head and genesis does exactly what booting means on the maps |
| Chains.Chain.CommitBlock | app/golang/internal/blockchain/chain.go:99-147 | Without a store error exactly the planned writes, verdict and tip; with one, a strict beginning of those writes and the old tip |
| Chains.Chain.RaiseWatermarks | app/golang/internal/blockchain/chain.go:124-138 | The transaction loop writes exactly the planned watermarks before it stops |
| Wire.BlockFromPb | app/golang/internal/grpcserver/convert.go:69-91 | Decodes exactly the blocks whose every transaction has its two fixed sizes, and what it decodes encodes back to the input |
| Wire.WireRoundTrip | app/golang/internal/grpcserver/convert.go:30-65 | Every block's wire form decodes, and to no other block |
| Wire.ClientHashIsNodeHash | app/golang/pkg/client/tx.go:79-91 | The client's hash of a wire transaction is the node's hash of that transaction |
| Wire.GetBlocks | app/golang/internal/grpcserver/server.go:256-274 | The reply is the contiguous run of stored blocks from the asked height, cut at the limit |
| Wire.ContiguousIsRange | app/golang/internal/grpcserver/server.go:256-274 | On a gap-free chain that run is exactly heights from h on, as many as exist and the limit allows |
| Wire.ReplyExactly | app/golang/internal/grpcserver/server.go:256-274 | Such a gateway's reply is the blocks from the asked height on, no more than asked and never more than 500, asked for none up to 500, and it stops short of that only at the tip |
| Relays.ReplayCompleteness | app/golang/cmd/node/relay.go:316-354 | The chain left by any life of a validator is accepted block by block by a fresh relay, to the same tip |
| Relays.GossipKeepsPrefix | app/golang/cmd/node/relay.go:274-301 | Whatever genuine blocks arrive, in any order and repetition, and whatever uncertified ones, the relay stays in step with the true chain (certified blocks with other bodies: Gossips.GossipExactly) |
| Relays.NextIsAccepted | app/golang/internal/blockchain/chain.go:99-147 | A relay in step accepts the next genuine block under any certificate that meets the quorum |
| Relays.OthersAreRefused | app/golang/internal/blockchain/chain.go:110-122 | Any other harmless block is refused and leaves no trace, not even in the watermarks |
| Gossips.CommitExactly | app/golang/internal/blockchain/chain.go:99-147 | After any block at all, the relay's chain is a prefix of the true one if and only if it was one and the block was refused or genuine |
| Gossips.GossipExactly | app/golang/cmd/node/relay.go:274-301 | Over any gossip, the relay ends up with a prefix if and only if every block it accepted was genuine |
| Gossips.ExchangedIsAccepted | app/golang/internal/blockchain/chain.go:110-146 | The next certified block with any other acceptable transactions under its header is accepted, and the chain is then no prefix |
| Gossips.EmptiedIsAccepted | app/golang/internal/blockchain/chain.go:110-146 | In particular with its transactions removed |
| Gossips.GenuineExactlyIfGuarded | app/golang/internal/blockchain/block.go:57-111 | A block under the true header hash, with nonces the chain accepts, is genuine if and only if it passes the guard: matching root and fixed sizes |
| Gossips.GuardKeepsPrefix | app/golang/cmd/node/relay.go:274-301 | Over all gossip whose certificates vouch for true headers, the relay ends up with a prefix if and only if every block it accepted passes the guard |
| Gossips.ListenForCommits | app/golang/cmd/node/relay.go:274-301 | Over blocks of any kind: without a store error the chain is what these blocks make of it one after the other; in every case it is a prefix of the true one if and only if every applied block is genuine, only certified ones are applied, and exactly their transactions leave the pool; harmless gossip keeps the relay in step with a cleared pool |
| Backfills.ApplyBatch | app/golang/cmd/node/relay.go:338-350 | A served batch is applied completely unless a store error occurs or gossip commits a block in between |
| Backfills.CatchUp | app/golang/cmd/node/relay.go:317-353 | The loop against one gateway ends, by the height still missing, and at the tip of a gateway that is up unless the store fails or gossip overtakes it |
| Backfills.BackfillOnce | app/golang/cmd/node/relay.go:274-354 | Whatever harmless gossip is committed at any point of the call, backfill ends with a prefix of the true chain; without a store error the relay is in step and the pool holds nothing committed during the call; it visits every gateway and reaches each that is up unless a store error occurs or gossip has committed a block meanwhile |
| Retries.RetryAfterBreak | app/golang/internal/blockchain/chain.go:124-142 | A block whose commit the store broke off can be accepted at some later moment, whatever blocks, store errors, crashes and restarts come in between, if and only if none of its watermarks had been written |
| Retries.RelayAfterBreak | app/golang/cmd/node/relay.go:274-354 | A relay whose commit of the next genuine block broke off ever gets past that height by genuine or uncertified blocks if and only if none of its watermarks had been written |
| Retries.StuckForever | app/golang/internal/blockchain/chain.go:99-147 | Otherwise no such block, store error, crash or restart changes anything at all |
| Retries.GossipStaysStuck | app/golang/cmd/node/relay.go:274-301 | Nor does gossip |
| Retries.BackfillStaysStuck | app/golang/cmd/node/relay.go:316-354 | Nor does backfill: a gateway's reply is empty or its first block is refused, which ends the call |
| Mempools.FreshIsTwoMinutes | app/golang/internal/mempool/mempool.go:69-76 | At every clock reading, the wrapped arithmetic means two minutes either way for all timestamps up to a distance if and only if the distance is at most 9 223 372 036 854 ms |
| Mempools.FreshBeyond | app/golang/internal/mempool/mempool.go:69-76 | One millisecond beyond, in the past or the future, the timestamp is admitted |
| Mempools.Mempool.Add | app/golang/internal/mempool/mempool.go:64-115 | The checks in their order, the new state of both maps, a pool that keeps distinct sender and nonce pairs below their pending marks, and no failing lookup on a reliable store |
| Mempools.AdmittedExactly | app/golang/internal/mempool/mempool.go:64-115 | A transaction is pooled that was not, if and only if it is signed, its timestamp is fresh (up to 292 years off: within two minutes), fewer than 50 000 are pooled, its sender's bucket allows it, its nonce is above the watermark and the pending mark, and its hash is not pooled |
| Mempools.AddKeepsGood | app/golang/internal/mempool/mempool.go:95-115 | An admitted transaction is signed and its nonce is above the watermark and above every pooled or once pooled nonce of its sender |
| Mempools.Mempool.Propose | app/golang/internal/mempool/mempool.go:127-145 | The list is a beginning of the whole pool, each transaction once, ordered by sender and nonce |
| Mempools.ProposalIsUnique | app/golang/internal/mempool/mempool.go:127-145 | Neither the map's iteration order nor the unstable sort can change what is proposed |
| Mempools.ProposalExactly | app/golang/internal/mempool/mempool.go:127-145 | What is proposed is pooled, ordered by the first differing byte of the senders and then by nonce, no longer than the limit, and below the limit the whole pool |
| Mempools.Mempool.Remove | app/golang/internal/mempool/mempool.go:149-155 | Exactly the listed hashes go; pending nonces stay |
| Mempools.RemoveKeepsGood | app/golang/internal/mempool/mempool.go:149-155 | A transaction is pooled afterwards exactly if it was and its hash was not listed, and every pending mark stays |
| Pipeline.PipelineSafety | app/golang/internal/mempool/mempool.go:64-155 | Over every interleaving of Add, Propose, CommitBlock and Remove that commits only own blocks, pooled nonces stay above the watermarks and CommitBlock never refuses an own block for a transaction |
| Pipeline.FromPoolToChain | app/golang/internal/mempool/mempool.go:64-155 | A signed and fresh transaction with a new nonce goes all the way: pooled, proposed, committed by a certified block that carries it, removed, and its watermark raised |
| Pipeline.OwnBlockRefusal | app/golang/internal/blockchain/chain.go:124-138 | Whoever's blocks were committed, an own block is refused for a stale nonce if and only if some nonce in it is not above its watermark, and never for a signature |
| Pipeline.WellNumberedAccepted | app/golang/internal/blockchain/chain.go:124-138 | A signed list with increasing nonces per sender passes the nonce check if and only if every nonce is above the watermark |
| Pipeline.ForeignBlockStales | app/golang/internal/blockchain/chain.go:124-138 | Whatever block is committed or refused: a pooled transaction leaves the pool if and only if the block is accepted and lists its hash, and a fresh one is stale afterwards if and only if the nonce loop passed an equal or higher nonce of its sender |
| Pipeline.RefusedBlockStalesItsFirst | app/golang/internal/consensus/pbft.go:211-215 | A certified block refused for a transaction stales its own first one and leaves it pooled |
| Pipeline.StaleForever | app/golang/internal/mempool/mempool.go:94-105 | A stale transaction stays stale over every continuation, and no block that carries it is ever accepted |
| Histories.FetchHistory | app/golang/pkg/client/client.go:279-354 | However the server cuts the chain, however it grows meanwhile and wherever the scan fails, keys and events are those of one scan up to the returned height; against a server that is up it succeeds |
| Histories.StopAndResume | app/golang/pkg/client/client.go:279-354 | Stopping at any height and resuming with the returned height and keys equals one full scan |
| Histories.IncomingAlwaysRecovered | app/golang/pkg/client/client.go:309-328 | A message to this wallet is recovered exactly if the wallet opens it, whatever keys are known |
| Histories.OutgoingRecovered | app/golang/pkg/client/client.go:330-348 | An own message is recovered if and only if the recipient's key was supplied or learnt earlier in chain order and the latest such key opens it |
| Histories.LaterKeyDoesNotHelp | app/golang/pkg/client/client.go:273-278 | A key learnt later in the same scan does not recover an earlier own message |
| Histories.BothEndsAgree | app/golang/pkg/client/tx.go:17-71 | Sender and recipient recover one message under the same hash, time and text, each naming the other as peer, or neither does |
| Histories.ScanLearnsLatest | app/golang/pkg/client/client.go:316-320 | After a scan each peer's known key is the one of its latest opened message, else the supplied one |
| ChatStores.ChatStore.Persist | app/fyne/internal/app/chat_store.go:117-134 | The file then holds the data, or after an error what it held, nothing, or a cut-off text |
| ChatStores.ChatStore.Open | app/fyne/internal/app/chat_store.go:62-115 | Loads the stored data, starts blank on an absent or empty file, and fails on a cut-off one |
| ChatStores.ChatStore.UpsertContact | app/fyne/internal/app/chat_store.go:136-145 | Replaces one contact, keeps its messages and persists |
| ChatStores.ChatStore.AppendMessage | app/fyne/internal/app/chat_store.go:180-193 | Adds one message, creates a missing contact, fills in an unknown key and persists |
| ChatStores.ChatStore.AppendHistoryMessage | app/fyne/internal/app/chat_store.go:225-241 | Adds the message exactly if its hash is not yet in that conversation, and touches the file only then |
| ChatStores.ChatStore.FindMessage | app/fyne/internal/app/chat_store.go:195-207 | True exactly if the conversation holds that non-empty hash |
| ChatStores.ChatStore.SetLastSyncedHeight | app/fyne/internal/app/chat_store.go:252-257 | Moves the checkpoint in memory and persists |
| ChatStores.ChatStore.Wipe | app/fyne/internal/app/chat_store.go:275-295 | Memory is blank afterwards; the file is gone unless deleting it failed |
| ChatStores.HistoryAppendKeeps | app/fyne/internal/app/chat_store.go:209-241 | A history append loses no message, never repeats a hash of the conversation, and leaves its hash there |
| ChatStores.KeysStay | app/fyne/internal/app/chat_store.go:176-191 | A contact's known key is never overwritten |
| ChatStores.ContactAfter | app/fyne/internal/app/chat_store.go:180-193 | After a message there is a contact, under the name it had or a shortened address, with the key known before or else the one the message brought; no other contact changes |
| ChatStores.EditSets | app/fyne/internal/app/chat_store.go:136-145 | An edit sets one contact and changes no conversation |
| ChatStores.SyncHistory | app/fyne/internal/app/service.go:92-145 | In every outcome memory holds the events of one scan from the checkpoint; the checkpoint moves only if the scan and every save succeeded, and success means it is on disk; with a server that is up and a reliable file it succeeds |
| SyncedMessages.OwnMessageSynced | app/golang/pkg/client/client.go:330-348 | After a successful sync, an own message between the checkpoints whose hash was new to the conversation is there as outgoing with its text and time if and only if its key opens it: the one of the contact's last message opened before it in the scan, else the contact's saved key if that is the hex form of 32 bytes |
| SyncedMessages.SavedKeyReads | app/fyne/internal/app/service.go:95-105 | In particular, with no message from that contact opened earlier in the scan, if and only if the saved key opens it |
| SyncedMessages.IncomingMessageSynced | app/golang/pkg/client/client.go:309-328 | After a successful sync a message to this wallet whose hash was new is there as incoming with its text and time if and only if it opens |
| SyncedMessages.ScanReports | app/golang/pkg/client/client.go:305-351 | Every event of a scan is a transaction of one of the scanned blocks, under that block's height, with the transaction's own hash, time, peer, key and text |
| SyncSteps.StepsMakeSync | app/fyne/internal/app/service.go:108-140 | The device's sync, transaction by transaction, leaves exactly what the sync as one call leaves, whichever saves failed, and ends by moving the checkpoint and saving unless one did |
| SyncSteps.LiveIsStored | app/fyne/internal/app/chat_store.go:180-193 | A live message is stored at the end of its conversation whatever is there already |
| SyncSteps.EditIsStored | app/fyne/internal/app/chat_store.go:136-145 | An edited contact is in the book, and in the file if the save succeeds; nothing else changes |
| SyncRuns.FailedSaveHoldsCheckpoint | app/fyne/internal/app/service.go:126-140 | If the save of one message fails during a sync, that sync does not move the checkpoint, whatever becomes of the others |
| ChatStores.SyncKeepsHashes | app/fyne/internal/app/service.go:108-140 | After a successful sync the hash of every message this wallet can open below the new checkpoint is in its sender's conversation |
| HeldTexts.VisitFits | app/golang/pkg/client/client.go:309-348 | What a scan reports under the hash of a message to this wallet is that message, over signed transactions without a collision |
| HeldTexts.SyncKeepsNothingLost | app/fyne/internal/app/service.go:108-140 | After a successful sync over a store whose texts are true, every message this wallet can open below the new checkpoint is in the store with its text, and the texts are still true |
| HeldTexts.RecheckedFits | app/golang/pkg/client/client.go:211-235 | A delivered message whose claimed hash is recomputed, to this wallet and with a signature of 64 bytes, never stands under the hash of another text of its sender |
| HeldTexts.DeliveryFits | app/golang/pkg/client/client.go:211-235 | Unchecked, a delivery under the hash of a message of its sender fits the chain if and only if the two texts are the same |
| SyncRuns.NoHashLost | app/fyne/internal/app/service.go:47-145 | After any run of successful, failed and interrupted syncs, live messages of any kind, edits, failed saves, crashes, restarts and logouts between syncs: the hash of every message this wallet can open below the checkpoint is in its sender's conversation, in memory and in whatever snapshot the file holds |
| NoLosses.NoLoss | app/fyne/internal/app/service.go:47-145 | After any such run whose live messages are truthful, every message this wallet can open below the checkpoint is there under its hash and with its text, in memory and in whatever snapshot the file holds |
| NoLosses.NoLossExactly | app/fyne/internal/app/chat_store.go:195-241 | Over all runs on a chain whose live messages come from any given set, no text is ever lost if and only if each message of the set that stands under the hash of one from its peer carries the text of that one |
| NoLosses.FalseLive | app/golang/pkg/client/client.go:211-235 | For every live message under the hash of one from its peer, with another text, on any chain, there is a run on a fresh install, one sync without a failure, after which the checkpoint is at the tip and saved, no hash is missing and the real message is not in the conversation |
| NoLosses.SwappedDelivery | app/golang/pkg/client/client.go:211-235 | Delivering one message of a sender under the hash of another of that sender is such a live message |
| NoLosses.RecheckedNeverLoses | app/golang/pkg/client/client.go:211-235 | If every live message is a delivery whose claimed hash was recomputed and collides with none on the chain, no run over the chain loses a text |
| NoLosses.InstalledIsSound | app/fyne/internal/app/chat_store.go:62-71 | A fresh install, with any chain before it and any growth after it, is a start for such runs |
| SyncRuns.CutShortStaysClosed | app/fyne/internal/app/chat_store.go:62-134 | A device that restarts on a file cut short has no store, blank memory and the same file after every continuation |
| Logins.ReloginIsSafeExactly | app/fyne/cmd/app/main.go:42-107 | After a logout the next identity starts safe if and only if the file was deleted, held no snapshot, or its checkpoint lies below every message for that identity; if the file names no message for it, that is also exactly when it starts with true texts and so loses none |
| Logins.CleanLogoutsAreSafe | app/fyne/cmd/app/main.go:42-107 | Over any succession of identities whose logouts delete the file, the next one starts with no hash missing and no text false, whoever it is |
| NoLosses.WipeDuringSync | app/fyne/cmd/app/main.go:92-107 | A logout during a sync that then ends loses nothing if and only if no block below the checkpoint held a message for this wallet |
| NoLosses.UnguardedIsSafeOnlyIfEmpty | app/fyne/cmd/app/main.go:43-107 | Without a guard against that, all runs over a chain are safe if and only if the chain holds nothing for this wallet |
| ContactCodes.B64RoundTrip | app/golang/pkg/client/contactcode.go:26-31 | Unpadded base64url decodes to what was encoded, at every length |
| ContactCodes.ContactCodeRoundTrip | app/golang/pkg/client/contactcode.go:26-63 | ParseContactCode gives back both keys for every pair of 32-byte keys, with blanks around the code, line breaks inside it, and its prefix or none |
| ContactCodes.CodeMayBreak | app/golang/pkg/client/contactcode.go:43-63 | A line break anywhere inside a code changes nothing |
| ContactCodes.WhiteSpaceIsTrimmed | app/golang/pkg/client/contactcode.go:43-44 | Every white-space character of Unicode, before a text or behind it, comes off |
| ContactCodes.ContactCodesDiffer | app/golang/pkg/client/contactcode.go:26-31 | Different key pairs have different codes |
| ContactCodes.ColonFormAgrees | app/golang/pkg/client/contactcode.go:65-83 | Two hex keys in digits of either case, with a colon between them and blanks around each, mean the same contact as the code |
| Text.HexIgnoresCase | app/golang/pkg/client/contactcode.go:65-83 | Upper-case hex decodes as lower-case does |
| ContactCodes.AcceptedIsCanonical | app/golang/pkg/client/contactcode.go:43-63 | Whatever is accepted names two 32-byte keys whose own code parses to the same contact |

## Left out

- Protocol: process restarts of a validator. A restarted engine begins its height at round 0 again and may vote twice, so runs have none (crashes of the chain's store are in Ledger).
- Protocol: the 32-bit round counter and the 64-bit height. Steps past the last round or height are not taken in runs; the engine class wraps both as the code does.
- Protocol: liveness. Timeouts are events that may come at any time.
- Engines.Engine.SeePrecommits: runRound's goroutine, lock and 20 ms polling are replaced by one method per wait, and the certificate is written into a copy of the proposal's block; removing the block's transactions from the pool is modelled in Pipeline.
- Engines.Engine.EnterRound: the pool's list and the clock are parameters; a failing publish is a GiveUp.
- Safety.CertificatesAgree: certificates are those of a single round, as runRound assembles them. VerifyCommitQuorum counts entries of different rounds together, and no agreement is claimed for such certificates.
- Safety.UnanimousAgreement: agreement is on header hashes, as the code has it; what that means for the transactions is in Tamper and Bodies.
- EngineModel.OneTurnEach: validators are compared as strings; two spellings of one key in different letter case count as two validators, as in the code.
- Chains.Chain.CommitBlock: Subscribe and publish are not modelled. A committed block is offered to subscribers' buffers and dropped when one is full.
- Storage.Store.PutBlock: BadgerDB is an atomic key-value map whose calls may fail without effect, and JSON keeps a block as it is.
- Backfills.BackfillOnce: gateways serve beginnings of one true chain that stands still during the call, and gossip is genuine or uncertified (Gossips.ListenForCommits has the rest). A commit and the removal from the pool after it count as one step, and the ten-second repetition is left to the caller.
- Mempools.Mempool.Add: the clock reading and the token bucket's answer are parameters.
- Pipeline.PipelineSafety: store errors during a commit are not among its events; RetryAfterBreak says what they do to a block.
- Mempools.SortTxs: sort.Slice is any method that orders and keeps the elements; sort.Strings likewise is a function.
- Histories.FetchHistory: failover to another gateway is one more way for a call to succeed or fail; decryption is an arbitrary partial function of key, nonce and ciphertext.
- ChatStores.ChatStore.Persist: an error from closing the file, which the code ignores, Fyne's storage layer, and JSON's replacement of text that is not UTF-8; contacts are values, so a change through a shared pointer is not seen.
- SyncedMessages.OwnMessageSynced: the message's hash occurs once in the scan, as on a committed chain without collisions, and was not in the conversation; a message whose hash was there is skipped (NoLosses.FalseLive).
- NoLosses.NoLoss: the chain served to the wallet is taken as it is, in height order, signed and without a collision of hashed transactions; the client itself checks none of this. Messages() sorting by time and SendText's network call are left out (its append is a Live event).
- Gossips.GuardKeepsPrefix: every true transaction is taken to have a recipient of 64 characters, which nothing in the code enforces (Verify decodes only the sender). Where one has not, its block fails the guard although it is genuine.
- Discovery, registry, health probing, configuration, metrics, TLS, libp2p, gRPC, key derivation, the user interfaces and the Swift client: thin next to the core, external, or a repetition of it.
