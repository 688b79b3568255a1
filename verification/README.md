# A verified model of the Mixin kernel

The Mixin kernel is a ledger kept by a network of nodes. Every node leads a chain of rounds of
snapshots; each snapshot carries one transaction and is final once it has the collective signature
of more than two thirds of the nodes. This project models the parts of the kernel on which its
safety rests, and proves what they promise.

| file | what it models |
|---|---|
| Ledger, LedgerSafety, LedgerRuns, LedgerAccepts, LedgerProgress, LedgerFinality, OperationFinality, Conservation, BadgerStore | locks on outputs, deposits, mint batches and ghost keys; validation, and exactly what it accepts; persisting, pruning and finalising transactions; the value that runs create and destroy |
| Quorum, Network, NetworkProgress | many such ledgers, some of their nodes Byzantine, joined by collective signing; that a willing quorum gets a transaction final |
| Election, ElectionProgress, LateElection, NodeStore, NodeIndex, ConsensusReach, FinalSigners | pledging, accepting, cancelling and removing nodes, and exactly when each is recorded; the node lists, indexes and thresholds computed from that, and that the keys reach them; the check of a final signature |
| RoundGraph, RoundGraphSteps, RoundShape, FinalPool | rounds, their references and links; what a round may hold and its hash; the pool of final snapshots and the history of final rounds |
| Integers, MintPool, MintWorks, RoundWork, RoundWorkProgress | the shrinking mint pool, the division of a mint by work, and the counting of that work |
| RingSize, Ring | the lock-free ring buffer, step by atomic step, with its rounding and masking on 64 bits |
| Digits, Base58, Bech32, TxCodec, TxStreams, TxUnmarshal | base 58, Bech32 (BIP 173, section "Bech32") and Bech32m (BIP 350, section "Bech32m"), the encoding of transactions of versions 2 to 4, and unmarshalling with its panics |
| Arith, Sums | arithmetic and finite sums |

## How it is built

* A step of the store, one committed transaction of the key-value database, is one function from
  tables to tables or one method of a class that holds the tables. Runs are sequences of steps in
  any order, and the main theorems speak of all of them.
* Code that changes things step by step is imperative here too: classes `Badger`, `NodeQueue`,
  `Kernel`, `CacheRound`, `WorkStore`, `Pool`, `RingBuffer`, `Encoder` and `Decoder`, and methods
  with loops. Each is proved to compute a function about which the theorems are proved.
* A hash is a number, 0 where the code has no value. A hash names one transaction (`Book`), and the
  round hash is the term that is hashed, so equal hashes mean equal inputs.
* Signatures are the fact that a node answered. An honest node answers for a snapshot only after
  its transaction was persisted in its own store.
* Panics the kernel calls impossible are preconditions or refused steps, and are proved not to be
  reached where a call depends on it. Panics of `Integer` that an argument can cause are exact
  preconditions (`MintPool.YearsLeft`). The panic of the encoder on the signers of a decoded
  transaction can be reached: it is an outcome of its own (`TxUnmarshal.Outcome`).
* Clocks, and the outcome of checks on addresses, sizes and curve points, are parameters.

## Where the code does not do what one would expect

* Guards and store checks on node operations look twelve hours ahead of the operation. A pledge
  that is finalised after a record further ahead is still accepted, and the queue then holds a
  pledge that is not the latest record, or a second pledge of one node:
  `Election.LatePledgeExample` is such a run from genesis, `Election.PledgeOrderlyIff` says exactly
  when it happens. For every kind of operation,
  `LateElection.ApplyLawfulIff` says exactly which ones leave a history of the automaton, and
  `LateElection.RunLawfulIff` says so of whole runs.
* The store keeps head rounds under node ids in the table of final rounds. An external reference
  that is the id of a chain is found there and can be accepted, after which references do not all
  go to final rounds and the two copies of a link can come to differ: `RoundGraph.ByIdExample`.
  Such references come in on the path of finalised snapshots. On the strict path the stored head has
  the time 0 and is refused once a best round lies beyond the threshold, which is part of the
  verdict `sane`. Exactly the references that are not ids keep the graph sound:
  `RoundGraph.StartSoundIff`, `RoundGraph.UpdateSoundIff`.
* The rule that a round lies on one day looks at the snapshots already there, so around the moment
  the rule came into force a round can span two days: `RoundShape.AroundTheFork`,
  `RoundShape.SingleDayIff`.
* A persisted transaction cannot always be finalised. Validation does not lock the ghost keys of an
  output with withdrawal data, but finalising locks those of every spendable output, and fails if
  another transaction took one in between: `LedgerFinality.BlockedExample`. As far as outputs and
  ghost keys go it is the only way to fail: `LedgerFinality.FinalisableIff`. Together with the checks
  of node and custodian operations the condition is `OperationFinality.FinalisableAllIff`.
* The store that counts work panics if a leader is not among the signers of a snapshot of its chain,
  and nothing before it asks for that: signatures are counted, not looked through for the leader.
  `RoundWork.UnledExample` is such a run, `RoundWork.NoPanicIff` and `RoundWork.LeaderDecides` say
  exactly when it happens, and by `RoundWork.UnledBlocks` nothing of the chain beyond that round is
  ever counted.
  The other reason is a round on two days, which `RoundShape.SingleDayIff` confines to the time
  before the rule came into force.
* For twelve hours after a removal, a final signature may use the removed node's key besides those
  the threshold is computed from, and in the first round of a pledging node its own. Two quorums then
  share more than a third of the base unless the base is one more than a multiple of three: of 8 keys
  over a base of 7, two sets of 5 may share only 2. `FinalSigners.FinalSignersOverlapIff`,
  `FinalSigners.OneKeyAdded`.
* The mint that leaves the legacy schedule is topped up. When its snapshot is validated again, the
  recorded amount is topped up a second time and the transaction is not rebuilt as recorded:
  `MintPool.SwitchExample`. It is the only universal mint for which that happens:
  `MintPool.RebuiltIff`.
* Unmarshalling encodes what it decoded in order to compare, and the encoder panics on signers of an
  aggregated signature that are not increasing or beyond 65535, which the decoder lets through:
  `TxUnmarshal.UnorderedSigners`, `TxUnmarshal.WideSigners`, and exactly when: `TxUnmarshal.PanicsIff`.
* A ring of one slot loses items: `RingProtocol.NeverOverfullIff`. The callers use 1024 slots.
* `Len` of the ring loads its counters one after the other. If more items are polled in between than
  were held, the difference wraps: `RingProtocol.LenWraps`, `RingProtocol.LenBetween`.
* A Bech32 string does not decode if its human-readable part, lower-cased, is empty or not printable,
  although it encodes: `Bech32.DecodeEncodeIff`. What counts is the part after lower-casing, so a
  Kelvin sign comes back as `k`: `Bech32.KelvinPart`.
* An amount of 0 at the very end of a buffer does not read back, because reading no bytes at the
  end is an error: `TxCodec.IntegerBack`. In a transaction something always follows an amount.

## Model

| member | source | states |
|---|---|---|
| `LedgerSafety.LockUtxoEffect` | storage/badger_utxo.go:68-95 | Locking one output hands exactly that output to the transaction: it was free, already its own, or (only with `fork`) its previous holder was not final and has been pruned; no other lock, output, deposit, mint or ghost entry changes. |
| `LedgerSafety.LockUtxosEffect` | storage/badger_utxo.go:53-66 | Locking a list of inputs hands over exactly the claims on those inputs, all of which exist, and prunes no finalised transaction. |
| `LedgerSafety.LockDepositEffect` | storage/badger_deposit.go:32-60 | The same for a deposit key. |
| `LedgerSafety.LockMintEffect` | storage/badger_mint.go:105-131 | The same for a mint batch, for a transaction that does not hold the batch with another amount. |
| `LedgerSafety.LockInputsEffect` | common/snapshot.go:148-156 | Whatever the kind of transaction, locking its inputs takes all its claims and nothing else. |
| `LedgerSafety.InputsTypeMeaning` | common/transaction.go:116-127 | The scan of the inputs decides the kind exactly when some input is not a plain spend, and then only as mint, deposit or unknown. |
| `LedgerSafety.OutputsTypeMeaning` | common/transaction.go:129-162 | The scan of the outputs never yields mint or deposit, and yields script only if every output is a script output. |
| `LedgerSafety.TypeMeaning` | common/transaction.go:116-162 | Every kind other than mint, deposit and unknown spends existing outputs with all its inputs; a script transaction has script outputs only. |
| `LedgerSafety.ScanMeaning` | common/validation.go:177-251 | When the inputs of a spending transaction pass, they are pairwise distinct existing outputs of the right asset, and the amount found is their sum. |
| `LedgerSafety.TallyMeaning` | common/validation.go:253-326 | When the outputs pass, all amounts are positive, the amount found is their sum and no ghost key repeats among the keys to be locked. |
| `LedgerAccepts.ScanIff` | common/validation.go:177-251 | Inputs that spend pass if and only if each exists, is not repeated, has the asset and a type the kind may spend, and is free or its own or forced by a fork; the amount found is their sum. |
| `LedgerAccepts.TallyIff` | common/validation.go:253-326 | Outputs pass if and only if each is positive and has the keys, mask and script its type asks for, and no key repeats; the amount found is their sum. |
| `LedgerAccepts.AcceptsIff` | common/validation.go:10-112 | For each kind by itself, transfers, mints, deposits, withdrawal submissions, fuel and claims, pledges, cancellations, acceptances and removals of nodes, and custodian updates: validation accepts if and only if the sizes, the outputs, the store and the balance of inputs and outputs meet what is written out for that kind, without naming the scans or the switch by type. |
| `LedgerAccepts.AcceptedHasKind` | common/validation.go:10-112 | Nothing is accepted that is of none of these kinds. |
| `LedgerAccepts.OneKind` | common/transaction.go:116-162 | A transaction is of one kind at most. |
| `LedgerAccepts.ValidateLocks` | common/validation.go:253-326 | Whether or not it accepts, validation locks exactly the ghost keys of the outputs without withdrawal data once the checks before them pass, for the transaction, and changes no other entry. |
| `LedgerProgress.LockInputsIff` | common/snapshot.go:148-156 | The inputs can be locked if and only if every one yields: it is there, and free, its own, or, with `fork`, held by a transaction that is not final; exactly the transactions that held one are pruned. |
| `LedgerProgress.PersistsIff` | kernel/self.go:14-64 | After every run, a transaction that validation accepts is persisted by validating, locking and writing if and only if it was persisted before or every input yields. |
| `LedgerProgress.AcceptedPersists` | kernel/self.go:45-64 | So without a fork every accepted transaction that does not mint is persisted. |
| `LedgerSafety.LockGhostsEffect` | storage/badger_utxo.go:133-161 | Locking ghost keys gives every key to the transaction and takes none from another. |
| `LedgerSafety.ValidateEffect` | common/validation.go:10-112 | Validation, passed or failed, changes ghost-key locks at most, and takes none away. |
| `LedgerSafety.ValidateSound` | common/validation.go:10-112 | An accepted transaction is balanced: it creates exactly what it spends, mints or deposits, with positive amounts, and has only output types that the later listing of unspent outputs handles without panic. |
| `LedgerSafety.ValidTypeInputs` | common/validation.go:177-251 | For an accepted transaction of each kind the input amount is the minted, deposited or spent amount, with the inputs shaped as that kind needs. |
| `LedgerSafety.ValidTypeOutputs` | common/validation.go:80-111 | A transaction that passes the checks of its kind has the inputs of that kind and no output type on which `UnspentOutputs` panics. |
| `LedgerRuns.WriteUtxosEffect` | common/utxo.go:25-63 | Finalising adds exactly the spendable outputs, unlocked, with the asset of the transaction, and leaves every other output as it was. |
| `LedgerRuns.WriteUtxosGhosts` | storage/badger_transaction.go:177-212 | After finalising, every ghost key of a spendable output belongs to the transaction, and keys locked before keep their owner. |
| `LedgerRuns.ValidateKeeps` | common/validation.go:10-112 | Validation keeps the ledger invariant. |
| `LedgerRuns.LockKeeps` | kernel/self.go:45-56 | Locking the inputs of an approved transaction, forced or not, keeps the ledger invariant; the transactions it displaces are pruned. |
| `LedgerRuns.WriteKeeps` | storage/badger_transaction.go:46-144 | Persisting keeps the ledger invariant: every persisted transaction holds all its inputs. |
| `LedgerRuns.FinalizeUtxos` | storage/badger_transaction.go:146-175 | The first finalisation keeps existing outputs with their locks and every owner, and records the snapshot. |
| `LedgerRuns.FinalizeKeeps` | storage/badger_transaction.go:146-212 | Finalising a persisted transaction keeps the ledger invariant. |
| `LedgerRuns.GenesisKeeps` | storage/badger_genesis.go:10-41 | Loading a genesis transaction keeps the ledger invariant. |
| `LedgerRuns.RunKeeps` | kernel/self.go:14-64 | The ledger invariant holds after every sequence of validate, lock, persist, finalise and genesis steps, in any order and with any `fork` flags. |
| `LedgerRuns.NoDoubleSpend` | storage/badger_transaction.go:46-212 | In every run, two persisted transactions never spend the same output, deposit or mint batch, finalised transactions are persisted, and two finalised ones never share a ghost key. |
| `LedgerRuns.RunGrows` | storage/badger_transaction.go:120-175 | However a run goes on, no finalisation is forgotten or moved to another snapshot, and no output disappears. |
| `LedgerRuns.FinalityIsForever` | storage/badger_transaction.go:120-175 | Once final, a transaction stays persisted under the same snapshot and keeps the lock on everything it spent, so its inputs can never be unlocked by a later finalisation. |
| `Conservation.CreatedByOne` | common/utxo.go:25-63 | A finalised transaction put outputs of its total into the ledger, except withdrawal submissions and slashes, and none of another asset. |
| `Conservation.ConsumedByOne` | common/validation.go:74-78 | What a finalised transaction holds locked is worth its outputs minus what it issued. |
| `Conservation.SupplyIsConserved` | common/validation.go:10-112 | In every run and for every asset: outputs not consumed by a final transaction plus everything withdrawn equal everything issued by genesis, deposits and mints. |
| `LedgerFinality.LockGhostsIff` | storage/badger_utxo.go:133-161 | Ghost keys can be locked for a transaction exactly when none is held by another. |
| `LedgerFinality.WriteUtxosIff` | storage/badger_transaction.go:146-212 | Outputs are written exactly when every type is known and no key of a spendable one is held by another transaction. |
| `LedgerFinality.ValidateHolds` | common/validation.go:253-326 | After validation every key of an output without withdrawal data is locked for the transaction. |
| `LedgerFinality.GhostsGrow` | storage/badger_utxo.go:133-161 | No step of a run releases a ghost key or hands it to another transaction. |
| `LedgerFinality.FinalisableIff` | storage/badger_graph.go:98-177 | In every run, as far as outputs and ghost keys go, a snapshot of a persisted transaction is accepted if and only if the transaction is final already or no other transaction holds a key of its spendable outputs with withdrawal data, which validation skips. |
| `LedgerFinality.PlainIsFinalisable` | storage/badger_transaction.go:146-175 | So, as far as outputs and ghost keys go, a transaction without such outputs can be finalised in every run as long as it is persisted. |
| `LedgerFinality.BlockedExample` | common/validation.go:267-270 | A run in which a deposit with withdrawal data is validated, locked and persisted, another transaction then locks its key, and no snapshot of the deposit is accepted. |
| `LedgerFinality.GenesisIff` | storage/badger_genesis.go:10-41 | A genesis transaction is loaded if and only if genesis is its only input, and it was loaded before or all its outputs can be written. |
| `OperationFinality.ValidateShape` | common/validation.go:80-111 | A validated transaction has a node or custodian operation in its first output at most, and one that accepts a node is not of genesis. |
| `OperationFinality.WriteOutputsSplit` | storage/badger_transaction.go:166-212 | Writing output by output, each with its operation, is writing all outputs and the one operation, or nothing. |
| `OperationFinality.FinalisableAllIff` | storage/badger_transaction.go:146-212 | In every run and for every state of the node queue and of the custodians, a snapshot of a persisted transaction that is not final yet is written if and only if no other transaction holds a key that validation skipped, and its pledge, acceptance, cancellation, removal or custodian update passes the check of its table; then outputs, keys and the operation are written together. |
| `OperationFinality.ElectedIsWritten` | storage/badger_transaction.go:166-212 | A pledge, acceptance, cancellation or removal that passes the election and is not recorded yet is finalised, and moves the queue just as `Election.Apply` does. |
| `OperationFinality.CustodianIff` | storage/badger_custodian.go:86-111 | A custodian update is finalised if and only if its extra parses and names at most fifty nodes and no other custodian is recorded for that time; then it is the custodian of that time. |
| `OperationFinality.OthersLeaveTables` | storage/badger_transaction.go:166-212 | Every other transaction is finalised whatever the queue and the custodians are, and leaves them alone. |
| `BadgerStore.Badger.LockUtxoInputs` | storage/badger_utxo.go:53-95 | The loop over inputs in one store transaction: all inputs pass to the transaction lawfully, or nothing changes. |
| `BadgerStore.Badger.LockDepositInput` | storage/badger_deposit.go:32-60 | Succeeds exactly when the key is free, its own, or held by a transaction that is not final and `fork` is set; on failure nothing changes. |
| `BadgerStore.Badger.LockMintInput` | storage/badger_mint.go:105-131 | The same for a mint batch, comparing transaction and amount. |
| `BadgerStore.Badger.LockGhostKeys` | storage/badger_utxo.go:113-161 | Succeeds exactly when the keys are distinct and none belongs to another transaction; keys are taken all together or not at all. |
| `BadgerStore.Badger.WriteTransaction` | storage/badger_transaction.go:46-105 | Persists exactly when every input is held by the transaction, and then all its claims are its own. |
| `BadgerStore.Badger.LockTransactionInputs` | common/snapshot.go:148-156 | Dispatches on the kind of transaction; on failure nothing changes. |
| `BadgerStore.Badger.LockAndPersistTransaction` | kernel/self.go:45-64 | For a transaction shaped as validation demands, it is persisted exactly when its inputs could be locked: the assertions made on persisting never fail in between. |
| `BadgerStore.Badger.WriteSnapshotOf` | storage/badger_graph.go:98-177 | The first snapshot of a persisted transaction writes its outputs; a second one, or a failing one, writes nothing. |
| `BadgerStore.Badger.ValidateOutputs` | common/validation.go:253-326 | Returns the total of the outputs and locks their ghost keys, or fails and leaves the store as it was. |
| `BadgerStore.Badger.ValidateTransaction` | common/validation.go:10-112 | The whole order of checks, with the verdict and the store of `Ledger.Validate`, whose accepted transactions are exactly those of `LedgerAccepts.AcceptsIff`; an accepted transaction is balanced and nothing but ghost keys changes. |
| `BadgerStore.Badger.ValidateSnapshotTransaction` | kernel/self.go:14-64 | A persisted transaction is left alone; another one is validated, locked and persisted, and if that succeeds it is balanced and holds all its claims. |
| `BadgerStore.TransactionType` | common/transaction.go:116-162 | The two scans with early return compute the kind of the transaction. |
| `BadgerStore.ValidateInputs` | common/validation.go:177-251 | The loop over inputs, stopping at a mint or deposit; spends that pass are distinct existing outputs and the amount is their sum. |
| `BadgerStore.LockedHolds` | storage/badger_transaction.go:46-105 | After the inputs of a transaction are locked, each passes the assertion made on persisting. |
| `Quorum.QuorumsOverlap` | kernel/node.go:263-293 | Two sets of signers among at most `base` keys that both reach the threshold share more than a third of the base, and the base is at least the minimum of nodes. |
| `Quorum.TightOverlap` | kernel/graph.go:400-417 | They still do with one key more than the base, if the base is not one more than a multiple of three. |
| `Quorum.OverlapIff` | kernel/graph.go:400-417 | For any set of keys that can reach the threshold: all quorums pairwise share more than a third of the base if and only if the keys are at most the base, or one more and the base is not one more than a multiple of three. |
| `FinalSigners.VerifyFinalization` | kernel/graph.go:380-418 | A snapshot is final if and only if its mask and signature pass with the consensus keys, or, while a node was removed less than twelve hours ago, with that node's key in front of them; then as many different nodes as the threshold signed. |
| `FinalSigners.SignersSize` | kernel/graph.go:333-336 | A mask over distinct keys stands for as many nodes as it has bits. |
| `FinalSigners.ListSigners` | kernel/graph.go:333-336 | The loop lists exactly the nodes the mask marks. |
| `FinalSigners.FinalSignersOverlapIff` | kernel/graph.go:363-418 | For every history and time: any two sets of signers that can make snapshots of that time final share more than a third of the base if and only if the keys, with those of a pledging and a removed node, are at most the base, or one more and the base is not one more than a multiple of three. |
| `FinalSigners.OneKeyAdded` | kernel/graph.go:374-411 | On every lawful history at most one of those two keys is added. |
| `FinalSigners.RetriesIff` | kernel/graph.go:400-411 | On every lawful history the second try is made if and only if the latest record before the snapshot is a removal of the last twelve hours. |
| `Network.OwnersMove` | storage/badger_utxo.go:68-95 | In one step of a node a claim changes hands only if it was free or a forced lock for a transaction that claims it takes it. |
| `Network.FinalsMove` | storage/badger_graph.go:98-177 | A node finalises only the transaction of the snapshot it writes, or genesis. |
| `Network.LocalPeer` | kernel/self.go:14-64 | After any step a node that forces locks only for certified transactions still holds what it ever persisted, except what a certified transaction took over. |
| `Network.NewcomerApart` | kernel/cosi.go:273-282 | What a node persists never conflicts with a certified transaction it had persisted before. |
| `Network.HonestInBoth` | kernel/node.go:263-293 | With at most a third of the base Byzantine, two quorums have an honest signer in common. |
| `Network.NoRival` | kernel/cosi.go:768-785 | A transaction in conflict with one that has a quorum can never gather a quorum itself. |
| `Network.NewCert` | kernel/graph.go:380-398 | When a snapshot first reaches the threshold, none of its honest signers has ever persisted a conflicting transaction. |
| `Network.StepKeeps` | kernel/cosi.go:615-648 | Every store step of an honest node, every answer, Byzantine ones included, and every certificate keep the network invariant. |
| `Network.NoConflictingQuorums` | kernel/cosi.go:273-282 | In every run with at most a third of the base Byzantine, and keys as `Quorum.TightOverlap` allows, one beyond the base included, no two transactions that spend the same output, deposit or mint batch both gather a threshold of signers. That quorums are gathered is `NetworkProgress.QuorumFinalises`. |
| `Network.NoConflictingFinals` | kernel/cosi.go:732-814 | In every such run no two honest nodes, nor one node twice, finalise conflicting transactions. |
| `Network.SignersKeepTheirWord` | storage/badger_utxo.go:68-95 | An honest signer of a transaction with a quorum holds each of its inputs for it from then on. |
| `NetworkProgress.AnsweredIff` | kernel/cosi.go:615-648 | The answers a run has gathered for a snapshot are exactly those of Byzantine nodes and of honest nodes that had persisted its transaction when they answered. |
| `NetworkProgress.CertifiedIff` | kernel/graph.go:380-398 | A transaction is certified if and only if at some moment of the run a snapshot of it was, with as many answers of keys as the threshold. |
| `NetworkProgress.QuorumGathers` | kernel/cosi.go:650-730 | Whatever else happens in between: once as many keys as the threshold may answer for a snapshot and do, its transaction can be certified. |
| `NetworkProgress.FinalisesIff` | kernel/cosi.go:732-814 | In every run, a node makes a transaction final if and only if it was final there, or it is certified, persisted there, and no other transaction holds a key that validation skipped. |
| `NetworkProgress.TakesInIff` | kernel/self.go:14-64 | In every run, an honest node that accepts a transaction has it persisted after validating, locking and writing, and may then answer for it, if and only if it had before or every input yields; no other node moves. |
| `NetworkProgress.QuorumFinalises` | kernel/cosi.go:615-814 | After every run: if as many honest nodes as the threshold are willing to take a transaction in, they can persist it, answer, have it certified and make it final, each in its own store. |
| `RingProtocol.ExecInv` | util/ring.go:77-144 | Every atomic load, compare-and-swap and store of any thread keeps the slot, thread and ticket invariant. |
| `RingProtocol.RunInv` | util/ring.go:51-144 | The invariant holds after every interleaving of any number of producers and consumers on at least two slots. |
| `RingProtocol.EndsMoveByCas` | util/ring.go:88-95 | Only a winning compare-and-swap moves either end of the queue. |
| `RingProtocol.ExecLinearizes` | util/ring.go:77-144 | The winning compare-and-swap of a put appends its item to the queue, which has room; that of a poll removes the oldest item; no other step changes the queue. |
| `RingProtocol.PollReturnsClaim` | util/ring.go:140-143 | A poll hands out the item that was claimed under its own ticket, and no ticket is handed out twice. |
| `RingProtocol.RingSafety` | util/ring.go:51-144 | In every interleaving items leave in the order of their claims, none is lost, duplicated or overwritten, at most `size` are held, and at rest each held item is in its slot. |
| `RingProtocol.SoloOffer` | util/ring.go:73-106 | Undisturbed on a ring at rest, Offer succeeds exactly when fewer than `size` items are held. |
| `RingProtocol.SoloPoll` | util/ring.go:113-144 | Undisturbed on a ring at rest, Poll returns the oldest item, and nothing only when the ring is empty. |
| `RingProtocol.NeverOverfullIff` | util/ring.go:51-58 | No run ever holds more than `size` items if and only if the ring has at least two slots; with one slot a held item can be overwritten. |
| `RingProtocol.SingleSlotRun` | util/ring.go:77-106 | The run on one slot: two puts succeed in a row and the first item is gone. |
| `RingProtocol.SoloIsARun` | util/ring.go:77-144 | A call followed by undisturbed steps is one of the interleavings. |
| `RingProtocol.LenBetween` | util/ring.go:147-149 | Between the two loads of Len any steps may run. The difference is what was held at the first load minus the polls won since, and what is held at the second minus the puts won since; it is negative, and so wraps, exactly if more polls were won than items were held. |
| `RingProtocol.LenWraps` | util/ring.go:147-149 | A run in which the second load is ahead of the first. |
| `RingSize.RoundUp` | util/ring.go:17-27 | The shifts and ors on 64 bits compute the rounded size. |
| `RingSize.RoundedMeaning` | util/ring.go:15-27 | It is the least power of two that is large enough, for sizes from 1 to 2^63, and 0 for every other. |
| `RingSize.AndIsMod` | util/ring.go:86 | For a power of two, masking a ticket is its remainder. |
| `RingBuffers.MaskIsIndex` | util/ring.go:86 | So the masked ticket is the slot index of the protocol. |
| `RingBuffers.RingBuffer.constructor` | util/ring.go:51-58 | An empty ring of the rounded size, for every size of 64 bits; from 1 to 2^63 it has room for at least `size` items. |
| `RingBuffers.RingBuffer.Offer` | util/ring.go:73-106 | The loads and stores of the code are an undisturbed Offer of the protocol, on every size; on two slots or more it appends unless disposed or full. |
| `RingBuffers.RingBuffer.Poll` | util/ring.go:113-144 | The loads and stores of the code are an undisturbed Poll of the protocol, on every size; on two slots or more it removes and returns the oldest item unless disposed or empty. |
| `RingBuffers.RingBuffer.Len` | util/ring.go:147-149 | For one caller the difference of the counters is the number of items held. |
| `RingBuffers.RingBuffer.Dispose` | util/ring.go:154-156 | Disposing keeps what is held and is a step of the protocol. |
| `Election.LawfulOrder` | storage/badger_node.go:20-74 | On a history of the automaton times never decrease, and every record after genesis is at least twelve hours after the one before. |
| `Election.AcceptedStep` | kernel/election.go:106-131 | How one more record changes the set of accepted nodes. |
| `Election.EnoughAccepted` | kernel/election.go:132-134 | The number of accepted nodes never drops below the minimum of seven. |
| `Election.NodeHistories` | storage/badger_node.go:150-239 | Every node goes from Pledging to Cancelled, or to Accepted and Removed, and genesis nodes start Accepted. |
| `Election.OnePledging` | storage/badger_node.go:217-239 | At most one node is pledging, and its record is the latest. |
| `Election.MissedRefused` | kernel/election.go:94-141 | A guard that sees all but the latest record of a timely history never lets an accept, cancel or removal through to the store. |
| `Election.ApplyLawful` | kernel/election.go:213-276 | A timely operation that passes the kernel guard and the store check is a step of the automaton, appended at the end; one that does not pass changes nothing. Which ones pass is `ElectionProgress.ApplyIff`. |
| `ElectionProgress.ApplyIff` | kernel/election.go:94-276 | On every lawful history, an operation that is on time and new is recorded, at the end, if and only if it is due, with hours and days written out: a pledge of a new node when none is pledging and the latest record is twelve hours old; acceptance or cancellation of the pledging node from twelve hours to seven days after the pledge; the removal of the earliest accepted node when more than seven are; the last three in the hours 13 to 19 of a day. |
| `ElectionProgress.RunInTime` | kernel/election.go:535-573 | In every run from genesis whose operations are on time or harmless, every acceptance, cancellation and removal was made in those hours, and every acceptance or cancellation twelve hours to seven days after a pledge of its node. |
| `ElectionProgress.PledgeStoreIff` | storage/badger_node.go:217-239 | For every ordered queue: the store takes a pledge if and only if, twelve hours ahead, no node is pledging and neither node nor transaction is current. |
| `ElectionProgress.ResolveStoreIff` | storage/badger_node.go:150-164 | It takes an acceptance or cancellation if and only if the newest record is the pledge of that node. |
| `ElectionProgress.RemoveStoreIff` | storage/badger_node.go:166-197 | It takes a removal if and only if the newest record is not a pledge and that node is accepted. |
| `Election.PledgeOrderlyIff` | kernel/election.go:488-533 | A pledge that the guard and the store accept keeps pledges in order if and only if no record is twelve hours or more later than it. |
| `Election.LatePledge` | storage/badger_node.go:217-239 | A pledge that arrives after such a record either leaves a pledging node that is not the latest record or pledges a node a second time. |
| `Election.LatePledgeExample` | storage/badger_node.go:217-239 | A run from a genesis of eight nodes: a removal passes the guard and the store, then a pledge with an earlier time passes both too, and the queue is no longer orderly. |
| `LateElection.LateResolution` | storage/badger_node.go:150-164 | An accept or cancel that passes guard and store after a record twelve hours or more ahead of it never leaves a lawful history. |
| `LateElection.RemovedIsLast` | storage/badger_node.go:166-197 | A removed node has no later record. |
| `LateElection.EarliestStays` | kernel/election.go:94-141 | The earliest accepted node stays the earliest until it is removed itself. |
| `LateElection.LateRemovalIff` | kernel/election.go:213-229 | A late removal that passes guard and store leaves a lawful history if and only if every record after it is at least twelve hours later and none is a removal. |
| `LateElection.ApplyLawfulIff` | kernel/election.go:488-573 | An operation of any kind that the guard and the store let through leaves a lawful history if and only if it is on time or such a removal. |
| `LateElection.RunLawfulIff` | storage/badger_node.go:83-121 | A run from genesis, with any operations at any times, stays within the automaton at every point if and only if every operation that is recorded is safe in that sense when it is. |
| `LateElection.ElectionSafety` | storage/badger_node.go:150-239 | After every safe run from genesis: every node has a legal history, each node pledged once, at most one is pledging and it is the latest record, and at least seven are accepted. |
| `NodeStore.InsertSorted` | storage/badger_node.go:241-245 | A write keeps the queue in key order and changes the entry at its own key only. |
| `NodeStore.NodeQueue.ReadAllNodes` | storage/badger_node.go:20-74 | The scan passes over the records beyond the threshold and returns exactly those up to it, in key order. |
| `NodeStore.NodeQueue.WriteNodePledge` | storage/badger_node.go:217-239 | Written exactly when no node is pledging and neither the node nor the transaction is current; otherwise nothing changes. |
| `NodeStore.NodeQueue.WriteNodeResolution` | storage/badger_node.go:150-164 | Accepting and cancelling are written exactly when the last record is the pledge of that node. |
| `NodeStore.NodeQueue.WriteNodeRemove` | storage/badger_node.go:166-197 | Written exactly when the latest record is not a pledge and the node is accepted; otherwise nothing changes. |
| `NodeStore.CheckRemovePossibility` | kernel/election.go:94-141 | The loops name the node of the removal under vote if it is recorded, else the earliest accepted node. They succeed exactly in the window with no node pledging, all other records old enough and settled, more than the minimum of other nodes accepted, and a named node other than the one that proposes. For a removal not recorded yet that is the guard of the automaton, for exactly one node. |
| `NodeStore.FreshRemoval` | kernel/election.go:94-141 | On a removal that is not recorded yet, the verdict and the node named are the guard of the automaton: it holds for that node and no other. |
| `NodeIndex.LastRecords` | kernel/node.go:172-179 | One pass over the history keeps the current record of each node before the threshold. |
| `NodeIndex.SortRecords` | kernel/node.go:180-203 | Listing the map in any order and sorting gives its records in order, accepted ones only if asked. |
| `NodeIndex.NumberNodes` | kernel/node.go:204-213 | Every node gets as index the number of accepted or pledging nodes before it. |
| `NodeIndex.NodeSequenceWithoutState` | kernel/node.go:172-213 | The loop computes the same list as the direct definition on the history. |
| `NodeIndex.BuildNodeStateSequences` | kernel/node.go:145-156 | One list per record, each that of the moment right after the record. |
| `NodeIndex.NodesListWithoutState` | kernel/node.go:158-170 | Looking up the precomputed lists gives, for every sorted history and threshold, what computing from the history gives. |
| `NodeIndex.LookupIsFold` | kernel/node.go:158-170 | The history before a threshold is the history up to the last record before it. |
| `NodeIndex.ConsensusKeys` | kernel/graph.go:363-378 | The signers are exactly the nodes ready at the time, in list order. |
| `NodeIndex.ConsensusThreshold` | kernel/node.go:263-293 | The threshold is more than two thirds of the consensus keys, for every node list and time; that the keys reach it is `ConsensusReach.FullMaskPassesIff`. |
| `ConsensusReach.BaseCounts` | kernel/node.go:263-293 | The base is the number of listed nodes that are accepted, of genesis or for more than thirty seconds, and, for snapshots that are not final, of those pledging for more than twelve hours less ninety seconds. |
| `ConsensusReach.KeysCount` | kernel/node.go:250-261 | The keys are exactly those of the accepted nodes of genesis or older than twelve hours. |
| `ConsensusReach.FullMaskPassesIff` | kernel/node.go:263-293 | On every lawful history and at every time after genesis there are at least seven keys, the base is their number or one more, and a mask of all keys passes if and only if there are at most 64, for final snapshots and others. |
| `ConsensusReach.MaskPassesIff` | kernel/graph.go:301-340 | There a mask passes if and only if it names keys, below 64, and more than two thirds of the base. |
| `NodeIndex.KeysWithinBase` | kernel/node.go:250-293 | The consensus keys are never more than what the threshold is computed from. |
| `NodeIndex.EarlierReady` | kernel/node.go:250-261 | Among accepted nodes of a lawful history, readiness of a later one implies readiness of an earlier one. |
| `NodeIndex.IndexIsPosition` | kernel/graph.go:363-378 | On every lawful history and at every time, the consensus index of a ready node is its position among the consensus keys. |
| `NodeIndex.AggregateMask` | crypto/cosi.go:160-166 | Marking indexes in any order gives exactly their set, and fails exactly when one is beyond the mask. |
| `NodeIndex.MaskKeys` | crypto/cosi.go:168-177 | The indexes of a mask in increasing order, each once. |
| `NodeIndex.MasksOverlap` | crypto/cosi.go:183-185 | Two masks that pass the threshold of the same node list share more than a third of its base. |
| `NodeIndex.NoMaskBelowMinimum` | kernel/node.go:263-293 | With fewer than seven nodes in the base no 64-bit mask passes. |
| `RoundGraph.StartKeeps` | kernel/graph.go:22-79 | Starting a round, with a real or a stand-in external reference, keeps the graph invariant. |
| `RoundGraph.UpdateKeeps` | kernel/graph.go:81-143 | Changing the references of an empty head keeps the graph invariant. |
| `RoundGraph.JoinKeeps` | kernel/election.go:419-463 | The first rounds of an accepted node keep the graph invariant. |
| `RoundGraph.StartSoundIff` | storage/badger_round.go:74-152 | A round started in a sound state leaves it sound if and only if its external reference is not the id of a chain, under which the store keeps head rounds. |
| `RoundGraph.UpdateSoundIff` | storage/badger_round.go:27-72 | The same for an empty head update. |
| `RoundGraphSteps.StartIff` | kernel/graph.go:22-79 | In every state of the invariant a round is started if and only if the closed round has the hash referred to and it is new, and the external round is known, of another chain, not behind the link and sane or the snapshot final, or is unknown and the snapshot final. |
| `RoundGraphSteps.StartEffect` | kernel/graph.go:22-79 | Then the head moves on by one and refers to those rounds, the old head is stored under its hash, the link follows to the external round, and nothing else changes. |
| `RoundGraphSteps.UpdateIff` | kernel/graph.go:81-143 | The head is updated if and only if its self reference stays, and the external round is known and may be referred to. |
| `RoundGraphSteps.UpdateEffect` | kernel/graph.go:81-143 | Then it refers to the new external round, the link follows, and nothing else changes. |
| `RoundGraphSteps.JoinIff` | kernel/election.go:419-463 | The first rounds of a node are written if and only if neither they nor their hash are known and the external round is, on another chain. |
| `RoundGraphSteps.JoinEffect` | kernel/election.go:419-463 | Then round 0 is final and round 1 refers to it and to the external round, and nothing else changes. |
| `RoundGraph.JoinSoundIff` | kernel/election.go:419-463 | The same for the first rounds of an accepted node. |
| `RoundGraph.ExecSoundIff` | kernel/graph.go:22-176 | The same for every step that succeeds. |
| `RoundGraph.ExecKeeps` | kernel/graph.go:22-176 | Every step with a reference to a round keeps the invariant. |
| `RoundGraph.StoreGrows` | storage/badger_round.go:154-204 | Stored links never go back and final rounds are never rewritten. |
| `RoundGraph.LinksGrow` | kernel/graph.go:110-143 | Links in memory never go back. |
| `RoundGraph.PathsEnd` | storage/badger_round.go:124-152 | Following references from a final round ends after at most as many steps as rounds were written before it. |
| `RoundGraph.GraphSafety` | kernel/graph.go:22-176 | At every point of a run from genesis, of starts, updates and joins, links are equal, numbers consecutive and references stored earlier, if and only if no successful step refers to a chain by its id. |
| `RoundGraph.DummyDiverges` | kernel/graph.go:22-46 | If a head refers to a chain by its id, the next stand-in reference makes the two copies of the link differ. |
| `RoundGraph.ByIdExample` | kernel/graph.go:22-46 | Three rounds after a genesis of two nodes for which this happens. |
| `RoundGraph.Kernel.UpdateExternal` | kernel/graph.go:110-143 | The link in memory moves exactly when the reference is to another chain, not back, agrees with the store and is timely; otherwise nothing changes. |
| `RoundGraph.Kernel.ValidateNewRound` | kernel/graph.go:48-79 | Admits an unseen external reference only for a final snapshot, and then moves no link. |
| `RoundGraph.Kernel.StartNewRoundAndPersist` | kernel/graph.go:22-46 | Reaches the specified state or is refused and touches no table of the store; from a sound state, with a reference that is no chain id, the state reached is sound. |
| `RoundGraph.Kernel.UpdateEmptyHeadRoundAndPersist` | kernel/graph.go:81-108 | Reaches the specified state or is refused; from a sound state, with a reference that is no chain id, the store assertions never fail, a refusal changes nothing and the state stays sound. |
| `RoundGraph.FreshStarts` | storage/badger_round.go:74-122 | In a sound state every assertion of the store on a round the kernel admits holds, given a fresh hash. |
| `MintPool.LeftShrinks` | kernel/mint.go:248-263 | The pool, the yearly and the daily amount never grow. |
| `MintPool.MintedBound` | kernel/mint.go:248-263 | The universal schedule never releases more than the pool. |
| `MintPool.BatchReleases` | kernel/mint.go:248-280 | Every batch, also across a year boundary, releases at least the daily rate of its year, in both schedules. |
| `MintPool.SkippedBatches` | kernel/mint.go:453-466 | Paying skipped batches at the rate of the last one never pays more than the schedule released. |
| `MintPool.PoolDropsByAmount` | kernel/mint.go:220-280 | Within a year every mint takes exactly its amount out of the pool that is reported, in either schedule and at the switch from the legacy one. |
| `MintPool.FirstBatches` | kernel/mint.go:248-280 | The pool before the first batch, after ten, a year, and a year and a day, in both schedules, to the last digit. |
| `MintPool.LegacyBelow` | kernel/mint.go:220-235 | The legacy schedule is never ahead of the universal one, so the light-pool top-up is not negative. |
| `MintPool.AcceptCapped` | kernel/mint.go:160-235 | An accepted mint, skipped days and top-up included, keeps the total within the schedule of its group. |
| `MintPool.EmissionCap` | kernel/mint.go:220-280 | For every sequence of mints, total emission is at most the pool minus the universal pool size at the last batch. |
| `MintPool.PoolSizeUniversal` | kernel/mint.go:248-263 | The loop over years returns the pool minus what was released, which is positive; it does not panic as long as the years before the batch, and the days of its own year, released something. |
| `MintPool.PoolSizeLegacy` | kernel/mint.go:265-280 | The same for the legacy schedule, never below the universal one. |
| `MintPool.DailyRate` | kernel/mint.go:438-443 | The loop over years gives the daily rate of the batch. |
| `MintPool.CheckUniversalMintPossibility` | kernel/mint.go:422-467 | A batch is possible exactly in the window and beyond the last one (or equal to it when validating), and its amount fits what the schedule released since; no panic as long as the years before it released something. |
| `MintPool.CheckLegacyMintPossibility` | kernel/mint.go:469-525 | The same for the legacy schedule with its wider early window. |
| `MintPool.LegacyStrictlyBelow` | kernel/mint.go:220-236 | From the second year on the legacy schedule is strictly behind, so the top-up is positive. |
| `MintPool.TryToSlashLegacyLightPool` | kernel/mint.go:220-236 | Adds what the legacy schedule kept back to the mint that leaves it and nothing to any other; panics exactly if from the fork on the mint before is not of the day before. |
| `MintPool.RebuildLastMint` | kernel/mint.go:160-236 | Validated again, the last universal mint is rebuilt with its recorded amount if and only if it is not the mint that leaves the legacy schedule of the main network, which is topped up a second time. |
| `MintPool.RebuiltIff` | kernel/mint.go:160-236 | The same for the next accepted mint after every run of mints. |
| `MintPool.SwitchExample` | kernel/mint.go:220-236 | A run that leaves the legacy schedule at batch 1313, whose mint is not rebuilt as recorded. |
| `MintWorks.TrimmedTotal` | kernel/mint.go:592-626 | The total of the works covers the least and the greatest, so subtracting both never panics. |
| `MintWorks.AverageAtLeast` | kernel/mint.go:626-631 | The trimmed mean is at least the smallest positive work, so it is never zero. |
| `MintWorks.AdjustMonotone` | kernel/mint.go:633-644 | The piecewise adjustment is monotone, also where its pieces meet. |
| `MintWorks.AdjustBounds` | kernel/mint.go:633-644 | An adjusted work is between a seventh of the mean and twice the mean. |
| `MintWorks.SharesSum` | kernel/mint.go:646-650 | The shares sum to at most the base and miss it by less than the number of nodes. |
| `MintWorks.ShareMonotone` | common/ration.go:19-37 | A ration of the base by floor division is monotone. |
| `MintWorks.MoreWorkNeverEarnsLess` | kernel/mint.go:557-651 | A node with more raw work never gets a smaller share. |
| `MintWorks.SharesPositive` | kernel/mint.go:557-651 | No share is zero if the base is at least fifteen units a node. |
| `MintWorks.GatherWorks` | kernel/mint.go:592-620 | The pass that writes raw works in place counts the active nodes and finds least, greatest and total. |
| `MintWorks.AdjustWorks` | kernel/mint.go:633-644 | The pass that adjusts in place adjusts every work and sums the results. |
| `MintWorks.ShareOut` | kernel/mint.go:646-650 | The pass that replaces each work by its share of the base. |
| `MintWorks.DistributeKernelMintByWorks` | kernel/mint.go:577-651 | Fails exactly when too few nodes worked; otherwise nothing panics, the shares sum to the base up to rounding, pay by raw work as in `MintWorks.SharesPayByWork`, and more work never earns less. |
| `MintWorks.SharesPayByWork` | kernel/mint.go:633-650 | Any two nodes are paid, up to rounding, in the proportion in which their raw works count: as they are between a seventh of the mean and the mean, with a slope of a sixth beyond, and not above twice or below a seventh of the mean. |
| `MintWorks.MiddlePaidInProportion` | kernel/mint.go:633-650 | Two nodes between a seventh of the mean and the mean are paid in the proportion of their raw works, up to rounding. |
| `MintWorks.ExtremesPaid` | kernel/mint.go:633-650 | From seven times the mean on a node is paid twice what one at the mean is, and up to a seventh of the mean a seventh of it, up to rounding. |
| `MintWorks.SixthCounts` | kernel/mint.go:639-641 | Between the mean and seven times the mean, six more units of raw work count as one. |
| `MintWorks.AverageIs` | kernel/mint.go:592-631 | The mean is that of the works left when one node with the least and one with the greatest are taken out. |
| `MintWorks.DistributeEqually` | kernel/mint.go:569-574 | On the first day all shares are equal and sum to the base up to rounding. |
| `MintWorks.BuildUniversalMint` | kernel/mint.go:167-218 | The outputs, all positive, sum exactly to the mint input, top-up included. |
| `RoundWork.CountersGrow` | storage/badger_work.go:140-180 | Counting new snapshots of one day and one leader keeps the counters equal to a recount. |
| `RoundWork.CountedGrows` | storage/badger_work.go:110-131 | What a write counts is exactly what was not counted before. |
| `RoundWork.WriteSucceedsIff` | storage/badger_work.go:99-182 | In every state of the invariant no offset and no snapshot is missed, and the store panics exactly if some new signed snapshot lacks its leader's signature, has no time or lies on another day than the rest. |
| `RoundWork.WriteCounts` | storage/badger_work.go:132-182 | A write keeps the counters equal to a recount of what has been counted. |
| `RoundWork.ExecKeeps` | kernel/mint.go:42-105 | Every step of the aggregator, of restarts and of growing rounds keeps the invariant. |
| `RoundWork.ExactlyOnce` | kernel/mint.go:42-105 | After every run each lead and sign counter equals a recount from scratch of the distinct snapshots counted. |
| `RoundWork.NoPanicIff` | storage/badger_work.go:99-182 | In every run the aggregator is never ahead of its chain, and its next write succeeds if and only if each new signed snapshot carries the leader's signature and all lie on one day. |
| `RoundWork.LeaderDecides` | storage/badger_work.go:156-158 | For new snapshots of one day the write succeeds if and only if the leader is among the signers of each that is signed. |
| `RoundWork.UnledBlocks` | storage/badger_work.go:99-182 | Once a snapshot is stored that its leader did not sign, then in every continuation of the run it is never counted, the aggregator never gets beyond its round, no later snapshot of the chain is counted, every read of the round contains it and every write of it panics. |
| `RoundWorkProgress.CycleCounts` | kernel/mint.go:42-105 | In every run, one cycle of the aggregator on a round the leader signed throughout counts all its snapshots, and goes on to the next round if this one was closed. |
| `RoundWorkProgress.AllCanBeCounted` | kernel/mint.go:42-105 | After every run, whatever the aggregator is at: if the rounds from its offset on are signed by the leader, each on one day, and none that is closed is empty, a restart and some cycles count every snapshot of the chain. |
| `RoundWorkProgress.ClosedIsPassed` | kernel/mint.go:42-105 | When the head round is closed then, the aggregator gets to the one after it. |
| `RoundWork.UnledExample` | storage/badger_graph.go:150-153 | A run that stores such a snapshot and reads it, so that the next write panics. |
| `RoundWork.CaughtUp` | kernel/mint.go:55-102 | Once every snapshot is aggregated the counters count all of them. |
| `RoundWork.CountSigners` | storage/badger_work.go:141-155 | The loop counts, for every node, the snapshots it signed. |
| `RoundWork.CreditSigners` | storage/badger_work.go:160-173 | Every signer but the leader is credited on the day, nobody else. |
| `RoundWork.SplitFresh` | storage/badger_work.go:110-124 | The loop finds the snapshots not counted yet, and the hashes of all. |
| `RoundWork.OnOneDay` | storage/badger_work.go:142-148 | The loop accepts exactly if all snapshots are of the day. |
| `RoundWork.WorkStore.Write` | storage/badger_work.go:99-182 | The store after a write shows the same counters, offset and kept works as the specified step, and is unchanged where that one panics. |
| `RoundWork.WorkStore.Credit` | storage/badger_work.go:133-180 | Counters move as specified exactly when the new snapshots are regular. |
| `RoundShape.AcceptsIff` | kernel/round.go:200-226 | For a round within the gap, a snapshot is accepted exactly if the round stays within the gap and nothing clashes with it. |
| `RoundShape.ShapeKept` | kernel/round.go:200-226 | Adding an accepted snapshot keeps the shape of the round. |
| `RoundShape.RoundShapeAlways` | kernel/round.go:200-226 | However snapshots arrive, the round spans less than the gap and has no clashing snapshots. |
| `RoundShape.SingleDayIff` | kernel/round.go:200-226 | A round with a snapshot after the day-leap fork lies on one day if and only if all its snapshots are after the fork. |
| `RoundShape.AcceptsExactly` | kernel/round.go:200-226 | A round takes a snapshot if and only if its hash, time and transaction are new, all others are less than three seconds away, and those of 19 February 2021 or later are of the same day. |
| `RoundShape.HashSpelled` | kernel/round.go:228-274 | The round hash starts from chain and number and takes every snapshot hash once, in order of time and hash, all with the newer hash function if and only if some snapshot is of version 2. |
| `RoundShape.AroundTheFork` | kernel/hack.go:10 | Two snapshots around the fork that are accepted in one order and not in the other. |
| `RoundShape.SortForgets` | kernel/round.go:229-238 | Sorting forgets the order of arrival. |
| `RoundShape.HashForgets` | kernel/round.go:228-274 | The round hash does not depend on the order of arrival. |
| `RoundShape.FoldInjective` | kernel/round.go:253-273 | With collision-free hashing, equal round hashes mean the same chain and number and the same snapshot hashes in order. |
| `RoundShape.HighestVersion` | kernel/round.go:246-251 | The loop finds the highest snapshot version. |
| `RoundShape.FoldHashes` | kernel/round.go:253-273 | The loop folds the snapshot hashes and its panics on version and time are not reached. |
| `RoundShape.ComputeRoundHash` | kernel/round.go:228-274 | For a round of the right shape it does not panic and returns the ends of the round and its hash. |
| `RoundShape.StoredRoundHash` | storage/badger_validation.go:127-173 | The copy in the store, with its own sort, scan, seed and fold, returns the ends and the hash of the kernel for the stored snapshots of the round, in whatever order they are read. |
| `RoundShape.SortStored` | storage/badger_validation.go:127-137 | The sort of the stored snapshots orders them by time and hash and keeps all of them. |
| `RoundShape.SortsAgree` | storage/badger_validation.go:127-137 | Without their positions they are in the order in which the kernel sorts its own copy. |
| `RoundShape.HighestStored` | storage/badger_validation.go:145-150 | The loop over the stored snapshots finds the highest version. |
| `RoundShape.FoldStored` | storage/badger_validation.go:152-171 | The loop folds the hashes, and its panics on version and time are not reached. |
| `RoundShape.CacheRound.Gap` | kernel/round.go:169-185 | Sorts in place, keeps all snapshots and returns the ends; the panic on a wide round is not reached. |
| `RoundShape.CacheRound.ValidateSnapshot` | kernel/round.go:200-226 | Decides as specified, keeps the shape, and adds the snapshot only when accepted and asked to. |
| `FinalPool.NoteKeeps` | kernel/chain.go:398-413 | A snapshot is listed once, with at most three distinct peers, and nothing else is lost or added. |
| `FinalPool.NotePeers` | kernel/chain.go:398-413 | The first three peers that send a snapshot are remembered for it, and for no other. |
| `FinalPool.SlotStep` | kernel/chain.go:373-380 | The slot computed from index and offset is the slot of the round, before and after stepping forward. |
| `FinalPool.WriteSlot` | kernel/chain.go:380-414 | Writing a round to its slot changes the list of that round only. |
| `FinalPool.MoveWindow` | kernel/chain.go:326-330 | Stepping forward keeps the lists of all rounds still in the window. |
| `FinalPool.OverwritesExpired` | kernel/chain.go:388-393 | A slot is given to another round only if the round it held has expired, a whole pool earlier. |
| `FinalPool.RetryIff` | kernel/chain.go:359-368 | The check on cache and index asks for a retry exactly when the slot holds a round more than one whole pool behind. |
| `FinalPool.Pool.constructor` | kernel/chain.go:77-104 | An empty pool. |
| `FinalPool.Pool.StepForward` | kernel/chain.go:326-330 | The window moves by one round and no accepted snapshot is touched. |
| `FinalPool.Pool.Append` | kernel/chain.go:356-416 | The pool refines a map from rounds to accepted snapshots: a round in the window gains the snapshot unless full, others change nothing. |
| `FinalPool.DropOld` | kernel/graph.go:184-190 | With increasing starts the rounds dropped as old are the first ones. |
| `FinalPool.ReduceHistory` | kernel/graph.go:178-195 | What is left is the longest recent end of the history of at most ten rounds, never empty. |
| `FinalPool.AssignFinal` | kernel/graph.go:145-176 | The history stays a consecutive run of one to ten rounds that ends at the final round; the same round again changes nothing, a gap is refused. |
| `Base58.AlphabetInverse` | util/base58/alphabet.go:1-49 | Characters and digits correspond one to one. |
| `Base58.DecodeEncode` | util/base58/base58.go:30-142 | Every byte string is the decoding of its encoding, leading zeros included. |
| `Base58.EncodeDecode` | util/base58/base58.go:30-142 | Every alphabet string is the encoding of its decoding. |
| `Base58.ReadChunk` | util/base58/base58.go:50-67 | Up to ten characters are read as one number below the power of 58, within 64 bits, or a foreign character is found. |
| `Base58.DecodeNumber` | util/base58/base58.go:50-74 | Ten characters at a time give the number that one at a time gives. |
| `Base58.LeadingOnes` | util/base58/base58.go:78-83 | Counts the leading zero digits. |
| `Base58.Decode` | util/base58/base58.go:30-89 | Computes the one-digit-at-a-time decoding, empty for a foreign character. |
| `Base58.AppendTen` | util/base58/base58.go:118-124 | Appends exactly ten digits, zeros included. |
| `Base58.AppendRest` | util/base58/base58.go:111-117 | Appends the digits of the last chunk without leading zeros. |
| `Base58.EncodeNumber` | util/base58/base58.go:93-125 | Ten digits at a time give the digits that one at a time gives, reversed. |
| `Base58.AppendZeros` | util/base58/base58.go:127-133 | One character for each leading zero byte. |
| `Base58.ReverseInPlace` | util/base58/base58.go:135-139 | Swapping in place reverses the array. |
| `Base58.Encode` | util/base58/base58.go:92-142 | Computes the one-digit-at-a-time encoding. |
| `Bech32.PolyLinear` | util/bech32/bech32.go:41-115 | The checksum register is linear in its start and in everything fed to it. |
| `Bech32.PiecesLineUp` | util/bech32/bech32.go:101-112 | From an empty register six five-bit values simply line up. |
| `Bech32.ChecksumVerifies` | util/bech32/bech32.go:126-166 | The checksum written after a register makes the register end in the constant of the version. |
| `Bech32.CharsetIsAlphabet` | util/bech32/bech32.go:12-15 | The 32 characters are distinct, printable, lower case and not the separator. |
| `Bech32.ChecksumReads` | util/bech32/bech32.go:126-166 | A written checksum verifies, and to the version it was written for and no other. |
| `Bech32.DecodeEncodeIff` | util/bech32/bech32.go:172-323 | For every data, version and lower-casing, the encoded string decodes to the lower-cased human-readable part, the data and the version if and only if the lower-cased part is non-empty and printable. |
| `Bech32.AsciiPart` | util/bech32/bech32.go:300-323 | Where lower-casing is that of ASCII, the condition is that the part itself is non-empty and printable. |
| `Bech32.KelvinPart` | util/bech32/bech32.go:300-323 | A part of one character that is not printable, the Kelvin sign, lower-cases to `k` and comes back as that. |
| `Bech32.ConvertRoundTrip` | util/bech32/bech32.go:342-414 | Bytes regrouped to five bits with padding and back without it are the same bytes. |
| `Bech32.Feed` | util/bech32/bech32.go:41-115 | One value through the register. |
| `Bech32.FeedAll` | util/bech32/bech32.go:41-115 | The loop over values. |
| `Bech32.Polymod` | util/bech32/bech32.go:41-115 | The register after the human-readable part, the data and the checksum or six zeros. |
| `Bech32.ToBytes` | util/bech32/bech32.go:22-32 | Positions in the alphabet, or nothing if a character is foreign. |
| `Bech32.Encode` | util/bech32/bech32.go:300-323 | Encodes as specified, and fails exactly on a value of 32 or more. |
| `Bech32.CheckCharacters` | util/bech32/bech32.go:179-193 | One pass decides that all characters are printable and not of mixed case. |
| `Bech32.LastSeparator` | util/bech32/bech32.go:201-207 | The last separator. |
| `Bech32.VerifyChecksum` | util/bech32/bech32.go:150-166 | The version whose constant the register ends in, or none. |
| `Bech32.Decode` | util/bech32/bech32.go:172-254 | Decodes as specified. |
| `Bech32.EncodeThenDecode` | util/bech32/bech32.go:172-323 | The two methods in a row give the lower-cased human-readable part, the data and the version back exactly if the lower-cased part is non-empty and printable. |
| `Bech32.ConvertBits` | util/bech32/bech32.go:342-414 | The loop that moves bits as many at a time as both sides allow computes the regrouping of the whole bit string. |
| `Bech32.Regroup` | util/bech32/bech32.go:358-398 | The nested loops give all full groups of the bit string and the bits left over. |
| `Bech32.MoveByte` | util/bech32/bech32.go:362-398 | Moving the bits of one value keeps all bits in order and every group in range. |
| `TxCodec.IntegerBack` | common/decoding.go:449-462 | An amount is read back; for the amount 0 something must follow it. |
| `TxCodec.DepositBack` | common/decoding.go:233-267 | Deposit data, present or absent, is read back. |
| `TxCodec.MintBack` | common/decoding.go:269-292 | Mint data, present or absent, is read back. |
| `TxCodec.InputBack` | common/decoding.go:214-295 | Every input that encodes is read back. |
| `TxCodec.OutputBack` | common/decoding.go:297-372 | Every output that encodes is read back. |
| `TxCodec.StoreUpdates` | common/decoding.go:380-392 | Storing an entry into an ordered list of entries is updating the map the list stands for. |
| `TxCodec.OneListPerMap` | common/encoding.go:212-222 | A signature map has one ordered list of entries. |
| `TxCodec.EntriesAre` | common/encoding.go:212-222 | The entries of a map by increasing index stand for the map, one for each signature. |
| `TxCodec.EntriesBack` | common/decoding.go:374-398 | Every signature map that encodes is read back. |
| `TxCodec.BitsAreSigners` | common/decoding.go:555-567 | The set bits of the mask bytes, in order, are the signers. |
| `TxCodec.SignersBack` | common/decoding.go:542-570 | Signers are read back from the sparse and from the ordinary mask, whichever the encoder chose. |
| `TxCodec.SignaturesBack` | common/decoding.go:178-205 | An aggregated signature behind the 0xFFFF escape, or signature maps, are read back. |
| `TxCodec.ExtraBack` | common/decoding.go:145-176 | References and extra are read back in the form of the version. |
| `TxCodec.RoundTrip` | common/decoding.go:102-212 | Every coherent transaction of version 2 to 4 that encodes decodes to itself. |
| `TxCodec.EncodeInjective` | common/encoding.go:88-145 | No two such transactions share an encoding. |
| `TxStreams.Encoder.WriteInt` | common/encoding.go:249-255 | The two bytes of the integer are appended. |
| `TxStreams.Encoder.WriteInteger` | common/encoding.go:275-279 | Length and minimal big-endian bytes of the amount are appended. |
| `TxStreams.Encoder.EncodeInput` | common/encoding.go:147-181 | The input in front of whatever follows. |
| `TxStreams.Encoder.EncodeOutput` | common/encoding.go:183-210 | The output in front of whatever follows. |
| `TxStreams.Encoder.EncodeSignatures` | common/encoding.go:212-229 | Lists the map, sorts it and writes it: the bytes are the encoding of the map in front of whatever follows. |
| `TxStreams.Encoder.EncodeSigners` | common/encoding.go:326-356 | The mask in the shorter of its two forms. |
| `TxStreams.Encoder.EncodeAggregatedSignature` | common/encoding.go:322-357 | Escape, prefix, signature and mask. |
| `TxStreams.Encoder.EncodeTransaction` | common/encoding.go:88-145 | The buffer is the specified encoding, which decodes to the transaction if it is coherent. |
| `TxStreams.ListSignatures` | common/encoding.go:212-222 | Taken from the map in any order and sorted, the entries are those the encoding of the map is made of. |
| `TxStreams.MarkSigner` | common/encoding.go:350-353 | Flipping the bit of a signer not marked yet marks exactly that signer. |
| `TxStreams.BuildMasks` | common/encoding.go:350-353 | The loop that flips bits in place gives the mask bytes of the signers. |
| `TxStreams.Decoder.ReadInteger` | common/decoding.go:449-462 | Reads what the specification reads. |
| `TxStreams.Decoder.ReadInput` | common/decoding.go:214-295 | Reads what the specification reads and leaves what it leaves, failing where it fails. |
| `TxStreams.Decoder.ReadOutput` | common/decoding.go:297-372 | The same for an output. |
| `TxStreams.Decoder.ReadEntries` | common/decoding.go:374-398 | The same for a signature map; a repeated index fails. |
| `TxStreams.Decoder.ReadSigners` | common/decoding.go:538-570 | The same for the two kinds of mask. |
| `TxStreams.Decoder.ReadSignatures` | common/decoding.go:178-205 | The same for the signatures of a transaction. |
| `TxStreams.Decoder.ReadExtra` | common/decoding.go:145-176 | The same for references and extra. |
| `TxStreams.Decoder.DecodeTransaction` | common/decoding.go:102-212 | The cursor over the buffer computes the specified decoding. |
| `TxStreams.ListBits` | common/decoding.go:560-567 | The two loops list the set bits in increasing order. |
| `TxUnmarshal.DecodedFits` | common/decoding.go:102-212 | What is decoded from at most the maximum size fits the encoder in every part but the signers of an aggregated signature. |
| `TxUnmarshal.EncodesIff` | common/version.go:42-55 | So it encodes, without panic, if and only if those signers fit; its payload always encodes. |
| `TxUnmarshal.PanicsIff` | common/version.go:42-55 | Unmarshalling panics if and only if the input is not too large, decodes, and carries an aggregated signature whose signers do not fit. |
| `TxUnmarshal.AcceptsIff` | common/version.go:42-55 | It accepts an input as a transaction if and only if the input is not too large and is exactly the encoding of that transaction. |
| `TxUnmarshal.PayloadAcceptsNoMore` | common/version.go:42-55 | If the payload encoding of what was decoded equals the input, so does its full encoding: the second comparison accepts nothing more. |
| `TxUnmarshal.OrdinaryFitsIff` | common/decoding.go:555-567 | Signers read from an ordinary mask fit if and only if no bit beyond 65535 is set. |
| `TxUnmarshal.SparseFitsIff` | common/decoding.go:542-553 | Signers read from a sparse mask fit if and only if they are in increasing order. |
| `TxUnmarshal.UnorderedSigners` | common/encoding.go:326-333 | An input with the sparse signers 1 and 0 that decodes and makes the encoder panic. |
| `TxUnmarshal.WideSigners` | common/encoding.go:326-357 | An input whose ordinary mask has a bit beyond 65535 that decodes and makes the encoder panic. |
| `TxUnmarshal.CheckSigners` | common/encoding.go:326-333 | The loop of the encoder over the signers passes exactly if they fit. |
| `TxUnmarshal.UnmarshalVersionedTransaction` | common/version.go:42-55 | The whole of unmarshalling, panic included; what it accepts is coherent and encodes back to the input. |

## Left out

- Hard-coded exceptions for transactions and nodes of the main network (kernel/hack.go, the maps in kernel/election.go, the list of forked ghost keys in storage/badger_utxo.go, the signature named in kernel/graph.go): patches for past events that are no part of the rules.
- BadgerStore.Badger.LockGhostKeys: has no `fork` parameter, because in the code it matters for that list of ghost keys only.
- Versions 0 and 1 of transactions, compression, the encoding of snapshots and rounds: thin wrappers or near copies of what is here.
- Elliptic curves, hash functions and batch verification: verdicts (`Checks`) and symbolic hashes stand for them. The per-kind checks on addresses, node lists, custodians and extra data are the verdict `agreed`; signatures and sizes are the verdict `signed`.
- Commitments, challenges and responses of the collective signature in kernel/cosi.go: the protocol is modelled on values, as the steps "persist", "answer", "reach the threshold" and "finalise"; aggregators, verifiers and message order are not modelled.
- Changes of the node list while one snapshot is being signed: the keys of a network run are fixed.
- Network.NoConflictingQuorums: takes it as given that at most a third of the base are Byzantine. One key beyond the base is allowed where it is harmless; the other bases are `Quorum.OverlapIff`.
- Network.NewCert: a certificate is a set of signers that reaches the threshold; the two tries that find it are `FinalSigners.VerifyFinalization`.
- FinalSigners: snapshots of version 0, whose signatures are only counted, are not modelled, and the verdict of the curve is a parameter.
- Conflicts, retries, iterators and expiry of the key-value database: every commit is one step, and the loop that retries on conflict is not modelled.
- BadgerStore.Badger.LockAndPersistTransaction: one attempt, with nothing in between; the loop that repeats it while the database reports a conflict, and its time limit, are not modelled. With other steps in between, attempts are the steps `OpLock` and `OpWrite` of the runs in `LedgerRuns`, in any number and order.
- BadgerStore.Badger.WriteSnapshotOf: writes outputs and ghost keys. With the entries of node and custodian operations, whose failure undoes the whole write, finalising is modelled on values in `OperationFinality`; an accepted domain is an entry that cannot fail and is left out.
- LedgerFinality.FinalisableIff: outputs and ghost keys only; node and custodian operations are joined in `OperationFinality.FinalisableAllIff`.
- LedgerFinality.PlainIsFinalisable: the same.
- OperationFinality.FinalisableAllIff: payees are not modelled, and the parsed extra is a parameter.
- NetworkProgress.QuorumFinalises: a transaction that mints is asked to find its batch free, because validation accepts a batch that another transaction holds; exactly when it can be locked is `LedgerProgress.PersistsIff`. Steps exist that lead to finality; that messages arrive is not modelled.
- LedgerProgress.AcceptedPersists: the same for mints.
- Network.StepKeeps: a node's answer is one step; the commitments and challenges that lead to it are not modelled.
- RingProtocol: counters do not wrap at 2^64, and `Reset` is not modelled.
- RingBuffers.RingBuffer.Len: for one caller; what it returns while others run is `RingProtocol.LenBetween`.
- NodeStore.CheckRemovePossibility: the node lists it reads are those of the history; how they are cached is `NodeIndex`.
- Election: payees and the lock on node operations are not modelled; in its runs a node's removal is proposed once and not by itself; one identifier stands for a node's signer and network id; guard and write are one step.
- RoundGraph: timestamps of rounds and the checks on them are the verdict `sane`.
- RoundGraph.UpdateKeeps: the update does not ask that the head is empty, which the code does, so more runs are allowed here than there; the same holds for the other members about it.
- RoundGraph.JoinKeeps: the first rounds of a node are modelled on values only.
- MintPool.EmissionCap: mints are the steps of one node's view; that a mint is final is part of the ledger.
- MintPool.PoolSizeUniversal: asks that the schedule still released something, without which the code panics on an amount of zero.
- MintWorks.BuildUniversalMint: addresses, scripts and seeds of the outputs are not modelled. The legacy distribution is the same division with other totals.
- MintWorks.DistributeKernelMintByWorks: that works and spaces of the day before are complete is checked before; the model starts after that check, with a threshold of at least five, which is two thirds of seven nodes rounded up.
- RoundWork: the period of the main network in which early snapshots are skipped, and the listing of counters. The snapshots of a round are all signed or all unsigned: unsigned ones are of genesis, which has rounds of its own, or of version 0, which is not modelled. Works are stored under their time, which no two snapshots of a round share (`RoundShape.RoundShapeAlways`); here they are a set.
- RoundShape: times are natural numbers, so sums do not wrap; the code does not wrap below 2^63.
- FinalPool: appends and steps are sequential; that goroutines hand over to each other is the ring buffer's task. The peers of a snapshot are kept as a list.
- Bech32: lower-casing of the human-readable part is any function whose results hold no upper-case ASCII letter; the register is a list of 30 bits, and the length limit of 90 characters is not modelled.
- Base58: unbounded integers stand for the big-integer library.
- TxCodec: a byte is a natural number; that inputs are bytes is the precondition `Octets` of unmarshalling.
- TxUnmarshal.UnmarshalVersionedTransaction: the comparison is made as in the configuration the code ships with (`Debug` is true).
- The network transport, the RPC server, the command line, configuration, logging and the per-chain checks of domains: they would add easy members only.
- Space accounting of rounds, custodian updates, consensus reloading and caching of transactions: not needed for the properties here.
