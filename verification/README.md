# Verified models of OpenPCC

OpenPCC is a client and a router for private AI requests. Its difficult logic sits in small
stateful components; this project models them in Dafny 4.11 and proves what they promise, for all
inputs, all runs and all interleavings. `dafny verify dfyconfig.toml` checks everything.

## What is modelled

| files | component | main results |
|---|---|---|
| `GossipSender`, `GossipReceiver`, `GossipReassembly`, `Gossip` | splitting messages into bounded chunks and putting them together again | chunks as large as the limit allows; every message arrives whole, at its last missing chunk, exactly as often as all of it was there, under any reordering, repetition, interleaving, loss and clean-up |
| `DelayHeap`, `DelayPool`, `DelayRuns`, `DelaySpace`, `DelayClose`, `DelayLosses` | the delay pool: a heap, a processor, adders and two ways to close | every item accounted for, nothing early, no lost wake-up of the processor in any interleaving; a blocked adder can always still be woken, and is told of room at once exactly if the pool holds one item or has no limit; closing always gets through, and exactly when it can drop an item |
| `Payments`, `PaymentRuns`, `LateCommits` | nonce locker, transactions, exchanges | single spend, conservation of value, exactly when a commit after a rollback spends twice |
| `Currency`, `Nonces` | nine-bit currency values, stochastic rounding, nonce time stamps | exact encoding, fair rounding, acceptance windows, stamps that do not single out their maker |
| `Ring`, `RingDealing`, `RingExamples`, `RouterRing` | the router ring and the dealing out of health checks | history independence if and only if no collision; partition of the nodes, on any ring, if and only if ties stay together and every node goes to a member |
| `SharedOutputs`, `SharedClosers`, `ParallelStep`, `ParallelSlots`, `ParallelOutcomes`, `ParallelReturn`, `ParallelLosses` | pipeline outputs and the parallel step | every output closed once by the last step, every closer called so if and only if it has one name; every input accounted for by what its function did, bounded parallelism with every slot given back, never stuck, exactly when an input can be lost |
| `Wallets`, `WalletRuns`, `WalletResults`, `Client` | payments in wallet and client | close safety, when Close can finish, a payment is counted out exactly once and gives back exactly what it owes |
| `Credentials`, `Cmdline`, `CmdlineGrammar`, `Shuffle` | credential codec, kernel command line parser, Fisher-Yates | canonical encoding, the parser accepts exactly the lines of a grammar and reads them as what they mean, shuffle is a bijection |
| `Bytes`, `Sequences`, `Sorting` | byte encodings, sequences, sorting | |

Code that updates fields or runs loops is modelled by classes and methods, each proved equal to a
function on values; the theorems are about those functions. Concurrent code is a state machine:
`Enabled` says when a step can be taken, `Apply` what it does, `Legal` and `After` are runs. A step
is one critical section, one channel operation or one clock reading, and any order of steps that
can be taken is a run. Each run theorem is for every sequence of steps, so it holds in every
reachable state.

The environment is a parameter everywhere: what random sources draw, when clocks tick, when
contexts are cancelled, what a remote party answers, in which order a Go map is walked.

## Where properties fail, and exactly when

- Room in a bounded delay pool is signalled once per batch, and a woken adder does not pass the
  signal on (delay/pool.go:322-329). Exactly from capacity 2 on there is a run that leaves an adder
  blocked beside free room with the processor asleep (`DelaySpace.RoomIsSignalledIff`). It is not
  left for good (`DelaySpace.BlockedCanBeWoken`).
- Close is said to block until all remaining items have been consumed, and CloseImmediate to return
  them (delay/pool.go:157-171), but an item in the processor's hand is dropped when the close context
  wins the select (delay/pool.go:317-318). Everything went out exactly if that never happened
  (`DelayLosses.AllOutIffNoDrop`). It can still happen exactly as long as the processor is there and
  an item is in the pool or in its hand, or can still be added (`DelayLosses.CanDropIff`), and then
  everything in the pool can be lost (`DelayLosses.CloseCanLoseAll`).
- A gossip message is handed out again exactly if it was whole when a clean-up forgot it and every
  chunk of it comes in again (`GossipReassembly.DeliveredAsOftenAsWhole`).
- An empty gossip message puts at most one chunk on the wire, and the receiver refuses it; one of
  2^32 chunks makes the receiver loop for ever once it is complete (`Gossip.EndToEnd`).
- The ring depends on its history exactly when two virtual positions collide, those of the nil
  router with each other excepted (`Ring.IndependentIffCollisionFree`).
- Nodes are not dealt to the successor of their position: the loop moves one position per node
  (router/ring.go:127). `RingDealing.SuccessorIffOneApart` says exactly when the two rules agree.
- Health checks are a partition of the nodes exactly if nodes at the same position go to the same
  router and all nodes to routers of the ring (`RingDealing.HealthcheckPartition`). A ring of two
  routers on which they do not is in `RingExamples.TiedNodesApart`.
- Outputs are told apart by name, and one closer may be listed under two names
  (work/pipeline.go:206-224). Closers are called once at most, and never while a step that lists
  them still uses the output, exactly if none is (`SharedClosers.ClosersOnceIff`).
- A parallel step whose own context is cancelled can lose an input and report no error, because
  work/pipeline_steps.go:226 looks at `err` where `sendErr` was meant
  (`ParallelStep.CancelledStepCanLoseInput`). Inputs are all accounted for exactly in the runs in
  which no send fails (`ParallelStep.EveryInputOnce`), and an input can still be lost exactly as
  long as an output is ahead (`ParallelLosses.CanLoseIffOutputAhead`).
- A wallet payment answered with an error is never counted out. Close can finish exactly when
  there is none (`WalletRuns.CloseCanFinishIffNoLeak`).
- A payment stays open after its response body was used exactly when the body never ended or was
  closed, or its refund trailer could not be parsed (`Client.BodyCompletesPayment`).
- Nobody compares a refund with the credit it refunds (anonpay/processor.go:126-138,
  router/http_handler.go:184-190). A commit makes value exactly when the refund exceeds what was
  issued under its nonce (`PaymentRuns.CommitConservesIff`, `PaymentRuns.ExcessMakesValue`).
- A rollback leaves the context live. In the router it comes last, and no nonce is spent twice
  (`PaymentRuns.SingleSpend`). A commit after it leads to a second spend exactly if the nonce is
  consumed by then or another thread can still spend it (`LateCommits.LateCommitSpendsTwiceIff`).
- A locked nonce stays locked for ever exactly if it is locked by a transaction whose context was
  cancelled, rolled back or not, or by an exchange that failed to consume
  (`PaymentRuns.LockedForEverIff`), although anonpay/processor.go:37-38 says that a credit can be
  used again after a rollback.
- Blind bytes lose the mark of a special value exactly when it uses its top bit
  (`Currency.BlindBytesRoundTrip`).
- The comment table at anonpay/currency/value.go:149 gives 69 for 69 rounded at factor 1; the code
  gives 72, and the model follows the code (`Currency.SixtyNineRoundsUp`).
- Nonces made before the epoch are stamped with the first full hour not before them and never
  marked, so they can leave finalize stamped too far ahead (`Nonces.MarkedIfTooFarAhead`, `Nonces.ReleasedStampIsNear`).

## Model

| member | source | states |
|---|---|---|
| GossipSender.ParseInvertsEncode | app/gossip/receiver.go:142-163 | a byte string parses to a chunk if and only if it is that chunk's encoding and the payload is not empty |
| GossipSender.HeaderOnlyIsMalformed | app/gossip/receiver.go:143-145 | a header with no payload is refused |
| GossipSender.Layout | app/gossip/broadcaster.go:138-146 | the bytes of a chunk one by one: version 1, id, index with its highest byte first, final mark, payload |
| GossipSender.EncodeInjective | app/gossip/broadcaster.go:138-146 | different chunks have different encodings, with or without a payload |
| GossipSender.TakeNextExtends | app/gossip/broadcaster.go:106-116 | taking a message keeps the invariant, the order of messages and ids, and the wire |
| GossipSender.CutChunkExtends | app/gossip/broadcaster.go:118-136 | cutting a chunk keeps the invariant and adds exactly that chunk to the wire |
| GossipSender.CutChunksExtends | app/gossip/broadcaster.go:72-136 | a call of chunks, for any overhead and limit, keeps messages in order, uses ids in order, and puts on the wire exactly the pieces of the messages it cuts |
| GossipSender.CutChunksInOrder | app/gossip/broadcaster.go:72-116 | a call keeps messages in submission order and uses ids in the order drawn |
| GossipSender.CutChunksWire | app/gossip/broadcaster.go:72-136 | what a call hands out is exactly what joins the wire |
| GossipSender.CutChunksFitLimit | app/gossip/broadcaster.go:76-101 | the chunks of a call with their overhead never exceed its limit |
| GossipSender.CutChunksFillLimit | app/gossip/broadcaster.go:78-101 | if no id fails, a call stops only when no byte more fits or nothing is left to send |
| GossipSender.CutChunksFilled | app/gossip/broadcaster.go:118-133 | pieces are as large as they can be: one that does not end its message fills the limit to the last byte and ends the call |
| GossipSender.Broadcaster.Message | app/gossip/broadcaster.go:64-69 | the message joins the end of the backlog and nothing else changes |
| GossipSender.Broadcaster.NextMessage | app/gossip/broadcaster.go:106-116 | takes the next message under a fresh id, or fails, leaves the backlog and keeps whatever idFunc left in the id |
| GossipSender.Broadcaster.MessageChunk | app/gossip/broadcaster.go:118-146 | cuts the next piece, final if it is the last, and advances the 32-bit index with wrap-around |
| GossipSender.LeadsOn | app/gossip/broadcaster.go:78-101 | one turn of the loop leads on to the same end and the same chunks |
| GossipSender.Broadcaster.NextChunk | app/gossip/broadcaster.go:79-100 | one turn of the loop: which chunk, if any, and the new state |
| GossipSender.Broadcaster.Chunks | app/gossip/broadcaster.go:72-104 | the loop hands out the encodings of the chunks the chunking function cuts, within the limit, and each as large as the limit allows |
| GossipReceiver.IsComplete | app/gossip/receiver.go:103-116 | true if and only if the final index is known and every index up to it is present; does not end if and only if all 2^32 are |
| GossipReceiver.AssembledBytes | app/gossip/receiver.go:118-133 | the pieces in index order, nothing if one is missing, and no end with all 2^32 of them |
| GossipReceiver.ReceiveStores | app/gossip/receiver.go:47-83 | a chunk of an incomplete message is stored under its index, the latest of several, and is the final one exactly if marked with 1; nothing else changes |
| GossipReceiver.Receiver.ReceiveChunk | app/gossip/receiver.go:47-83 | the messages map, with creation times, and the answer are what the receiving function says |
| GossipReceiver.Receiver.Cleanup | app/gossip/receiver.go:85-94 | exactly the messages whose first chunk came in before the limit are deleted |
| GossipReassembly.ParseRawAt | app/gossip/receiver.go:142-163 | every chunk put on the wire parses back to itself, or is refused if it is empty |
| GossipReassembly.CompleteIffAllHere | app/gossip/receiver.go:103-116 | the receiver takes a message for complete if and only if all of it was sent and every chunk of it has arrived, and loops over it for ever if and only if those are 2^32 |
| GossipReassembly.ReceiveOwnMirrors | app/gossip/receiver.go:56-76 | a chunk of a transmission keeps the receiver's picture of it exact |
| GossipReassembly.ReceiveOwnAnswer | app/gossip/receiver.go:64-82 | a chunk of a transmission is answered as promised |
| GossipReassembly.ReceiveOther | app/gossip/receiver.go:56-76 | a chunk of another transmission changes nothing for this one |
| GossipReassembly.CleanupMirrors | app/gossip/receiver.go:85-94 | a clean-up takes a transmission away exactly if its first chunk since it was last forgotten came in too long ago |
| GossipReassembly.InboxMirrors | app/gossip/receiver.go:47-94 | after any arrivals and clean-ups the receiver holds, of every transmission, exactly the pieces that have arrived since it was last forgotten, and since when |
| GossipReassembly.ReceiptAsPromised | app/gossip/receiver.go:64-82 | a chunk is answered with its whole message if and only if it is the last missing one since the message was last forgotten |
| GossipReassembly.DeliveredAsOftenAsWhole | app/gossip/receiver.go:47-94 | a message is handed out exactly as often as all of it has been there: once for every clean-up that forgot it whole, and once more if it is whole now |
| GossipReassembly.ForgottenIsHandedOutAgain | app/gossip/receiver.go:85-94 | a message of one chunk that comes in, is forgotten and comes in again is handed out twice |
| GossipReassembly.NeverForgottenOnce | app/gossip/receiver.go:47-94 | if no clean-up comes too late for a message, everything that ever arrived counts, and none of it was forgotten |
| Gossip.RunKeeps | app/gossip/broadcaster.go:64-136 | over any run the wire is exactly the transmissions, messages leave in submission order and ids are used in order |
| Gossip.SentIsCut | app/gossip/broadcaster.go:118-136 | of a message taken, no piece is empty unless the message is, and a finished one is exactly its pieces |
| Gossip.WireIsTransmissions | app/gossip/broadcaster.go:72-146 | the bytes handed out are the encoded chunks of the transmissions and no others |
| Gossip.ShortMessagesFit | app/gossip/broadcaster.go:133 | a message below 4 GiB never runs out of chunk indices |
| Gossip.EndToEnd | app/gossip/broadcaster.go:72-136 | for every run and every arrival of its chunks in any order, number and interleaving, with clean-ups at any time: messages byte for byte, at the last missing chunk, exactly as often as whole, never in part; empty ones refused, those of 2^32 chunks hanging |
| Gossip.EverythingArrives | app/gossip/receiver.go:47-133 | once nothing is left to send and every chunk has arrived, every non-empty message submitted and never forgotten has been handed out once |
| DelayHeap.RootIsEarliest | delay/pool_heap.go:34-36 | in heap order no item is due before the root |
| DelayHeap.PoolHeap.Swap | delay/pool_heap.go:38-42 | two items change places and every index field stays right |
| DelayHeap.PoolHeap.Append | delay/pool_heap.go:44-52 | the item goes to the end and knows its place |
| DelayHeap.PoolHeap.RemoveLast | delay/pool_heap.go:54-62 | the last item leaves with index -1 |
| DelayHeap.PoolHeap.Up | delay/pool_heap.go:34-42 | sifting up restores the heap order and keeps the contents; the item is at the root if and only if it started there or is due strictly before the old root |
| DelayHeap.PoolHeap.EarlierChild | delay/pool_heap.go:34-36 | the child due first, the left one on a tie |
| DelayHeap.PoolHeap.Down | delay/pool_heap.go:34-42 | sifting down restores the heap order of the first n places and touches no other |
| DelayHeap.PoolHeap.Push | delay/pool.go:135-139 | heap order and index fields are kept, the contents grow by the item, and it is at the root if and only if it is due strictly before all others |
| DelayHeap.PoolHeap.Pop | delay/pool.go:372-390 | an item no other is due before leaves; order, index fields and the other contents are kept |
| DelayPool.Pool.TryAddItem | delay/pool.go:122-150 | refused when closed, held back at capacity, else added, with a token for the processor if it is now the first due |
| DelayPool.Pool.FirstClose | delay/pool.go:190-199 | only the first close goes on |
| DelayPool.Pool.PopReady | delay/pool.go:282-308 | an earliest item leaves if it is due, and otherwise none is due |
| DelayPool.RootEarliest | delay/pool.go:282-308 | the root of the heap is an earliest of the items held |
| DelayRuns.AdderNoLostWakeUp | delay/pool.go:135-147 | adding an item never leaves the processor with an overtaken snapshot and no token |
| DelayRuns.ProcNoLostWakeUp | delay/pool.go:211-330 | no step of the processor does either |
| DelayRuns.CloserKeeps | delay/pool.go:190-209 | no step of closing breaks order, wake-ups or signals |
| DelayRuns.StepKeeps | delay/pool.go:83-370 | every step keeps the whole invariant |
| DelayRuns.RunAccounted | delay/pool.go:122-370 | item by item, every run keeps the account |
| DelayRuns.RunInv | delay/pool.go:83-370 | every step of adders, processor and closer keeps the pool's invariant |
| DelayRuns.NothingLost | delay/pool.go:122-370 | in every run what was accepted equals delivered, flushed, dropped, in the heap and in hand together, as multisets |
| DelayRuns.InTimeAndWithinCapacity | delay/pool.go:277-370 | nothing goes out before it is due but through CloseImmediate, only due items are dropped and only while closing, a positive capacity is never exceeded |
| DelayRuns.OvertakenSnapshotHasToken | delay/pool.go:135-147 | whenever the heap holds something due before the processor's snapshot, a token is waiting |
| DelayRuns.DueItemWakesProcessor | delay/pool.go:231-273 | with a due item in the heap a waiting processor can be woken |
| DelayRuns.ClosedMeansDrained | delay/pool.go:201-209 | when the output is closed the processor is gone and every accepted item went out or was dropped; Close flushes nothing early |
| DelaySpace.RoomIsSignalledIff | delay/pool.go:322-329 | in every run no adder is blocked on an open pool with room and nobody about to signal, if and only if the capacity is at most 1 |
| DelaySpace.UnsignalledBesideItems | delay/pool.go:94-116 | room goes unsignalled only beside items in the heap, so never on an empty pool |
| DelaySpace.OneItemIsSignalled | delay/pool.go:94-116 | with capacity at most 1 no reachable state is like that |
| DelaySpace.LargerPoolGetsStuck | delay/pool.go:322-329 | for every capacity from 2 on, a run that leaves an adder blocked beside free room and the processor asleep until a later item is due |
| DelaySpace.StuckStays | delay/pool.go:94-116 | such a pool does nothing until time passes, somebody new adds, somebody gives up or it is closed |
| DelaySpace.BlockedCanBeWoken | delay/pool.go:211-330 | from every state of every run an adder blocked on an open pool can still be woken |
| DelayClose.EveryRoundDelivers | delay/pool.go:243-330 | in every run the processor starts sending only when something is due, ends no round without having taken something out, and signals room only in a pool with a limit |
| DelayClose.OutInOrder | delay/pool.go:277-304 | items are taken out in the order they are due, as long as nobody adds one |
| DelayClose.CloseCanFinish | delay/pool.go:159-209 | from every state of every run Close and CloseImmediate can get to their end, CloseImmediate without waiting for an item to be due |
| DelayLosses.AllOutIffNoDrop | delay/pool.go:309-319 | when the output is closed everything accepted went out, if and only if the close context never won the select against the receiver |
| DelayLosses.CanDropIff | delay/pool.go:309-319 | from a state of any run an item can still be dropped, if and only if the processor has not left and an item is in the pool or in its hand or can still be added |
| DelayLosses.CloseCanLoseAll | delay/pool.go:309-319 | while closing, as long as the processor has not left, there is a run that drops everything the pool holds |
| Payments.NonceLocker.CheckAndLockNonce | inttest/noop_nonce_locker.go:42-54 | locks a nonce that is neither locked nor consumed, and refuses any other |
| Payments.NonceLocker.ConsumeNonce | inttest/noop_nonce_locker.go:60-67 | the nonce becomes consumed and no other changes |
| Payments.NonceLocker.ReleaseNonce | inttest/noop_nonce_locker.go:69-82 | frees a locked nonce, leaves a consumed one, fails on a free one |
| Payments.Transaction.CommitAll | anonpay/processor.go:101-124 | consumes the nonce once, while the context is live, and finishes the transaction; if consuming fails, releases the nonce and cancels it |
| Payments.Transaction.CommitWithUnspend | anonpay/processor.go:126-138 | a refund of the unspent amount only comes out of a commit that succeeded, its nonce then being consumed |
| Payments.Transaction.RollbackAll | anonpay/processor.go:142-156 | releases the nonce of a live transaction and nothing of a finished or cancelled one |
| Payments.RollbackReports | anonpay/processor.go:142-156 | a rollback after a commit changes nothing and reports no error, of an open transaction it undoes the lock, under a cancelled context it does nothing and reports an error |
| Payments.BeginTransaction | anonpay/processor.go:51-79 | a transaction if and only if the credit is signed and its nonce free, which is then locked |
| Payments.Exchange | anonpay/exchanger.go:24-61 | a signature for the same value if and only if values match, the credit is signed, its nonce free, and signing and consuming work; the nonce is consumed then, stays locked if only consuming failed, and is untouched otherwise |
| Payments.CommitAfterRollbackSpendsTwice | anonpay/processor.go:142-156 | a rollback leaves the context live, so a later commit of a nonce somebody else holds by then succeeds |
| PaymentRuns.RunInv | anonpay/processor.go:51-156 | lock handles stay exclusive, spending is recorded once, payment precedes issue, in every interleaving |
| PaymentRuns.StepExclusive | anonpay/processor.go:51-156 | a held nonce is locked and held once, after every step |
| PaymentRuns.StepSpentOnce | anonpay/processor.go:101-124 | the consumed nonces are the spent ones, each once, after every step |
| PaymentRuns.StepPaidFirst | anonpay/exchanger.go:48-60 | what was handed out was paid for with a consumed nonce, after every step |
| PaymentRuns.ConsumedForEver | inttest/noop_nonce_locker.go:73-79 | a consumed nonce stays consumed in every run |
| PaymentRuns.SingleSpend | router/http_handler.go:250-274 | over every interleaving of transactions and exchanges: at most one live handle per nonce, consumed if and only if spent, never spent twice, nothing issued before its payment is consumed |
| PaymentRuns.LockedIffKept | anonpay/processor.go:51-156 | in every run a nonce is locked if and only if a thread holds it or has abandoned it |
| PaymentRuns.LockedForEverIff | anonpay/processor.go:101-149 | a locked nonce stays locked in every continuation if and only if it is locked by a transaction whose context was cancelled, rolled back or not, or by an exchange that failed to consume |
| PaymentRuns.ReachableLockedForEverIff | anonpay/processor.go:142-149 | so in every state of every run |
| PaymentRuns.LockedForEverIsUnspent | anonpay/processor.go:142-149 | a nonce locked for ever is not spent in any continuation |
| PaymentRuns.CancelledThenRolledBack | anonpay/processor.go:142-149 | a run of one credit, cancelled and then rolled back, that leaves its nonce locked for ever |
| LateCommits.LateCommitSpendsTwiceIff | anonpay/processor.go:142-156 | a commit after the rollback leads to a second spend of the nonce if and only if it is consumed already or another thread can still spend it; otherwise it is the first and only spend |
| LateCommits.LateCommitRun | anonpay/processor.go:142-156 | a run that rolls back, locks again and can then spend the nonce twice |
| LateCommits.NoLateCommitNoDoubleSpend | router/http_handler.go:266-274 | without such commits no nonce is spent twice in any run |
| PaymentRuns.ConsumeShrinks | anonpay/processor.go:116-121 | consuming takes exactly what was issued under the nonce out of circulation, at least the credit's value |
| PaymentRuns.StepConserves | anonpay/processor.go:51-156 | no step makes more value than it mints or over-refunds |
| PaymentRuns.CommitConservesIff | anonpay/processor.go:101-138 | a commit replaces what was issued under its nonce by the refund, exactly, so it conserves value if and only if the refund is not larger |
| PaymentRuns.Conservation | anonpay/processor.go:51-156 | over any run spendable credits and owed refunds and signatures grow in value at most by what is minted and by what refunds exceed their credits |
| PaymentRuns.OnlyMintingMakesValue | anonpay/exchanger.go:28-60 | from an empty ledger, if no refund exceeds its credit, no more value circulates than was minted |
| PaymentRuns.ExcessMakesValue | anonpay/processor.go:126-138 | a refund above its credit leaves more in circulation than was minted |
| PaymentRuns.ExchangePreserves | anonpay/exchanger.go:48-60 | consuming replaces what was issued under the old nonce by a debt of the credit's value exactly, and handing the signature over settles it exactly if and only if the new nonce is unspent or the value zero |
| PaymentRuns.IssueRefundSettles | anonpay/processor.go:126-138 | issuing a refund settles its debt exactly, unless it fails or its nonce is already spent |
| Currency.MaxAmountIsTop | anonpay/currency/value.go:34-38 | the largest amount is five ones followed by thirty zeros |
| Currency.RepresentableAtMostMax | anonpay/currency/value.go:34-38 | no representable amount exceeds the largest |
| Currency.BinadeAccepted | anonpay/currency/value.go:191-218 | five bits followed by zeros encode to exponent and mantissa, and decode to themselves |
| Currency.ExactAcceptsRepresentable | anonpay/currency/value.go:69-78 | Exact accepts exactly the representable amounts, Amount gives them back, and each error has its cause |
| Currency.AmountInvertsExact | anonpay/currency/value.go:191-257 | every canonical value is the encoding of its amount, and exactly special values have none |
| Currency.AmountMonotone | anonpay/currency/value.go:245-256 | larger values are larger amounts |
| Currency.BoundsAreAdjacent | anonpay/currency/value.go:164-173 | no representable amount lies between the two bounds |
| Currency.BoundsAreRepresentable | anonpay/currency/value.go:164-173 | both bounds are representable, the upper unless the lower is the largest amount |
| Currency.Neighbours | anonpay/currency/value.go:102-189 | the two amounts rounding chooses from are the largest representable one not above and the least not below |
| Currency.Weights | anonpay/currency/value.go:182 | the probability of the lower neighbour makes the amount the mean of both |
| Currency.RoundedIsFair | anonpay/currency/value.go:102-189 | the result is a neighbour of the amount, the amount itself if representable, the upper one at factor 1; the neighbours' mean weighted by their probabilities is the amount |
| Currency.SixtyNineRoundsUp | anonpay/currency/value.go:149 | 69 at factor 1 is rounded to 72 |
| Currency.RoundedErrors | anonpay/currency/value.go:103-112 | negative amounts and amounts whose ceiling is too large are refused, and no others |
| Currency.BlindBytesRoundTrip | anonpay/currency/value.go:224-299 | the round trip holds if and only if the value is not special with its top bit set |
| Currency.BlindBytesLayout | anonpay/currency/value.go:224-299 | what the two bytes are, which bytes are refused, and that parsed bytes are written again unless both upper bits are set |
| Nonces.UnexpiredWindow | anonpay/nonce.go:78-88 | a nonce stamped with the full hour T is accepted exactly from T - 93630 seconds to before T + 3630 seconds, and between other bounds, given too, by clocks before the epoch |
| Nonces.FreshNonceIsAccepted | anonpay/nonce.go:177-191 | a verifier whose clock is within 30 seconds accepts a fresh nonce, for every clock |
| Nonces.StampIsFullHour | anonpay/nonce.go:177-191 | the stamp is a full hour, at most an hour from now, for every clock |
| Nonces.RolloverIsFair | anonpay/nonce.go:180-189 | with the part p of the hour gone by, the next hour is stamped exactly for factors above 1 - p, and the mean of the two stamps weighted that way is the time itself; p is a probability exactly from the epoch on and on full hours |
| Nonces.EarlyNonceIsHeldBack | anonpay/blind_signing.go:158-164 | a nonce stamped early is never released in the first 30 seconds of the hour it was made in |
| Nonces.WaitsOutTheCutoff | anonpay/blind_signing.go:158-164 | an early nonce waits exactly until the end of the first 30 seconds of the hour, whenever in them finalize is called, and any other not at all |
| Nonces.MarkedIfTooFarAhead | anonpay/nonce.go:183-189 | exactly the nonces stamped more than 3570 seconds ahead of the clock are marked, if and only if the clock is not before the epoch or the hour to come is no further off |
| Nonces.ReleasedStampIsNear | anonpay/blind_signing.go:158-164 | however finalize is scheduled, it releases no nonce with a stamp more than 3570 seconds ahead, if and only if the nonce was made from the epoch on or its stamp is no further ahead when finalize is called |
| Nonces.UnsignedCredit.Finalize | anonpay/blind_signing.go:142-169 | a credit is handed out at most once and not before its release time |
| Ring.AddKeepsCanonical | router/ring.go:47-69 | without collisions, adding a router to the ring of a router set gives the ring of the larger set |
| Ring.RemoveKeepsCanonical | router/ring.go:71-92 | removing one gives the ring of the smaller set |
| Ring.CanonicalUnique | router/ring.go:47-92 | a router set has one ring |
| Ring.SweepDrops | router/ring.go:80-87 | the sweep drops exactly the router's positions and their owners |
| Ring.EvolveCanonical | router/ring.go:47-92 | without collisions any joins and leaves end with the ring of the routers left |
| Ring.HistoryIndependence | router/ring.go:47-92 | without collisions joins and leaves that end with the same routers end with the same positions and owners |
| Ring.JoinsLeaveNoTrace | router/ring.go:51-54 | joining again changes nothing, and joining and leaving restores the ring |
| Ring.OwnCollisionLingers | router/ring.go:80-87 | a router that collides with itself leaves a position behind |
| Ring.SharedPositionIsLost | router/ring.go:80-87 | a router that shares a position with another takes it along |
| Ring.IndependentIffCollisionFree | router/ring.go:80-87 | the ring over a set of routers is independent of its history if and only if their virtual positions do not collide, those of the nil router with each other excepted |
| RingDealing.HealthcheckPartition | router/ring.go:100-142 | on any ring, whatever order of the nodes each query found, every node is in the answer of exactly one router, if and only if nodes at the same position go to the same router and all nodes to routers of the ring |
| RingDealing.OrdersDealAlike | router/ring.go:108-134 | all orders of the nodes have the same positions, and their k-th nodes go to the same router |
| RingDealing.TiesApartOverlap | router/ring.go:108-134 | tied nodes dealt to different routers give answers that are no partition |
| RingDealing.StrayIsMissed | router/ring.go:132-140 | a node dealt to a router that is not in the ring gives answers that are no partition |
| RingExamples.TiedNodesApart | router/ring.go:125-134 | a ring two joins make on which two nodes at one position go to different routers, with answers that are no partition |
| RingDealing.DistinctPositionsTogether | router/ring.go:108-134 | nodes at distinct positions have no ties |
| RingDealing.CanonicalToMembers | router/ring.go:47-69 | the ring of at least one router, without collisions, sends every node to a router of its own |
| RingDealing.OrderUnique | router/ring.go:108-120 | distinct positions leave one order of the nodes |
| RingDealing.NextSuccessor | router/ring.go:125-134 | if the node before got its successor, the next one does if and only if it is at most one position further |
| RingDealing.IndexIsReach | router/ring.go:125-134 | while no node is past the last position the index of node k is the least of k + 1 and of rank plus k - j over the nodes j up to it |
| RingDealing.IndexPastEnd | router/ring.go:125-134 | from the first node past the last position on every node gets the next index around the ring |
| RingDealing.SuccessorIffOneApart | router/ring.go:125-134 | nodes get the successor of their position exactly as long as they come at most one position apart and none but the last is past the end |
| RingExamples.NotTheSuccessor | router/ring.go:127-129 | the same ring, and a node that does not go to the owner of its successor |
| RouterRing.Router.Add | router/ring.go:47-69 | the hundred-step loop and the sort give the ring with the router added |
| RouterRing.Router.Remove | router/ring.go:71-92 | the sweep gives the ring with the router removed |
| RouterRing.Router.QueryHealthcheckURLs | router/ring.go:100-142 | the result is an answer: the nodes dealt to the router along some order of the nodes by position |
| RouterRing.Router.DealOut | router/ring.go:122-141 | the two-index loop keeps its index in bounds and deals exactly the router's nodes |
| RouterRing.SortedNodes | router/ring.go:108-120 | all nodes, each once, ordered by position |
| SharedOutputs.SharedMap.AddMany | work/pipeline.go:206-224 | fails if and only if an output is known under another closer, else adds one reference to each output listed; on failure some of the others have been added and the refused one has not |
| SharedOutputs.SharedMap.Done | work/pipeline.go:234-258 | takes one reference, closes if and only if it was the last, and fails if and only if the output is unknown or had none |
| SharedOutputs.CheckSteps | work/pipeline.go:111-134 | the first step with a problem is reported with it; if none, every output has a reference for each step that lists it |
| SharedOutputs.TallyCounts | work/pipeline.go:111-134 | the references of an output are the number of steps that list it |
| SharedOutputs.EventKeepsCounted | work/pipeline.go:148-174 | every event keeps an output's counter equal to the steps still referring to it, and the output closed exactly at zero |
| SharedOutputs.RunCounted | work/pipeline.go:148-174 | so does every run |
| SharedOutputs.ClosedOnceByTheLast | work/pipeline.go:148-174 | in every order of endings an output is never closed while a step listing it has not given it up, never twice, and exactly once when all steps have ended |
| SharedOutputs.CounterNeverNegative | work/pipeline.go:240-243 | a step that gives up an output always finds a reference to take |
| SharedClosers.ClosersOnceIff | work/pipeline.go:206-258 | in every run of accepted steps every closer is called once at most, and never while a step listing it has not given up the output, if and only if no closer is listed under two names |
| SharedClosers.OneNameIsProper | work/pipeline.go:234-258 | with one name each, every closer is called like that in every run |
| SharedClosers.TwoNamesCalledTwice | work/pipeline.go:234-258 | a run in which a closer listed under two names is called at least twice |
| SharedClosers.TwoNamesAccepted | work/pipeline.go:206-224 | steps with one closer under two names are accepted |
| SharedClosers.AcceptedIff | work/pipeline.go:111-134 | steps are accepted if and only if all have an id and a function, no two have the same id, and no two list one output with different closers |
| ParallelStep.RunInv | work/pipeline_steps.go:148-240 | slots, endings and losses stay in order in every interleaving of feeder, jobs and collector |
| ParallelStep.RunAccounted | work/pipeline_steps.go:148-240 | every input received is in exactly one place, in every run |
| ParallelStep.AtMostMaxParallel | work/pipeline_steps.go:159-175 | at most max(1, MaxParallel) inputs are ever in progress |
| ParallelSlots.RunExact | work/pipeline_steps.go:158-240 | in every run, while the feeder goes on, the slots taken are those of the inputs in progress, of the feeder about to receive, and of outputs that left after an error |
| ParallelSlots.ClaimsWhileBelowMax | work/pipeline_steps.go:170-176 | a feeder that wants to go on can, if and only if fewer than max(1, MaxParallel) inputs are in progress, counting as such the slots kept after an error |
| ParallelReturn.CanReturn | work/pipeline_steps.go:158-242 | from every state of every run the step can return without being cancelled |
| ParallelStep.LostByFailedSends | work/pipeline_steps.go:224-230 | the outputs lost in a run are as many as its failing sends |
| ParallelStep.EveryInputOnce | work/pipeline_steps.go:204-239 | when the step returns every input went out or came back once if and only if no step of the run was a failing send, and sends fail only when the step's context is cancelled |
| ParallelOutcomes.OutcomesDecide | work/pipeline_steps.go:186-242 | on return exactly the inputs the function made an output of have gone out or were lost in a send, all others came back, and there is an error if and only if a job failed or was refused or the step found itself cancelled |
| ParallelStep.CancelledStepCanLoseInput | work/pipeline_steps.go:224-230 | a run in which a cancelled step returns no error and one input is neither sent nor returned |
| ParallelLosses.CanLoseIffOutputAhead | work/pipeline_steps.go:148-240 | from a state of a run an input can still be lost if and only if an output is being sent, waiting, being made, or can still be asked for |
| Wallets.BeginPayment | anonpay/wallet/wallet.go:236-265 | a payment if and only if the wallet is open and the request is credited; what is counted and requested in every other case |
| Wallets.Payment.Complete | anonpay/wallet/payment.go:94-117 | one payment less is counted, and a result sent if there is something to return |
| Wallets.Payment.Success | anonpay/wallet/payment.go:125-133 | the first completion sends the unspent credit, later calls do nothing |
| Wallets.Payment.Cancel | anonpay/wallet/payment.go:135-143 | the first completion returns the whole credit, later calls do nothing |
| Wallets.Payment.WaitForDanglingResponse | anonpay/wallet/payment.go:80-92 | a credit nobody waits for any more is given back and counted out; an error response changes nothing |
| WalletRuns.CloseIsSafe | anonpay/wallet/wallet.go:236-293 | in every interleaving the counter is the number of unfinished payments, each sends at most one result, and no channel is used after it was closed |
| WalletResults.GivesBackWhatIsOwed | anonpay/wallet/payment.go:41-143 | in every run a payment that is over has given back exactly what the steps taken for it tell: the whole credit if its caller had gone or cancelled, what was not spent on success, nothing if no result could be made; and it is over only if answered with a credit or withdrawn before anybody took its request |
| WalletRuns.NoPaymentAfterClose | anonpay/wallet/wallet.go:236-243 | once Close has been called no payment begins |
| WalletRuns.StepInv | anonpay/wallet/wallet.go:236-293 | every step keeps the counter and the single result of each payment |
| WalletRuns.FinishOne | anonpay/wallet/payment.go:41-143 | a payment not answered with an error can be brought to its end without touching another |
| WalletRuns.CloseNow | anonpay/wallet/wallet.go:268-293 | steps that let Close through, when there is no leak |
| WalletRuns.LeakBlocksClose | anonpay/wallet/payment.go:57-60 | after an error response Close never closes the channels |
| WalletRuns.CloseCanFinishIffNoLeak | anonpay/wallet/wallet.go:268-293 | from any state of any run Close can still get through if and only if no payment was answered with an error |
| Client.BodyCompletesPayment | client.go:833-912 | any pattern of reads and closes completes the payment if and only if the body ended or was closed with a missing or parseable trailer, and sends exactly that refund |
| Client.RefundReader.Refund | client.go:879-912 | the trailer is looked at once, and the wallet's counter goes down exactly when the payment is completed |
| Client.RefundReader.Read | client.go:833-844 | only a read that meets the end refunds |
| Client.RefundReader.Close | client.go:846-877 | the first close refunds, later ones do nothing |
| Client.RefundReader.Use | client.go:833-912 | any pattern of reads and closes does what the reader's definition says, and counts the payment out when it completes it |
| Client.RequestResources | client.go:940-1010 | a payment obtained although the nodes were not is cancelled and its credit given back |
| Client.DoRouterRequest | client.go:696-821 | which outcomes give a body, and how an error leaves the payment |
| Client.RoundTrip | client.go:600-664 | on every error the payment has been counted out exactly once and the wallet given its refund or whole credit; on success only the body's own reads have happened to it |
| Client.RoundTripAndUse | client.go:833-912 | after a success and any use of the body the payment is counted out exactly once unless the body never ended or the trailer was not parseable |
| Credentials.RoundTrip | auth/credentialing/credentials.go:73-131 | lists of strings of 1 to 2^32 - 1 bytes from the blank to the tilde encode, no others do, and decoding gives the same strings in ascending order |
| Credentials.Canonical | auth/credentialing/credentials.go:116-160 | a byte string decodes if and only if it is an encoding, and it is that of what it decodes to |
| Credentials.InjectiveOnMultisets | auth/credentialing/credentials.go:73-86 | two lists encode alike if and only if they hold the same strings as often |
| Credentials.LeqIsAscending | auth/credentialing/credentials.go:77 | the order is that of sort.Strings: a prefix comes first, else the smaller byte where two strings first differ |
| Credentials.LeqIsOrder | auth/credentialing/credentials.go:77 | it is a total order |
| Credentials.DecodeEncoded | auth/credentialing/credentials.go:88-160 | a string encoded in front of anything decodes to itself and the rest |
| Credentials.StringLayout | auth/credentialing/credentials.go:88-116 | a string is written behind its length in four bytes, the lowest first |
| Credentials.ListLayout | auth/credentialing/credentials.go:73-86 | the strings are written one behind the other with nothing before, between or after them |
| Credentials.DecodesAscending | auth/credentialing/credentials.go:118-132 | what decodes is in ascending order, and strings out of that order are refused |
| Credentials.EncodeDecoded | auth/credentialing/credentials.go:133-160 | what a string was decoded from is its encoding and the rest |
| Credentials.Encode | auth/credentialing/credentials.go:73-114 | leaves the caller's list in ascending order, the same strings as often, and writes the encoding of that |
| Credentials.Decode | auth/credentialing/credentials.go:116-160 | the consuming loop and the order check decode as the function says |
| Cmdline.Parse | cmdline/parser.go:27-112 | the loop computes what the character-by-character definition says, errors included |
| Cmdline.RunPlain | cmdline/parser.go:89-94 | outside quotes a value is read as it stands, equals signs included |
| Cmdline.RunChars | cmdline/parser.go:42-64 | between quotes every character is read as itself, escaped or not |
| Cmdline.RunSegments | cmdline/parser.go:42-94 | plain and quoted segments in any mixture are read as their values joined |
| Cmdline.RunItem | cmdline/parser.go:40-96 | one item is read as its key and the values of its segments, joined |
| Cmdline.RunItems | cmdline/parser.go:40-112 | a sequence of items is read as what it means |
| Cmdline.ParseInvertsWriting | cmdline/parser.go:27-112 | flags and pairs with clean keys and any values, plain, quoted and escaped in any mixture, with any runs of blanks between and any Unicode spaces around them, parse to exactly what the trimmed line means, the last of equal keys counting, or to an error if a first key is trimmed away |
| Cmdline.NothingTrimmed | cmdline/parser.go:38 | unless the first key starts or the last item ends with a space nothing is trimmed, so the items themselves are read back |
| CmdlineGrammar.AcceptedIffWritten | cmdline/parser.go:27-112 | a line parses to m if and only if it is written as flags and pairs that mean m once the line is trimmed |
| CmdlineGrammar.RefusedIff | cmdline/parser.go:40-103 | a text is refused with an error if and only if it starts with items and part of one more that cannot be followed by the next character, or by the end, for the reason the error names |
| CmdlineGrammar.RunPrefix | cmdline/parser.go:40-96 | the start of a line is read as what it is |
| CmdlineGrammar.Reads | cmdline/parser.go:40-96 | every text is the start of a line up to where the parser stops |
| CmdlineGrammar.ParsedKeysAreClean | cmdline/parser.go:55-95 | every key of an accepted line is non-empty and free of blanks, tabs, quotes, backslashes and equals signs |
| CmdlineGrammar.WrittenAgain | cmdline/parser.go:27-112 | what an accepted line means can be written as quoted pairs that trimming leaves alone and that parse to the same map, however they are spaced and escaped |
| Shuffle.ShuffleIsBijection | cached_node_finder.go:167-185 | every draw gives an order of the nodes and no two draws the same |
| Shuffle.EveryOrderIsDrawn | cached_node_finder.go:167-185 | every order of the nodes has a draw |
| Shuffle.ShufflePermutes | cached_node_finder.go:167-185 | a shuffle keeps the nodes |
| Shuffle.ShuffleInjective | cached_node_finder.go:167-185 | draws that give the same order are the same |
| Shuffle.ShuffleOnto | cached_node_finder.go:167-185 | a draw for every order |
| Shuffle.SettleShuffles | cached_node_finder.go:169-183 | the swaps in place, from the last place down, give the shuffle |
| Shuffle.CryptoShuffle | cached_node_finder.go:167-185 | the loop shuffles in place as drawn, and fails if and only if the random source does |
| Shuffle.ShuffleNodes | cached_node_finder.go:152-164 | the shuffled nodes are a fresh copy and the cached ones stay as they are |

## Left out

- Gossip.EndToEnd: takes message ids as distinct and at most 2^32 chunks per message; with more,
  chunk indices repeat. After a call that hangs no further event happens, which is not enforced.
- DelayRuns.NothingLost: has no second close call; it returns at once and changes nothing.
- PaymentRuns.SingleSpend: treats signatures as ideal; a locker whose locks expire or whose Release
  fails is not modelled.
- ParallelStep.EveryInputOnce: takes Output and RemainingInput as set; a send on the results channel
  never blocks and results may be collected in any order, which only adds runs.
- Nonces.FreshNonceIsAccepted: takes the random factor of a clock before the epoch as at most 1, as do
  the other lemmas about single stamps.
- Currency.RoundedIsFair: floating point rounding error is not modelled, amounts are reals.
- Shuffle.CryptoShuffle: the two loops of the source differ only in the range of the index and are one here.
- GossipReceiver.Receiver.ReceiveChunk: the capacity hint for the buffer of the assembled bytes is not modelled.
- ParallelReturn.CanReturn: says that there is a run to the end, in which jobs end and outputs are taken;
  fair scheduling is not modelled.
- DelayClose.CloseCanFinish: likewise, somebody takes what is sent.
- Cmdline.Parse: errors carry their kind and not the byte position; strings are sequences of
  Unicode characters, so invalid UTF-8 is not modelled.
- Client.RoundTrip: failures before a payment is requested are not modelled; they touch no payment.
- CRC32 in the ring is an arbitrary function.
- The serial steps, pipeline contexts and error joining of the work package are not modelled.
- Worker scaling of work/pool.go is not modelled: the pool runs every accepted job once.
- HTTP handlers, proxies, OHTTP, HPKE, blind RSA, attestation, TPM, transparency and the C API:
  calls into libraries; only the order of payment steps they cause is modelled.
- Protobuf and base64 marshalling, configuration, telemetry, caches and their expiry are not
  modelled.
