# Verification of the trading pipeline

This project models the shared-memory ring that joins the feedhandler and the trading engine, the
sharded engine between its two rings, and two of the tools around them, and proves what they promise.

## The parts

| files | what they hold |
|---|---|
| `BoundedQueue` | the bounded FIFO queue a ring is meant to be, and what that means for a client |
| `RingProtocol`, `RingSafety` | the ring as two threads of single memory steps under release/acquire, and the invariant every step keeps |
| `RingTheorems`, `RingCalls`, `RingProgress` | races, delivery, linearizability; what each call was given and answers; wait-freedom |
| `RingTakeover`, `RingRace` | replacing a dead process, and what the one bad moment for it costs |
| `RingHandles` | the ring, its handles and the mapped bus as objects updated in place |
| `Strategy`, `MovingAverage` | the EMA strategy, its in-place engine, and what its average and orders mean |
| `Pipeline`, `PipelineSafety`, `PipelineTheorems` | dispatcher, channels, workers and both ring ends as a state machine; conservation, equivalence with the inline engine, ids, cooldown |
| `PipelineLoop` | the dispatcher's turns, the stop flag, the counters |
| `Shutdown`, `Deadlock` | when leaving the dispatcher loop ends, and when it cannot |
| `Latency` | the histogram against the sorted list of its samples |
| `CpuText`, `CpuList`, `CpuListTheorems` | the CPU list parser and printer |
| `CpuGrammar`, `CpuShortest` | what the parser accepts, character by character, and why no text is shorter than the printed one |
| `AffinityMask`, `AffinityLists` | the IRQ affinity mask, the kernel's reading of it, and what the script's list reader accepts |
| `Arithmetic`, `Basics` | products, quotients, remainders; 64-bit words and optional values |

**Memory model of the ring.** Every atomic location keeps all the values ever stored in it, each with
the view (a pair of clocks) of the storing thread. A load may return *any* of them, with no coherence
requirement at all, which allows every execution of release/acquire code in which each location has one
writer. An acquire load joins the stamp's view. A payload byte remembers when it was last written and
read; an access not ordered after a conflicting one is a race. Bytes are copied one at a time in any
order. Theorems about `Reachable` rings and about `Run` therefore hold for all stale loads; `AllLatest`
marks the runs whose loads all return the newest value.

**The engine.** Every thread moves by single steps in any order. The two rings are bounded FIFO queues
that may refuse at any time, as a ring does whose loads are stale; `PipelineTheorems.RingsAreQueues` ties
them to the queue of the ring proofs. A worker's load of the stop flag is relaxed, so a worker may
go on taking ticks after stop is raised; the dispatcher's is taken to return the current value. Channels are bounded FIFO
queues, disconnection is reported by the sender before fullness, and buffered items are delivered after
the senders are gone. A timed-out receive is a step that changes nothing. The clock is an input to every
processed tick.

Two findings. A producer that dies between its `seq` and `head` stores leaves a ring its successor
breaks: `RingTakeover` and `RingRace` say exactly how. Shutdown can deadlock, because workers block on an
order channel that the dispatcher no longer drains while it joins them. However the loop was left,
`Shutdown.ShutdownMayBlock` says exactly when some run of the shutdown blocks, `ShutdownMustFinish` when
none does, and `ShutdownMayFinish` when at least one finishes; raising stop can save a shutdown only if
the orders already made fit the order channel. With stop never raised the interleaving does not matter,
and `ShutdownExact` gives the outcome. `SmallBacklogFinishes` is a bound that always suffices and
`Deadlock` a run that hangs, reachable with the parameters the engine ships with. The comment at
`crates/trading-engine/src/main.rs:418` speaks of draining what the workers emitted before their
shutdown; the code gets there only if they could finish.

## Model

| member | source | states |
|---|---|---|
| BoundedQueue.FirstInFirstOut | crates/shmbus/src/ring.rs:1-22 | for every sequence of accepted operations, what went in after what was there is what came out before what is left, and the size never exceeds the capacity |
| BoundedQueue.AnswersAreExact | crates/shmbus/src/ring.rs:89-98 | in an exact run a refusal as full comes at capacity and one as empty at none; in any run an item goes in only below capacity |
| RingSafety.StepKeeps | crates/shmbus/src/ring.rs:90-160 | every single memory step of either side, with any load, keeps the ring invariant |
| RingTheorems.NoDataRace | crates/shmbus/src/ring.rs:102-115 | in every reachable state of every interleaving no byte copy conflicts with an access it does not happen after |
| RingTheorems.CopiesAreApart | crates/shmbus/src/ring.rs:103-110 | while both sides copy they copy different slots: the producer owns its slot until it stores seq |
| RingTheorems.ExactDelivery | crates/shmbus/src/ring.rs:137-160 | payloads are handed over whole, in order and without gaps, at most the capacity is outstanding, and repeats are no more than consumer replacements |
| RingTheorems.SlotLaps | crates/shmbus/src/ring.rs:19-22 | a slot shows the newest message mapped to it, so the awaited number is there exactly when the message is published, and then its payload is intact |
| RingTheorems.StaleStepRefines | crates/shmbus/src/ring.rs:96-98 | whatever value a load returns, a successful publish or consume is one of the bounded queue; only refusals may be spurious |
| RingTheorems.LatestStepRefines | crates/shmbus/src/ring.rs:143-158 | with current loads false means exactly full and None exactly empty, at the load that decides it |
| RingTheorems.Linearizable | crates/shmbus/src/ring.rs:90-160 | the events of every run from a fresh ring, whatever its loads return, are accepted by the bounded queue, and what was published is what was consumed followed by what is unread; refusals are exact if all loads are current |
| RingCalls.PublishesItsArgument | crates/shmbus/src/ring.rs:90-115 | in every run from a fresh ring the messages published are, in order, the bytes of the last call before each seq store, padded with zeros |
| RingCalls.ConsumesTheArguments | crates/shmbus/src/ring.rs:139-160 | what consumers take are the first of those arguments, in order |
| RingCalls.CallsAnswerTheirEvents | crates/shmbus/src/ring.rs:97-98 | a load sends its call home exactly when its event is the refusal, and otherwise a call ends exactly with its enqueue or dequeue or by replacement |
| RingCalls.LoadsDecide | crates/shmbus/src/ring.rs:96-98 | any entry of a location's history may be loaded; a publish is refused exactly when the tail it read is a lap behind, a consume exactly when it read an old number or nothing is unread |
| RingCalls.EveryCallIsAnswered | crates/shmbus/src/ring.rs:89-158 | in every run each call gets one answer, unless it is still open or its process was replaced |
| RingCalls.LoadsTeachTheirStamp | crates/shmbus/src/ring.rs:145 | an acquire load gives exactly the knowledge of the store it read, and nothing else gives any |
| RingCalls.OnlyReleasesTeach | crates/shmbus/src/ring.rs:113-115 | in every reachable state all that one side knows of the other was the knowledge of some store made by it |
| RingCalls.HeadIsReleased | crates/shmbus/src/ring.rs:115 | whoever acquires a head value, however old, knows of the publish of the last message it counts |
| RingTheorems.PendingIsClose | crates/shmbus/src/ring.rs:162-167 | pending never underflows nor exceeds the unread count or the capacity; at the latest head it is short by one exactly between the two stores of a publish whose message is unread |
| RingProgress.CallsAreBounded | crates/shmbus/src/lib.rs:7-8 | wait-free: whatever the other side does, a call ends after at most 83 steps of its own |
| RingProgress.OpenCallCanMove | crates/shmbus/src/lib.rs:7-8 | an open call always has an own step it can take |
| RingTakeover.ProducerTakeoverExact | crates/shmbus/src/ring.rs:84-87 | a new producer preserves the ring exactly when its predecessor did not die between the seq and the head store |
| RingTakeover.ConsumerTakeoverSafe | crates/shmbus/src/ring.rs:132-135 | a consumer may be replaced at any step; the next one starts at the oldest unreleased message and the queue is unchanged |
| RingTakeover.TakeoverWedges | crates/shmbus/src/ring.rs:113-115 | in that window, with the message already taken, the successor starts one behind the reader |
| RingTakeover.WedgedForever | crates/shmbus/src/ring.rs:96-99 | from there every publish that loads the current tail is refused as full for good, by the wrapped difference, although the ring is empty |
| RingTakeover.TakeoverInWindow | crates/shmbus/src/ring.rs:96-100 | the successor's first publish is refused exactly when the message was taken, and otherwise is let into that unread message's slot |
| RingTakeover.WedgedLoadExactly | crates/shmbus/src/ring.rs:96-99 | in that state a tail load, however stale, is refused exactly when it is the latest or more than a lap behind |
| RingRace.TakeoverCanRace | crates/shmbus/src/ring.rs:102-110 | with any message unread in that window, and wherever the consumer stands, a run exists in which the successor writes a byte the consumer has read and not released |
| RingHandles.MaskedIndex | crates/shmbus/src/ring.rs:26-29 | masking a cursor with the capacity less one is its remainder, for the real capacity |
| RingHandles.SpscRing.InitInPlace | crates/shmbus/src/ring.rs:59-65 | a reset ring is valid and empty whatever the slots held |
| RingHandles.RingProducer.TryPublish | crates/shmbus/src/ring.rs:90-117 | undisturbed, it appends the bytes padded with zeros or refuses exactly when full |
| RingHandles.RingConsumer.TryConsume | crates/shmbus/src/ring.rs:139-160 | undisturbed, it takes the oldest payload into the buffer and touches nothing else of it, or refuses exactly when empty |
| RingHandles.RingConsumer.Pending | crates/shmbus/src/ring.rs:163-167 | undisturbed, the unread count |
| RingHandles.RingProducer.constructor | crates/shmbus/src/ring.rs:84-87 | a handle made on a valid ring is in step with it |
| RingHandles.ShmBus.OpenOrCreate | crates/shmbus/src/shm.rs:46-91 | a new or foreign file becomes two empty rings; otherwise nothing is written and the version and ready flag decide the outcome, so re-attaching keeps all unread messages |
| Strategy.Engine.Step | crates/trading-engine/src/main.rs:524-563 | the in-place step is the step of the book the theorems speak of |
| Strategy.SymbolsAreIndependent | crates/trading-engine/src/main.rs:533-552 | a symbol's state and orders depend on its own ticks only, whatever is interleaved with them |
| Strategy.IdsCountUp | crates/trading-engine/src/main.rs:551-554 | ids are consecutive from the first, one per order |
| Strategy.SymbolRunSpaced | crates/trading-engine/src/main.rs:546-552 | with a clock that does not go back, the i-th and j-th orders of a symbol are at least (j - i) cooldowns apart |
| Strategy.WindowBound | crates/trading-engine/src/main.rs:46-48 | a closed window of length L holds at most 1 + L / cooldown such orders |
| MovingAverage.MidIsMiddle | crates/trading-engine/src/main.rs:533 | the mid stands as far above the bid as below the ask, in millionths, and ignores which is which |
| MovingAverage.AverageWithinQuotes | crates/trading-engine/src/main.rs:533-540 | the stored average stays within all bounds on the bids and asks seen |
| MovingAverage.FirstTickIsQuiet | crates/trading-engine/src/main.rs:535-539 | a symbol's first tick sets its average and makes no order |
| MovingAverage.RunHoldsEma | crates/trading-engine/src/main.rs:533-540 | the stored average is the average of all mids seen |
| MovingAverage.EmaIsWeighted | crates/trading-engine/src/main.rs:540 | the average is the sum of all mids with nonnegative weights that add up to one |
| MovingAverage.EmaInRange | crates/trading-engine/src/main.rs:540 | it never leaves the range of the mids |
| MovingAverage.GapShrinks | crates/trading-engine/src/main.rs:540 | under a constant mid the gap is multiplied by (1 - alpha) to the number of ticks |
| MovingAverage.OrderExactlyWhen | crates/trading-engine/src/main.rs:541-548 | at any prices and clock readings, an order goes out exactly when the mid is the threshold away from the average including it and the cooldown since the last order has passed in 64-bit arithmetic |
| MovingAverage.OrderSays | crates/trading-engine/src/main.rs:549-561 | at any prices, it sells at the bid exactly when the mid stands beyond that average, away from zero, and else buys at the ask; time, symbol and quantity are those asked for |
| MovingAverage.OrdersFadeTheMove | crates/trading-engine/src/main.rs:549-561 | a symbol is sold at the bid exactly when its mid stands above the average of all earlier ones, and else bought at the ask |
| MovingAverage.QuietWhileHeld | crates/trading-engine/src/main.rs:543-545 | once under the threshold no order follows while the mid holds |
| PipelineSafety.StepKeeps | crates/trading-engine/src/main.rs:360-498 | every step of every thread keeps phases, conservation, sharding and order |
| PipelineTheorems.RingsAreQueues | crates/feedhandler/src/main.rs:254-271 | in every run, refusals spurious or not, both rings behave as the bounded queue: what was published is what was polled or seen, in order, followed by what is still there |
| PipelineTheorems.Conservation | crates/trading-engine/src/main.rs:369-397 | every published tick is in the ring, in hand, queued, processed, dropped or the one refused; every generated order is in hand, in the channel, dropped, in the ring or seen |
| PipelineTheorems.EndOfRun | crates/trading-engine/src/main.rs:412-426 | at the end worker orders add up to sent plus dropped; with stop never set worker ticks add up to seen less dropped and all queues are empty |
| PipelineLoop.TurnDrains | crates/trading-engine/src/main.rs:386-397 | between two visits of the dispatcher to its loop head, with a tick or without, the order channel is found empty |
| PipelineLoop.OrdersSettledEachTurn | crates/trading-engine/src/main.rs:386-397 | every order in the channel at one visit is published or counted as dropped by the next |
| PipelineLoop.RoutedExactly | crates/trading-engine/src/main.rs:377-383 | a polled tick goes last into its worker's channel, is counted as dropped exactly when that is full, and ends the loop exactly when the worker is gone |
| PipelineLoop.StopEndsPolling | crates/trading-engine/src/main.rs:360 | once stop is raised the dispatcher polls at most one more tick |
| PipelineLoop.CountersCount | crates/feedhandler/src/main.rs:240-267 | published, dropped and bad ticks, seen orders, polled ticks, sent and dropped orders each count how often the thing happened |
| PipelineTheorems.RunInline | crates/trading-engine/src/main.rs:252-295 | the inline loop is the strategy run over the polled ticks; the orders made while the ring had room are published in order and exactly the others are counted as dropped |
| PipelineTheorems.PlacedSplits | crates/trading-engine/src/main.rs:279-288 | published and dropped orders together are the orders of the strategy run |
| PipelineTheorems.ShardSeesPrefix | crates/trading-engine/src/main.rs:474-496 | at any moment a symbol's state and orders are those of the first ticks of its worker's share, in acceptance order |
| PipelineTheorems.ShardedMatchesInline | crates/trading-engine/src/main.rs:377-383 | whenever the queues are empty, one inline run over the accepted ticks in order and with the same clock readings gives every symbol the same state and orders, for any number of workers and any interleaving |
| PipelineTheorems.OneWorkerPerSymbol | crates/trading-engine/src/main.rs:377 | no other worker ever orders for the symbol |
| PipelineTheorems.EngineCooldown | crates/trading-engine/src/main.rs:546-552 | the cooldown and the window bound hold across the whole engine |
| PipelineTheorems.RangesMeet | crates/trading-engine/src/main.rs:476 | two workers' id ranges meet exactly when the lower has outrun its distance in steps of 2^32 and the upper has started |
| PipelineTheorems.IdsAreDistinct | crates/trading-engine/src/main.rs:476 | with at most 2^32 orders a worker no two orders of a run share an id |
| PipelineTheorems.StreamIsOrdered | crates/trading-engine/src/main.rs:387-396 | through channel, ring and feedhandler each worker's ids increase, drops or not, and all differ |
| Shutdown.ShutdownIsBounded | crates/trading-engine/src/main.rs:412-426 | after the loop the engine's threads take no more steps than a measure of the queues allows |
| Shutdown.StuckExactly | crates/trading-engine/src/main.rs:413-417 | shutdown rests only when done or with every live worker blocked on a full order channel under a join |
| Shutdown.SmallBacklogFinishes | crates/trading-engine/src/main.rs:325 | if queued ticks, ticks in hand and queued or blocked orders fit the order channel, shutdown never blocks, even if stop is raised meanwhile |
| Shutdown.ShutdownMayBlock | crates/trading-engine/src/main.rs:412-426 | however the loop was left and whether or not stop is or becomes raised, some run blocks exactly when for some clock readings the orders still due do not fit the order channel |
| Shutdown.ShutdownMustFinish | crates/trading-engine/src/main.rs:412-426 | every run that comes to rest is done exactly when the orders due fit whatever the clock shows |
| Shutdown.ShutdownMayFinish | crates/trading-engine/src/main.rs:477-495 | some run finishes exactly when the orders queued or in hand at loop exit fit the order channel |
| Shutdown.ShutdownExact | crates/trading-engine/src/main.rs:361-364 | if stop is never raised (a deadline exit) the interleaving does not matter: at rest the shutdown is done exactly when the orders still due fit the order channel, and deadlocked exactly otherwise |
| Shutdown.DemandWithinBacklog | crates/trading-engine/src/main.rs:486-488 | each tick makes at most one order, so the backlog bounds the orders due |
| Deadlock.DeadlockIsReachable | crates/trading-engine/src/main.rs:325-331 | with an order channel no larger than the tick channels, a threshold of at most 10000 basis points, 0 <= alpha < 1 and any cooldown, which covers the defaults, a reachable state exists from which no run ever ends |
| Latency.LatencyHistogram.Record | crates/shmbus/src/latency.rs:58-74 | the buckets, extremes, sum and count are those of all recorded samples |
| Latency.LatencyHistogram.QuantileNs | crates/shmbus/src/latency.rs:86-100 | the cumulative loop finds the quantile and the fallback is never reached |
| Latency.QuantileInSorted | crates/shmbus/src/latency.rs:84-96 | the result bounds the bucket of the sample whose rank in the sorted list is the quantile's ceiling, at least the first: that sample is at most the result and above every smaller bound |
| Latency.BoundsAreRound | crates/shmbus/src/latency.rs:8-30 | the bounds are 5, 10 and 20 times the powers of ten up from 100, and the largest word |
| Latency.QuantileIsClose | crates/shmbus/src/latency.rs:84-96 | from half a microsecond to a second the result is less than two and a half times the ranked sample; below it is 500 |
| Latency.RankIsCeiling | crates/shmbus/src/latency.rs:90-91 | the rank is the least number not below count times the quantile and lies in the list |
| Latency.LatencyHistogram.Summarise | crates/shmbus/src/latency.rs:102-117 | extremes are samples, the mean lies between them, and p50 to p99.9 do not decrease |
| CpuList.ParseCpuList | crates/shmbus/src/cpu.rs:43-58 | the loop gives the expansion of all parts or the first error |
| CpuList.FormatCpuList | crates/shmbus/src/cpu.rs:65-92 | the loops print the maximal runs of the sorted list without duplicates |
| CpuList.RunEnd | crates/shmbus/src/cpu.rs:76-79 | the inner loop ends at the last element of the run and its addition does not overflow |
| CpuList.SortIsSorting | crates/shmbus/src/cpu.rs:70 | sorting gives an ascending permutation |
| CpuListTheorems.FormatThenParse | crates/shmbus/src/cpu.rs:65-92 | reading what was printed gives the sorted elements without duplicates, for every list |
| CpuListTheorems.ParseThenFormat | crates/shmbus/src/cpu.rs:43-58 | printing what any accepted text means is stable under reading and printing again |
| CpuListTheorems.FormatIsCanonical | crates/shmbus/src/cpu.rs:64-92 | the text depends only on the set of CPUs |
| CpuListTheorems.RunsAreUnique | crates/shmbus/src/cpu.rs:74-90 | separated ranges that denote a list are its runs: the decomposition is unique |
| CpuListTheorems.FormatIsShortest | crates/shmbus/src/cpu.rs:74-90 | no accepted text for the same CPUs has fewer comma parts |
| CpuShortest.FormatIsShortestText | crates/shmbus/src/cpu.rs:65-92 | no accepted text for the same CPUs has fewer characters |
| CpuGrammar.WhiteIsSpace | crates/shmbus/src/cpu.rs:45 | what is trimmed is the 25 white-space characters |
| CpuGrammar.NumberReads | crates/shmbus/src/cpu.rs:47-54 | a number is digits after at most one plus, below 2^64; each kind of error comes exactly when it should |
| CpuGrammar.ShapeReads | crates/shmbus/src/cpu.rs:45-54 | a blank part is nothing; a number, or two around a dash, with any blanks around each, is what it spells, and a range that runs backwards is refused with its ends |
| CpuGrammar.AcceptedHasShape | crates/shmbus/src/cpu.rs:45-54 | no other part is accepted |
| CpuGrammar.DashReads | crates/shmbus/src/cpu.rs:46-52 | a part with a dash, refused or not: the error of what stands before the first one, else of what stands after, else of the range |
| CpuGrammar.PlainReads | crates/shmbus/src/cpu.rs:53-54 | a part without one is blank, a number, or the error of a number |
| CpuGrammar.CommaReads | crates/shmbus/src/cpu.rs:45-57 | a comma joins two texts: the first error of the two, or one list after the other |
| CpuGrammar.DecimalStartsWell | crates/shmbus/src/cpu.rs:84-87 | a number is printed without leading zeros |
| CpuGrammar.DecimalIsTheText | crates/shmbus/src/cpu.rs:84-87 | and any digits without leading zeros that stand for it are the printed ones |
| AffinityMask.BuildMask | scripts/host-prep.sh:229-232 | bit c of the mask is set exactly for the allowed CPUs, whatever the order of the loop |
| AffinityMask.MaskIsWritten | scripts/host-prep.sh:237-240 | the text is groups of eight small hex digits with a comma between, the first not all zeros unless alone |
| AffinityMask.MaskReadsBack | scripts/host-prep.sh:234-240 | a reader that takes groups of at most eight digits reads it back as the mask, whatever its size |
| AffinityMask.ExpandCpus | scripts/host-prep.sh:208-221 | the loop gives the union of all parts or the first error |
| AffinityMask.CanonicalListExpands | scripts/host-prep.sh:208-221 | on canonical text the reader finds exactly the CPUs of the list |
| AffinityLists.PyShapeReads | scripts/host-prep.sh:212-220 | a part written properly is read as the CPUs it names; a range that runs backwards is empty |
| AffinityLists.PyAcceptedHasShape | scripts/host-prep.sh:212-220 | no other part is accepted |
| AffinityLists.PyCommaReads | scripts/host-prep.sh:212-221 | a comma joins two texts: the first error of the two, or the CPUs of both |
| AffinityMask.EmitMask | scripts/host-prep.sh:223-240 | the emitted text is well written, and reads back as the only number whose bit c is set exactly when CPU c is online and not isolated |

## Left out

- io_uring, sockets, mmap, files, ctrl-c, command lines, reports and logging: foreign calls; the feedhandler's input is an arbitrary sequence of ticks and short datagrams, and a receive error, which changes no counter, is no step.
- The byte layout of ticks and orders in a payload: the ring proofs carry payload bytes, the engine proofs whole ticks and orders.
- Two processes initialising the bus at once: one initialiser is taken to finish before others attach.
- RingHandles.ShmBus.OpenOrCreate: looks at the ready flag once and reports that the caller has to wait, where the source spins.
- Cursor wrap-around: a publish is called only while its number is below 2^64 - 1. The full test keeps its wrapping subtraction.
- RingTakeover.WedgedForever: is about loads of the latest value; `WedgedLoadExactly` says which stale loads are refused, and what a publish let in by one of the others then does is not followed up. A replaced process is taken to start after the death of the one before.
- The bits of the FNV hash: a worker is chosen by any fixed function of the symbol below the number of workers. A symbol is one word and not eight bytes.
- Rounding of floating point, `ema_alpha`, and NaN or infinite inputs: prices are exact reals and alpha is a parameter; the branches taken when the average is zero are kept. Quantiles are exact fractions.
- Overflow of the u64 counters and of order ids: counters and ids are unbounded; `IdsAreDistinct` says for how many orders the id spaces stay apart.
- Latency.LatencyHistogram.Record: does not model overflow of the u64 counts.
- Worker panics, idle backoff, live reports, `dev_bps` as a second result of the strategy step, which no caller reads.
- AffinityMask.ExpandCpus: Python's `int` also takes underscores, a minus sign and other scripts' digits, and its `strip` four more control characters; the model reads plain decimal digits with an optional plus, trimmed as by the other reader.
- CpuList.SortIsSorting: the standard library's sort is modelled by an insertion sort with the same result.
- Noise threads, resctrl, host probing, the mock exchange, the other scripts: wrappers or easy case analysis.
