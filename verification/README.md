# Verified model of the stateful eBPF examples

A Dafny model of the examples in this repository that carry state and arithmetic, with proofs
about all their runs. `dafny verify dfyconfig.toml` checks everything.

**Latency trackers.** The kretprobe, uretprobe and fentry/fexit programs and the S1 uretprobe
program are classes with their maps as fields and one method per probe (`Kretprobe`,
`Uretprobe`, `FentryFexit`, `BasicUretprobe`). Clock, thread key, return value and the answer of
the ring buffer are inputs. Each method is proved against a function `After` from maps to maps;
`Run` folds `After` over a sequence of probes, and the theorems are about `Run`; `EventsTell` of
each program says, in terms of the probes alone, what its event stream is. What the
trackers share, matching returns with entries on a bounded map, is `CallMatching`, where one
step is one map access and threads may interleave. `KretprobeRace` takes the statistics update of
the kretprobe program apart into one step per lookup, atomic add, plain load and plain store, for
any number of handlers on any schedule; `KretprobeExtremes` says when the minimum and maximum are
exact then, `KretprobeFirstTouch` when the first returns of a process are all counted, and
`KretprobeWhole` puts map accesses and statistics steps on one schedule.

**Packet programs.** `Headers` states the header fields as byte offsets (section 3.1 of RFC 791,
section 3.1 of RFC 9293, the "Format" section of RFC 768) for a little-endian machine; `Frames`
is an encoder and its inverse. `TcClassifier`, `SocketFilter` and `XdpPass` hold the three
parsers as methods on byte arrays, and the three counters as classes. `FlowAgreement` relates
the counters of the first two.

**Shared counters and their readers.** `Tickets` and `TicketRace` treat the counter with
1/100 sampling that the socket filter and the perf-event program share, serially and
interleaved; `PerfEvent` is the program. `FlowRace` interleaves the packets of one flow in the
TC classifier, which reads its counter again after the atomic add, and `FlowTouch` the first
packets of a flow. `BpfCommands` has the per-CPU counters and the sum loops, `MapWalk` the
get-next-key walk, `FormatTimestamp` the timestamp printer.

`Words`, `BoundedTable`, `Sums`, `Traces`, `LatencyStats` and `Probes` hold what the others share. All
`__u64` additions and subtractions wrap modulo 2^64; a theorem about plain numbers says when
they do not. A hash map refuses a new key when it is full and always takes an existing one.

The interleaved theorems about counters assume that the entry exists and that no handler is
inside the look-up-then-insert of a first touch. Without that counts can be lost;
`KretprobeFirstTouch`, `TicketRace` and `FlowTouch` say exactly when, for the three tables. The
serial theorems need no such premise.

Where the examples and their documentation disagree, the model follows the code:

- The README of the S2 uretprobe example promises per-PID call counts and the last return value.
  The program counts leaf calls with a granted reservation only (`CountsAllCallsIffFlat` says
  when that is the same) and keeps return values in events, not in its statistics.
- The README of the kretprobe example names `getpid`, that of the fentry/fexit example `execve`;
  the programs trace `openat` and `do_sys_openat2`. The name makes no difference to the model.
- The `count` in a fentry/fexit event is one more than the rank of the event within its process;
  it is 1 for the first event and for a process without a slot (`EventCounts`).
- The comment in the kretprobe program calls its minimum and maximum update a "simple atomic
  approach"; it is not atomic. `ExactIff` says exactly when it is exact all the same.
- The comment in the TC classifier says that 1 in 100 packets is sampled. Even serially a stored
  flow of n packets attempts 1 + n / 100 events and a flow without a slot n of them
  (`SampledFlow`). Interleaved, a sample of a stored flow can be missed, taken twice or reported
  with another count (`SampleMissed`, `SampleDoubled`, `SampleMislabelled`); `ReportIsSerialIff`
  says exactly which packets report what they would serially.
- The README of the XDP example mentions only a packet count; the program also parses headers and
  counts sources.

## Model

| member | source | states |
|---|---|---|
| `CallMatching.DomainIsPending` | S2-advanced/examples/tracing/fentry_fexit/example_fentry_fexit.bpf.c:53-123 | after every prefix of an interleaved run the keys of the start map are exactly the threads with an entry that no delete has followed, if and only if the run never has more such threads than the map has slots |
| `CallMatching.DomainIsInside` | S2-advanced/examples/tracing/fentry_fexit/example_fentry_fexit.bpf.c:53-123 | when every thread makes one call at a time, these are after every prefix exactly the threads inside a call, again if and only if the run fits the map |
| `CallMatching.NonInterference` | S2-advanced/examples/tracing/fentry_fexit/example_fentry_fexit.bpf.c:53-123 | for every interleaving that fits the map, the start slot and all exits of a thread are those it would have alone on a private slot, whatever the other threads do |
| `CallMatching.OwnLatency` | S2-advanced/examples/tracing/kretprobe/example_kretprobe.bpf.c:92-122 | for every interleaving that fits the map, the k-th latency of an alternating thread whose own clock readings are monotone is its own k-th exit time minus its own k-th entry time, and the subtraction never wraps; the order of the readings of two threads and ring-buffer refusals make no difference |
| `CallMatching.OwnSlot` | S2-advanced/examples/tracing/fentry_fexit/example_fentry_fexit.bpf.c:77-123 | an alternating thread has a start entry exactly while it is between its entry update and its delete, and one exit per lookup |
| `CallMatching.NestedCallsMatchLeaves` | S2-advanced/examples/userspace/uretprobe/example_uretprobe.bpf.c:51-118 | for every call tree of a thread, any depth and branching, exactly the leaf calls find their entry timestamp, and no start entry of the thread is left |
| `CallMatching.NestedCallsLostWhenFull` | S2-advanced/examples/userspace/uretprobe/example_uretprobe.bpf.c:56-72 | when the start map is full of other threads, no call of the tree finds a timestamp and the map is unchanged |
| `CallMatching.NestedUnderInterleaving` | S2-advanced/examples/userspace/uretprobe/example_uretprobe.bpf.c:51-118 | the leaf result for one thread still holds when other threads are interleaved with it |
| `Words.KeyParts` | S2-advanced/examples/userspace/uretprobe/example_uretprobe.bpf.c:63-64 | the process is the upper and the thread the lower half of the 64-bit thread key, and a key has no other halves |
| `BoundedTable.BuildAdmits` | S2-advanced/examples/userspace/uretprobe/example_uretprobe.bpf.c:38-43 | a bounded map that is only inserted into and updated stores exactly the first `max_entries` distinct keys offered |
| `BoundedTable.BuildIsFold` | S2-advanced/examples/userspace/uretprobe/example_uretprobe.bpf.c:98-113 | each stored key holds the fold of all values offered under it, whatever other keys came between |
| `BoundedTable.BuildExtend` | S2-advanced/examples/userspace/uretprobe/example_uretprobe.bpf.c:98-113 | values offered under one key after any others are folded into its entry if it has or gets a slot, and change nothing else; without a slot they change nothing |
| `LatencyStats.RecordInPlace` | S2-advanced/examples/userspace/uretprobe/example_uretprobe.bpf.c:107-112 | the four in-place updates through the pointer, each reading what the one before wrote, are one record and leave other processes alone |
| `LatencyStats.FoldSummarises` | S2-advanced/examples/userspace/uretprobe/example_uretprobe.bpf.c:101-112 | the in-place updates of count, total, minimum and maximum leave the number, the sum and the least and greatest of all latencies recorded |
| `Uretprobe.Program.OnEntry` | S2-advanced/examples/userspace/uretprobe/example_uretprobe.bpf.c:51-58 | after the probe the thread holds its new timestamp if it was present or there was room, and is still absent otherwise; other threads, statistics and events are unchanged |
| `Uretprobe.Program.OnReturn` | S2-advanced/examples/userspace/uretprobe/example_uretprobe.bpf.c:61-118 | the exit probe, with its early return and its refused-reservation path, changes exactly the start map, the event stream and one statistics entry |
| `Uretprobe.Replay` | S2-advanced/examples/userspace/uretprobe/example_uretprobe.bpf.c:77-113 | with refusals at arbitrary points and any number of processes, a reader folding the submitted events per process computes exactly `uret_latency_stats`, for exactly the first 1024 distinct processes in the stream |
| `Uretprobe.EventsTell` | S2-advanced/examples/userspace/uretprobe/example_uretprobe.bpf.c:70-96 | the event stream of every run, exactly and in order: one event for each return that finds a start entry and gets its reservation, with the two halves of its thread key, both times, their difference and its return value |
| `Traces.PositionsAre` | S2-advanced/examples/userspace/uretprobe/example_uretprobe.bpf.c:77-96 | the inputs that lead to a record are exactly those that meet the condition of the program, in increasing order |
| `Uretprobe.RunIsMatching` | S2-advanced/examples/userspace/uretprobe/example_uretprobe.bpf.c:51-118 | the whole program is the call matcher followed by a consumer of matched exits with a granted reservation |
| `Uretprobe.NestedCalls` | S2-advanced/examples/userspace/uretprobe/example_uretprobe.bpf.c:51-118 | after any history a tree of nested calls adds to the event stream exactly its leaf calls with a granted reservation, or nothing if the thread gets no slot |
| `Uretprobe.NestedTotals` | S2-advanced/examples/userspace/uretprobe/example_uretprobe.bpf.c:63-117 | after any history of any threads, a tree of nested calls of thread t of process p, with key p * 2^32 + t, grows `count` of p by the number of leaf calls with a granted reservation and `total_ns` by their durations, if the thread and the process get slots (10240 and 1024); otherwise it grows neither |
| `Uretprobe.ThreadsShareAnEntry` | S2-advanced/examples/userspace/uretprobe/example_uretprobe.bpf.c:63-113 | two threads of one process add to the same entry: it is the old one with the leaf latencies of both folded in |
| `Uretprobe.NestedCallsAmongThreads` | S2-advanced/examples/userspace/uretprobe/example_uretprobe.bpf.c:51-118 | with probes of other threads, also of the same process, interleaved, the events of a thread are still exactly its leaf calls with a granted reservation |
| `Uretprobe.CountsAllCallsIffFlat` | S2-advanced/examples/userspace/uretprobe/example_uretprobe.bpf.c:77-113 | the per-process call count promised by the README of the example, exactly: after any history it grows by the number of calls if and only if there is a slot in both maps, no call is nested in another one, and no reservation is refused |
| `FentryFexit.Program.OnEntry` | S2-advanced/examples/tracing/fentry_fexit/example_fentry_fexit.bpf.c:53-61 | after the probe the thread holds its new timestamp if it was present or there was room, and is still absent otherwise; nothing else changes |
| `FentryFexit.Program.OnReturn` | S2-advanced/examples/tracing/fentry_fexit/example_fentry_fexit.bpf.c:64-124 | the exit probe: statistics first, then the event with the count read back, and the delete on every path past the lookup |
| `FentryFexit.SimulatesUretprobe` | S2-advanced/examples/tracing/fentry_fexit/example_fentry_fexit.bpf.c:77-123 | on every run it has the start map, statistics and events of the uretprobe program, counts in the events aside, so replay, nesting and matching carry over |
| `FentryFexit.EventsTell` | S2-advanced/examples/tracing/fentry_fexit/example_fentry_fexit.bpf.c:77-118 | the event stream of every run, exactly and in order: one event for each matched return with a granted reservation, with the halves of its thread key, both times, their difference and its return value |
| `FentryFexit.EventCounts` | S2-advanced/examples/tracing/fentry_fexit/example_fentry_fexit.bpf.c:100-116 | the count in every event of every run: 1 for the first event of a process and for a process without a slot, otherwise its rank plus one |
| `FentryFexit.CountIsRankOnlyForFirst` | S2-advanced/examples/tracing/fentry_fexit/example_fentry_fexit.bpf.c:109-115 | so the count is the rank of the event within its process if and only if it is the first one |
| `BasicUretprobe.Program.OnEntry` | S1-basic/examples/userspace/uretprobe/example_uretprobe.bpf.c:49-56 | after the probe the process holds the new timestamp if it was present or fewer than 1024 were, and is still absent otherwise; nothing else changes |
| `BasicUretprobe.Program.OnReturn` | S1-basic/examples/userspace/uretprobe/example_uretprobe.bpf.c:59-83 | the process-keyed exit probe with its copy, modify and write back |
| `BasicUretprobe.StatisticsTell` | S1-basic/examples/userspace/uretprobe/example_uretprobe.bpf.c:61-82 | over every run, refusals, nesting and full maps included, a stored process holds the number, the total duration and the last return value of all its returns that found a start entry, and is missing only from a full table |
| `BasicUretprobe.AdvancedRefinesBasic` | S1-basic/examples/userspace/uretprobe/example_uretprobe.bpf.c:49-83 | if no probe of a thread fires while another thread of its process has a start entry, no reservation is refused and at most 1024 processes appear, the S1 and the S2 program hold equal counts and totals for every process, nested and unmatched probes included |
| `BasicUretprobe.SingleThreadsTakeTurns` | S1-basic/examples/userspace/uretprobe/example_uretprobe.bpf.c:51-61 | processes of one thread each meet the first of these premises |
| `BasicUretprobe.ForeignReturnDisagrees` | S1-basic/examples/userspace/uretprobe/example_uretprobe.bpf.c:61-71 | the premise is needed: after any such run, a return of a thread that has not entered, while another thread of its process has, is counted by S1 alone |
| `BasicUretprobe.OverlappingThreadsDisagree` | S1-basic/examples/userspace/uretprobe/example_uretprobe.bpf.c:51-71 | and after any such run, when a second thread of a process enters while a first one is inside a call and both return, S2 counts both calls and S1 one |
| `Kretprobe.Program.OnEntry` | S2-advanced/examples/tracing/kretprobe/example_kretprobe.bpf.c:92-99 | after the probe the thread holds its new timestamp if it was present or there was room, and is still absent otherwise; nothing else changes |
| `Kretprobe.Program.OnReturn` | S2-advanced/examples/tracing/kretprobe/example_kretprobe.bpf.c:103-186 | the exit probe: every return is recorded, with latency 0 if unmatched, and submitted if space was granted |
| `Kretprobe.Program.UpdateStatistics` | S2-advanced/examples/tracing/kretprobe/example_kretprobe.bpf.c:130-154 | look up, insert zeros, look up again, update: together one offer of the sample to the bounded table |
| `Kretprobe.RunIsMatching` | S2-advanced/examples/tracing/kretprobe/example_kretprobe.bpf.c:92-175 | the program is the call matcher followed by a consumer of all its exits |
| `Kretprobe.FoldSummarises` | S2-advanced/examples/tracing/kretprobe/example_kretprobe.bpf.c:137-153 | after any sequence of returns the four counters are the sums over it modulo 2^64, minimum and maximum are the extremes of the positive latencies (both 0 if there is none), and the last return value is the last one |
| `Kretprobe.SerialAggregate` | S2-advanced/examples/tracing/kretprobe/example_kretprobe.bpf.c:130-154 | in every serial run exactly the first 10240 distinct processes are stored, each with the summary of all its returns, whatever the ring buffer did |
| `Kretprobe.ReturnsAreClassified` | S2-advanced/examples/tracing/kretprobe/example_kretprobe.bpf.c:87-153 | in every serial run a stored process counts all its returns, matched or not: those from -4095 to -1 as errors, all others as successes, and keeps the last return value; it is missing only from a full table |
| `Kretprobe.EventsTell` | S2-advanced/examples/tracing/kretprobe/example_kretprobe.bpf.c:108-171 | the event stream of every run, exactly and in order: one event for each return with a granted reservation, with its time, the halves of its thread key, its return value, the time since its start entry or 0, the error flag iff the value is from -4095 to -1, and then its negation as error number |
| `Kretprobe.FieldsAgree` | S2-advanced/examples/tracing/kretprobe/example_kretprobe.bpf.c:137-151 | total = successes + errors, the minimum is 0 iff the maximum is, and the minimum is at most the maximum |
| `Kretprobe.TotalWithinExtremes` | S2-advanced/examples/tracing/kretprobe/example_kretprobe.bpf.c:143-151 | without overflow, with k positive latencies, k <= total calls and k * minimum <= total latency <= k * maximum |
| `Kretprobe.OrderIndependent` | S2-advanced/examples/tracing/kretprobe/example_kretprobe.bpf.c:137-153 | summaries of the same samples in two orders differ at most in `last_retval` |
| `Kretprobe.SameReturnsSameStatistics` | S2-advanced/examples/tracing/kretprobe/example_kretprobe.bpf.c:130-154 | two whole runs in which a stored process had the same returns, in any order and among any other processes, agree on its statistics |
| `Kretprobe.NestedTotals` | S2-advanced/examples/tracing/kretprobe/example_kretprobe.bpf.c:105-144 | after any history of any threads, a tree of nested calls of thread t of process p, with key p * 2^32 + t, grows `total_calls` of p by all its calls if p gets a slot, and `total_latency_ns` by the durations of the leaf calls only, and only if the thread gets a start slot |
| `KretprobeRace.Conservation` | S2-advanced/examples/tracing/kretprobe/example_kretprobe.bpf.c:130-154 | in every reachable state of every schedule of any number of handlers, the growth of `total_calls` is the growth of `success_calls` plus that of `error_calls` plus that of the number of handlers between the two adds |
| `KretprobeRace.QuiescentTotals` | S2-advanced/examples/tracing/kretprobe/example_kretprobe.bpf.c:137-144 | from any settled state, whatever is in flight, once all handlers of the process are done each of the four counters has grown by exactly what its handlers had to add less what they had added before, the sum of all latencies included |
| `KretprobeRace.Envelope` | S2-advanced/examples/tracing/kretprobe/example_kretprobe.bpf.c:146-150 | under every interleaving of the plain loads and stores, minimum and maximum each hold their initial value or a positive latency some handler measured |
| `KretprobeRace.NeverForgotten` | S2-advanced/examples/tracing/kretprobe/example_kretprobe.bpf.c:143-151 | from any state without a handler of the process: once a handler with a positive latency is past an update, the field is not 0 |
| `KretprobeExtremes.ExactIfHarmless` | S2-advanced/examples/tracing/kretprobe/example_kretprobe.bpf.c:143-151 | for every schedule in which no two handlers of the process are ever about to store different minima, nor different maxima, the two fields are at quiescence exactly the extremes of all positive latencies, those from before included |
| `KretprobeExtremes.ExactIff` | S2-advanced/examples/tracing/kretprobe/example_kretprobe.bpf.c:143-151 | exactly when: from every state that such a schedule reaches, the extremes are exact at quiescence on every continuation by steps of the handlers in flight, if and only if no continuation has two handlers of the process about to store different minima or different maxima |
| `KretprobeExtremes.MaximumLost` | S2-advanced/examples/tracing/kretprobe/example_kretprobe.bpf.c:149-150 | from any valid state with two handlers about to store the maximum, two steps leave the smaller latency in the field after the larger one was stored |
| `KretprobeExtremes.MinimumLost` | S2-advanced/examples/tracing/kretprobe/example_kretprobe.bpf.c:147-148 | from any valid state with two handlers about to store the minimum, two steps leave the larger latency in the field after the smaller one was stored |
| `KretprobeExtremes.CollisionLosesMaximum` | S2-advanced/examples/tracing/kretprobe/example_kretprobe.bpf.c:143-151 | from every valid state with two handlers about to store different maxima, however many others are in flight, some steps lead to quiescence with wrong extremes, whatever was summarised before |
| `KretprobeExtremes.CollisionLosesMinimum` | S2-advanced/examples/tracing/kretprobe/example_kretprobe.bpf.c:143-151 | the same for two handlers about to store different minima |
| `KretprobeExtremes.MinimumAboveMaximum` | S2-advanced/examples/tracing/kretprobe/example_kretprobe.bpf.c:146-150 | for any two latencies 0 < x < y a schedule of two handlers, run to the end, leaves the minimum y above the maximum x |
| `KretprobeFirstTouch.NothingLostIff` | S2-advanced/examples/tracing/kretprobe/example_kretprobe.bpf.c:130-144 | on every run from a state without the entry, each of the four counters of a stored entry holds at most what the handlers of the process have added, and all of it if and only if no handler inserted the zeros while the entry was stored with that counter above 0 |
| `KretprobeFirstTouch.FirstTouchLosesACall` | S2-advanced/examples/tracing/kretprobe/example_kretprobe.bpf.c:130-137 | for any process and any two first returns, a schedule of both to their ends leaves the summary of the second alone, with a total of 1 |
| `KretprobeRace.UndisturbedIsRecord` | S2-advanced/examples/tracing/kretprobe/example_kretprobe.bpf.c:136-153 | the steps of one handler in a row are the serial update of the entry |
| `KretprobeRace.SerialHandlerRecords` | S2-advanced/examples/tracing/kretprobe/example_kretprobe.bpf.c:130-154 | from any valid state with a stored process, a handler that arrives and makes its steps undisturbed leaves exactly the serial update, so serial execution keeps minimum and maximum exact |
| `KretprobeWhole.RunIsMatching` | S2-advanced/examples/tracing/kretprobe/example_kretprobe.bpf.c:92-122 | the whole interleaved program projects to the call matcher |
| `KretprobeWhole.RunIsRace` | S2-advanced/examples/tracing/kretprobe/example_kretprobe.bpf.c:130-154 | and to the statistics machine, each handler arriving with the latency its own lookup found |
| `KretprobeWhole.TotalIsOwnTime` | S2-advanced/examples/tracing/kretprobe/example_kretprobe.bpf.c:92-154 | under every interleaving of map accesses, adds, loads and stores, if the map suffices and the threads of the process call one at a time with monotone clocks, `total_latency_ns` has grown at quiescence by the sum over the returns of own exit time less own entry time |
| `Headers.ClassifiedBytes` | S2-advanced/examples/network/tc/example_tc_classifier.bpf.c:78-107 | which byte arrays the TC classifier and the socket filter account, and which bytes make up the key, in plain offsets and constants |
| `Frames.ParseOfEncode` | S2-advanced/examples/network/tc/example_tc_classifier.bpf.c:78-107 | encoding any 5-tuple with any header length 5 to 15, any options and payload, then parsing, gives the 5-tuple back, and all parts of the frame |
| `Frames.EncodeOfDecode` | S2-advanced/examples/network/tc/example_tc_classifier.bpf.c:78-107 | conversely every packet with a legal header length and complete headers is the encoding of what the parser reads in it |
| `TcClassifier.ParseKey` | S2-advanced/examples/network/tc/example_tc_classifier.bpf.c:78-107 | for every byte array, truncations and illegal header lengths included, all loads are inside the packet and the key is the declared header fields, or the packet is declined |
| `SocketFilter.Parse` | S2-advanced/examples/network/socket_filter/example_socket_filter.bpf.c:64-90 | the second parser accepts the same packets with the same fields |
| `XdpPass.ParsePacket` | S2-advanced/examples/network/xdp/xdp_pass.bpf.c:94-141 | return code and every field written into the event, for every byte array; fields not found keep their old value; all loads inside the packet |
| `XdpPass.ParsedBytes` | S2-advanced/examples/network/xdp/xdp_pass.bpf.c:105-119 | return code, type, protocol and addresses in plain offsets and constants |
| `XdpPass.ParsedTransport` | S2-advanced/examples/network/xdp/xdp_pass.bpf.c:121-137 | ports and flags in plain offsets and constants |
| `XdpPass.ParseTransport` | S2-advanced/examples/network/xdp/xdp_pass.bpf.c:121-137 | ports and TCP flags, and the early success on a cut-off transport header |
| `XdpPass.ParsersAgree` | S2-advanced/examples/network/xdp/xdp_pass.bpf.c:105-140 | whenever the TC classifier and the socket filter account a packet, `parse_packet` returns 0 with the same protocol and ports and byte-reversed addresses |
| `XdpPass.DeclinedFrames` | S2-advanced/examples/network/xdp/xdp_pass.bpf.c:122-134 | on an IPv4 frame `parse_packet` succeeds where the others decline if and only if the fixed IPv4 header is there and a TCP or UDP header is cut off, and then it reports no ports |
| `XdpPass.ParseOfFrame` | S2-advanced/examples/network/xdp/xdp_pass.bpf.c:105-137 | parsing any encoded frame gives its addresses in host order, its ports and, for TCP, byte 13 of the TCP header as flags |
| `XdpPass.PrintsPacketAddresses` | S2-advanced/examples/network/xdp/xdp_pass_user.c:54-60 | the user-space conversion prints the address bytes as they stood in the packet |
| `TcClassifier.Program.Classify` | S2-advanced/examples/network/tc/example_tc_classifier.bpf.c:65-142 | the flow table and the ring-buffer attempts after one packet |
| `TcClassifier.FlowAccounting` | S2-advanced/examples/network/tc/example_tc_classifier.bpf.c:109-117 | in every serial run exactly the first 10240 flows are stored, each with its number of packets and the sum of their lengths |
| `TcClassifier.SampledFlow` | S2-advanced/examples/network/tc/example_tc_classifier.bpf.c:119-135 | a stored flow with n >= 1 packets attempts exactly 1 + n / 100 events, with counts 1, 100, 200, ...; a flow without a slot attempts one with count 1 for every packet |
| `TcClassifier.AttemptsTell` | S2-advanced/examples/network/tc/example_tc_classifier.bpf.c:109-135 | the reservation attempts of every run, exactly and in order: one for the first and every hundredth packet of a stored flow, with the number of that packet as count, and one for every packet of a flow without a slot, with the time, flow, length and mark of their own packet |
| `FlowRace.ExactCounters` | S2-advanced/examples/network/tc/example_tc_classifier.bpf.c:115-116 | under every interleaving of packets of a stored flow, packets and bytes grow by exactly what the packets past the two atomic adds account for |
| `FlowTouch.CountIsExactIffOneInsert` | S2-advanced/examples/network/tc/example_tc_classifier.bpf.c:109-117 | for a flow that is missing at first: under every interleaving a stored flow holds at most the packets that were counted, and all of them if and only if only one packet inserted it; then it holds all their bytes, too |
| `FlowRace.LoadsAreAccounted` | S2-advanced/examples/network/tc/example_tc_classifier.bpf.c:114-135 | under every interleaving the count a packet tests is its own number plus the adds between its add and its test, it attempts an event exactly if that is a multiple of 100, and the count it reports is the tested one plus the adds between test and report |
| `FlowRace.ReportIsSerialIff` | S2-advanced/examples/network/tc/example_tc_classifier.bpf.c:119-135 | a finished packet reports what the serial program would if and only if, for a hundredth packet, no add overtook it, and for any other, the adds before its test did not make the count a multiple of 100 |
| `FlowRace.NumbersAreDistinct` | S2-advanced/examples/network/tc/example_tc_classifier.bpf.c:115 | below 2^64 every number after n0 up to the count is the own number of exactly one packet |
| `FlowRace.UndisturbedSamples` | S2-advanced/examples/network/tc/example_tc_classifier.bpf.c:115-135 | if no add falls inside another packet's window, the counts reported are exactly the multiples of 100 above n0 up to the final count, each once |
| `FlowRace.SampleMissed` | S2-advanced/examples/network/tc/example_tc_classifier.bpf.c:115-121 | every sample can be missed: for any n with n % 100 = 99, packets n + 1 and n + 2 can both end without an event |
| `FlowRace.SampleDoubled` | S2-advanced/examples/network/tc/example_tc_classifier.bpf.c:115-135 | every sample can be taken twice: for any n with n % 100 = 98, packets n + 1 and n + 2 can both report the count n + 2 |
| `FlowRace.SampleMislabelled` | S2-advanced/examples/network/tc/example_tc_classifier.bpf.c:119-135 | every sample can be mislabelled: for any n with n % 100 = 99, packet n + 1 can report the count n + 2, because the count is read once more after the test |
| `FlowRace.UndisturbedIsSerial` | S2-advanced/examples/network/tc/example_tc_classifier.bpf.c:114-135 | without interleaving the steps of a packet are the serial update and report |
| `SocketFilter.Program.Filter` | S2-advanced/examples/network/socket_filter/example_socket_filter.bpf.c:50-120 | the destination counter and the ring-buffer attempts after one packet |
| `SocketFilter.SampledPackets` | S2-advanced/examples/network/socket_filter/example_socket_filter.bpf.c:92-115 | a stored destination with n packets has count n and attempts exactly the samples 100, 200, ...; one without a slot attempts none |
| `SocketFilter.AttemptsTell` | S2-advanced/examples/network/socket_filter/example_socket_filter.bpf.c:100-117 | the reservation attempts of every run, exactly and in order: one for each hundredth packet to a destination with a slot, with the time, flow and length of its own packet and its number as count |
| `FlowAgreement.TablesAgree` | S2-advanced/examples/network/tc/example_tc_classifier.bpf.c:109-117 | over every packet sequence with at most 10240 flows, through both programs, the count of each destination is the sum of the packet counts of the flows to it, and it has a count iff some flow to it is stored |
| `FlowAgreement.CountsAreSums` | S2-advanced/examples/network/socket_filter/example_socket_filter.bpf.c:92-98 | below 2^64 packets the two are equal as numbers |
| `XdpPass.Program.OnPacket` | S2-advanced/examples/network/xdp/xdp_pass.bpf.c:144-196 | statistics, source counter, sampled event and action after one packet |
| `XdpPass.Program.CountPacket` | S2-advanced/examples/network/xdp/xdp_pass.bpf.c:152-158 | the three adds on the slot of the current CPU and no other |
| `XdpPass.Program.CountSource` | S2-advanced/examples/network/xdp/xdp_pass.bpf.c:168-177 | the source is stored afterwards with one more than before (modulo 2^64, 0 if it was missing), and no other source changes |
| `XdpPass.SourceCountBound` | S2-advanced/examples/network/xdp/xdp_pass.bpf.c:168-177 | with arbitrary evictions between packets, each source count is at most the number of IPv4 packets with that address in bytes 26 to 29 |
| `XdpPass.SourceCountGrows` | S2-advanced/examples/network/xdp/xdp_pass.bpf.c:168-177 | between evictions the count of an address other than 0.0.0.0 grows by exactly that number (modulo 2^64) |
| `XdpPass.SourceIsStored` | S2-advanced/examples/network/xdp/xdp_pass.bpf.c:168-177 | and the address is stored once there is such a packet |
| `XdpPass.ZeroNeverCounted` | S2-advanced/examples/network/xdp/xdp_pass.bpf.c:169 | the address 0.0.0.0 is never counted |
| `XdpPass.SourceSumBound` | S2-advanced/examples/network/xdp/xdp_pass.bpf.c:152-177 | and the source counts together are at most the all-CPU packet total |
| `XdpPass.EveryPacketPasses` | S2-advanced/examples/network/xdp/xdp_pass.bpf.c:150-158 | on every CPU always packets = passed and dropped = 0 |
| `XdpPass.StatisticsOf` | S2-advanced/examples/network/xdp/xdp_pass.bpf.c:152-158 | each CPU holds the number of its packets, as packets and as passed, and the sum of their lengths (modulo 2^64) |
| `XdpPass.EventsTell` | S2-advanced/examples/network/xdp/xdp_pass.bpf.c:160-186 | the sampled events of every run, exactly and in order: one for each packet that parses at a time that is a multiple of 100 and gets its reservation, with its time, interface, queue and length, the action XDP_PASS and the parsed fields |
| `XdpPass.AllCpuTotal` | S2-advanced/examples/network/xdp/xdp_pass.bpf.c:152-158 | in runs of fewer than 2^64 steps the sum of the packet counters over the CPUs is the number of packets |
| `PerfEvent.Program.OnEvent` | S2-advanced/examples/perf/example_perf_event.bpf.c:35-70 | the process counter and the ring-buffer attempts after one event |
| `PerfEvent.SampledEvents` | S2-advanced/examples/perf/example_perf_event.bpf.c:42-64 | a stored process in which the event fired n times has count n and attempts exactly the samples 100, 200, ..., n / 100 of them; one without a slot attempts none |
| `PerfEvent.AttemptsTell` | S2-advanced/examples/perf/example_perf_event.bpf.c:37-67 | the reservation attempts of every run, exactly and in order: one for each hundredth firing of a process with a slot, with the time, the halves of the thread key, the CPU and the period of its own firing and its number as count |
| `Tickets.TicketNumbers` | S2-advanced/examples/perf/example_perf_event.bpf.c:42-48 | in every serial run an admitted key draws 1, 2, 3, ... without gaps, any other key draws 1 every time |
| `Tickets.SampledTickets` | S2-advanced/examples/perf/example_perf_event.bpf.c:50-52 | so exactly n / 100 draws of an admitted key pass the test and none of another key |
| `Tickets.HitsAreSampled` | S2-advanced/examples/network/socket_filter/example_socket_filter.bpf.c:92-102 | what a ticket counter holds and samples for a key after n hits |
| `TicketRace.ConsecutiveTickets` | S2-advanced/examples/perf/example_perf_event.bpf.c:42-48 | under every interleaving of hits on a stored key the numbers drawn are, under any weighting, the consecutive numbers after the initial count, and the count is the initial count plus the draws |
| `TicketRace.TicketsAreDistinct` | S2-advanced/examples/perf/example_perf_event.bpf.c:47 | below 2^64 every number after n0 up to the count is drawn by exactly one hit, and no other number by any |
| `TicketRace.SamplesUnderInterleaving` | S2-advanced/examples/network/socket_filter/example_socket_filter.bpf.c:97-102 | exactly (n0 + n) / 100 - n0 / 100 of n interleaved hits pass the sampling test |
| `TicketRace.CountIsExactIffOneInsert` | S2-advanced/examples/perf/example_perf_event.bpf.c:42-48 | without the premise that the key is stored, exactly: in every state reachable from one without the key, a stored count is the number of hits that drew if and only if one hit only drew 1, and is smaller otherwise |
| `TicketRace.FirstTouchDrawsTwice` | S2-advanced/examples/perf/example_perf_event.bpf.c:42-46 | two first hits of any key can both draw 1 |
| `FormatTimestamp.Format` | S2-advanced/examples/tracing/kretprobe/example_kretprobe_user.c:63-68 | what is in the buffer after the call, for any buffer length, truncation and the NUL included |
| `FormatTimestamp.FitsBuffer` | S2-advanced/examples/tracing/kretprobe/example_kretprobe_user.c:77-80 | for every 64-bit value the text has at most 21 characters, nine after the point, so it fits the 32-byte buffer |
| `FormatTimestamp.ReadBackText` | S2-advanced/examples/tracing/kretprobe/example_kretprobe_user.c:65-67 | reading the printed text back as seconds and nanoseconds gives the value |
| `FormatTimestamp.Injective` | S2-advanced/examples/tracing/kretprobe/example_kretprobe_user.c:63-68 | different timestamps print differently |
| `MapWalk.DumpMap` | S1-basic/examples/tracing/kretprobe/example_kretprobe_user.c:46-66 | the walk terminates, prints the keys after the starting point in iteration order, each with its value, and returns -1 exactly on an error other than ENOENT |
| `MapWalk.CompleteIffNoZeroKey` | S1-basic/examples/tracing/kretprobe/example_kretprobe_user.c:49-59 | without a fault it prints every key exactly once if and only if key 0 is not in the map; otherwise each key up to and including key 0 is missing and each later key is printed once |
| `BpfCommands.ClassIsFor` | S1-basic/examples/cgroup/cgroup_bpf/example_cgroup_bpf.bpf.c:56-72 | every command has exactly one of the five counters: the named one, or the last if it has no name |
| `BpfCommands.Program.OnCommand` | S1-basic/examples/cgroup/cgroup_bpf/example_cgroup_bpf.bpf.c:52-76 | on an existing CPU the sum of the row that counts the command grows by one (modulo 2^64) in the slot of that CPU alone, and the other four rows keep every slot |
| `BpfCommands.Program.Bump` | S1-basic/examples/cgroup/cgroup_bpf/example_cgroup_bpf.bpf.c:44-49 | the sum of the chosen row grows by one (modulo 2^64) in one slot; all other slots of all rows are unchanged, and nothing changes without that row or CPU |
| `BpfCommands.Totals` | S1-basic/examples/cgroup/cgroup_bpf/example_cgroup_bpf_user.c:44-64 | the nested sum loops compute, per key, the sum of the first 128 CPUs modulo 2^64 |
| `BpfCommands.TotalsAreSingle` | S1-basic/examples/cgroup/cgroup_bpf/example_cgroup_bpf.bpf.c:44-75 | for every assignment of commands to the summed CPUs, the totals are those of one classified counter |
| `BpfCommands.TotalsAddUp` | S1-basic/examples/cgroup/cgroup_bpf/example_cgroup_bpf.bpf.c:56-74 | the five totals add up to the number of commands |

## Left out

- Loading, attaching, signals, poll loops, argument handling and cleanup in every `main`, and all shell scripts: no state of their own.
- `bpf_printk`, `printf` text other than the timestamp and the addresses, `comm`, uid, gid, cgroup and function-name fields: copied data.
- The constant return values of the TC classifier, the socket filter and the probes.
- The inside of kernel maps and of the ring buffer: a bounded map, a reservation that may be refused, and for the LRU map the eviction of any entries between two packets (its capacity is not modelled, since any eviction is allowed).
- Pointers to map elements: a pointer into a map is modelled by its key. The programs never delete from the statistics maps, so the two agree except while an insert replaces the element, where the model lets the handler see the new element.
- `KretprobeRace` gives every step one access; compiler reordering and the weak ordering of plain accesses between CPUs are not modelled.
- The statistics of the uretprobe, fentry/fexit and XDP programs are updated one handler at a time; of the latency trackers' interleavings, the start map (`CallMatching`) and the kretprobe program (`KretprobeRace`, `KretprobeWhole`) are modelled.
- The TC classifier, the socket filter and the perf-event program are modelled with a log of attempts to reserve an event, granted or not; the content of an event that is refused is never written by the program.
- IPv4 fragments: the parsers do not look at the fragment offset, and neither does the model.
- The remaining one-counter examples of S1 and S2: they repeat the ticket or per-CPU pattern.
- `BpfCommands.TotalsAreSingle`: commands on CPUs beyond the first 128, which the sum loops do not read, are outside its statement. The 128-slot buffer into which the kernel would copy more values is not modelled.
- `XdpPass.Program.OnPacket`: the kernel limits a packet to far below 2^32 bytes; the model truncates the length as the program does.
- Big-endian hosts, machine acceptance by the in-kernel verifier, and floating-point averages in the printers.
- The values of protocol and command constants come from kernel headers, which are not part of this model's sources.
