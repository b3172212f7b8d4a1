# Verified models of the tracing tools' algorithms

The repository attaches eBPF probes to the kernel and prints what they see. Between the probes and
the printing lie protocols over shared maps, transformations of packets and of nftables
expressions, modular arithmetic, and the acquisition and release of kernel resources. This Dafny
project models those parts and proves what they keep, over all inputs, all runs and all
interleavings. `dafny verify dfyconfig.toml` verifies it.

## Modules

| module | models |
|---|---|
| `IptablesTrace` | one map slot per thread, shared by two entry/exit probe families, under nesting and interleaving |
| `TcpLink`, `TcpSteps` | the two maps that track a socket's client/server role, and the events sent from `tcp_set_state` |
| `MapHelpers` | `lookup_or_try_init` in both versions, alone and with any number of threads at once |
| `RingBuf` | the guard that reserves a ring buffer record and submits or discards it by a sticky flag |
| `TcDump` | packing the headers of a packet into a fixed buffer, and reading them back |
| `NftExpr`, `NftForms`, `NftNormalForm`, `NftOrder`, `NftMarshal`, `NftUnmarshal` | the nftables expression tree: printer, parser, round trips, all the orders in which Go may visit a map, and the printing and parsing loops |
| `NfTrace` | filling and submitting a packet trace record, with the bounds checks on wrapping pointers |
| `Csum`, `Endian`, `Bits` | the Internet checksum (update, verify, byte order) and the byte-swap macros |
| `CoreRead` | the bitfield read and write macros on memory, for both byte orders |
| `UnixPath`, `UnixSend` | the word-wise path prefix test on a reused buffer; what is captured of a message |
| `KernelModule`, `Loader` | init/exit of the iptables kernel module, and the pinning and unpinning around it |
| `Ksym` | the symbol indexes and the search for the nearest symbol |
| `Counters` | sampling tickets under interleaving, and how many packets they keep |
| `Common` | Option, Result, word sizes |

C objects and Go structs that are updated in place are classes with the same fields (`Tracer`,
`Tracker`, `HashMap`, `Ring`, `EventBuffer`, `Trace`, `Packet`, `Kernel`, `Host`, `Addr2Name`, `Maps`), in-place
algorithms work on arrays, and every method is proved against a function or predicate about which the
lemmas then speak. Kernel helpers are small explicit states: a hash map holds at most `max_entries`
keys, an update can fail, a reservation can fail, a load can fault; such outcomes are parameters, so
that the theorems hold for all of them. So are clock readings, pointers' contents and system call
results.

## What the proofs found about the code

- An iptables/nft exit probe finds a slot exactly when its call is a leaf of its thread's call tree whose
  entry was stored, and reports it if a record could be reserved: the one slot of the thread is overwritten by the calls inside and gone when the outer one returns.
- A deciding transition stores its role for the socket only. Unless the connection key already had that
  role, the two differ until another transition copies it (`DecidingStepsSkipTheKey`).
- The hook on `tcp_close` takes the timeout for a return value and the socket for the registers, so it
  drops entries under a word that it finds inside the socket, and the closed socket stays tracked
  (`CloseUntracksExactlyIf`).
- Two decided roles of one TCP lifetime disagree exactly in a simultaneous open.
- The `BPF_ANY` version of get-or-init, which `bpf_all.h` includes, can replace a value that another
  caller has already been given (`AnyOverwrites`): it is safe exactly if the map is full or all calls for
  an absent key bring the same value (`AnyKeepsIffCallersAgree`).
- The word-wise path test agrees with the byte-wise one exactly for the configurations without a
  nonzero byte at certain word starts behind the terminator; zero padding is enough.
- `ipv4_csum` returns the constant 0x15 for every size that is no multiple of 4, so that update and
  verify do not fit together there, and flipping 0 and 0xffff of a half goes unnoticed otherwise.
- An nftrace record of ICMP or ICMPv6 always holds type 0 and code 0: the octets are swapped as 16-bit
  numbers and cut. The ICMP header behind IPv4 options is looked for in the wrong place. The bounds
  checks compare wrapped pointers, which matters only for a buffer at the very end of the address space,
  where the kernel has none. IPv6 packets, too, are dropped if the socket has no IPv4 addresses.
- A `concat` with elements, a `jhash` with entries and every `mangle` are lost between printing and parsing,
  and a match without a right side cannot be printed. Every other expression in which each entry stands
  under its own type's name survives, if a float64 keeps its integers.
- A tracing session never unloads the kernel module that it loaded: its deferred function runs rmmod
  only if the context is not done, and the session waits for it to be done. A later session then fails.
- With several symbols at one address, the address map and the search may name different ones, since
  the sort is not stable.
- Sampling keeps min(rate + 1, 100) of 100 consecutive packets, but for certain rates not where the 32-bit
  ticket starts over, as 2^32 is no multiple of 100.
- A segment as long as the capture buffer loses its last byte to the terminator.

## Model

| member | source | states |
|---|---|---|
| IptablesTrace.Tracer.IptDoTableIn | ebpf/iptables-trace.c:63-78 | the iptables entry probe overwrites the thread's slot with this call's arguments and start time, unless the map is full |
| IptablesTrace.Tracer.KNftDoChain | ebpf/iptables-trace.c:189-207 | the nft entry probe does the same to the same slot, with a chain in place of a table |
| IptablesTrace.Tracer.IptDoTableOut | ebpf/iptables-trace.c:117-151 | the exit takes the thread's slot whatever happens, and reports its contents if there was one and a record could be reserved |
| IptablesTrace.Tracer.KrNftDoChain | ebpf/iptables-trace.c:210-254 | the nft exit takes the same slot and reports its chain, start time and delay |
| IptablesTrace.Tracer.IptDoTableTrace | ebpf/iptables-trace.c:85-115 | an nf_log_trace record is emitted only while the thread holds a slot, and leaves the map alone |
| IptablesTrace.Tracer.Replay | ebpf/iptables-trace.c:63-254 | replaying any firings of all threads through the probes gives the map and the reports about which the theorems on runs speak |
| IptablesTrace.Locality | ebpf/iptables-trace.c:63-78 | in any interleaving a thread's slot and its reports depend on that thread's own firings alone, and a store for it fails only while it holds no slot |
| IptablesTrace.CallMeaning | ebpf/iptables-trace.c:63-151 | over one call of any depth the thread ends without a slot, and exactly the stored and reserved leaves of the call report, in the order in which they return, each with its own packet, table or chain and verdict and the difference of its own two clock readings |
| IptablesTrace.OnlyLeavesAreReported | ebpf/iptables-trace.c:117-151 | in every interleaved run, a thread whose calls form a forest gets exactly the reports of the leaves; if the thread's own clock readings are in order, whatever those of other threads, each delay is the leaf's true duration |
| IptablesTrace.DelayIsDuration | ebpf/iptables-trace.c:142-143 | a reported delay is the duration exactly if the call's own two readings are in order and less than 2^64 apart |
| IptablesTrace.OwnReportFields | ebpf/iptables-trace.c:136-147 | the report of an iptables call names its skb, state, table and verdict, that of an nft call its skb, chain, start time and verdict |
| IptablesTrace.ExitFindsOwnEntry | ebpf/iptables-trace.c:117-151 | at any moment of any run, whatever the clocks, an exit finds a slot exactly when its call is a leaf whose entry was stored; the slot and the report are then that call's |
| IptablesTrace.EveryEntryIsStored | ebpf/iptables-trace.c:63-78 | with at most as many threads as map entries no entry is ever lost |
| IptablesTrace.SlotMeansLastFiringWasEntry | ebpf/iptables-trace.c:85-91 | a thread holds a slot exactly when its last firing was a stored entry, which is when trace records are emitted |
| TcpLink.Tracker.SetConnInfo | ebpf/headers/common.h:259-312 | an event fails exactly for an unknown family or protocol, or an INET socket without both addresses |
| TcpLink.Tracker.HandleNewConnection | ebpf/tcp-link-trace.c:64-86 | an event is submitted exactly if a record was reserved and the socket is reportable |
| TcpLink.Tracker.OnConnect | ebpf/tcp-link-trace.c:248-260 | a connect hook enters the client role for the socket and its key, where there is none |
| TcpLink.Tracker.FexitTcpV4Connect | ebpf/tcp-link-trace.c:234-246 | only a successful connect does so |
| TcpLink.Tracker.FentryInetCskAccept | ebpf/tcp-link-trace.c:262-272 | an accept hook enters the server role, where there is none |
| TcpLink.Tracker.FentrySysConnectFile | ebpf/tcp-link-trace.c:134-151 | this hook enters the client role for the key only |
| TcpLink.Tracker.KSetState | ebpf/tcp-link-trace.c:279-337 | the whole effect of a transition on both maps, and the one event it submits: location 4, 5 or 6 with the role that the handshake transition decides, and else location 7 with the stored role |
| TcpLink.ReportedRoleIsStored | ebpf/tcp-link-trace.c:299-328 | the role that is reported is the role that the tracing map then holds for the socket |
| TcpLink.OtherKeysStay | ebpf/tcp-link-trace.c:134-463 | no hook touches another connection key than its own |
| TcpLink.KeyUnderOtherHooks | ebpf/tcp-link-trace.c:134-272 | connect and accept hooks enter their role for a key that has none while there is room, keep one that is there, and a destroy hook removes it |
| TcpLink.Tracker.OnDestroy | ebpf/tcp-link-trace.c:405-447 | a destroy hook drops the socket and its key |
| TcpLink.Tracker.FexitTcpClose | ebpf/tcp-link-trace.c:449-463 | the hook as it is declared, with the timeout for a return value: for a nonzero timeout it drops the word that it reads out of the socket, and its key; for 0 it drops nothing |
| TcpLink.CloseUntracksExactlyIf | ebpf/tcp-link-trace.c:452-456 | the socket that is closed is untracked after the hook exactly if it was before, or the timeout is not 0 and the word is the socket's own address |
| TcpLink.ClosedSocketStays | ebpf/tcp-link-trace.c:452-456 | two inputs for which it stays tracked |
| TcpLink.Tracker.Fire | ebpf/tcp-link-trace.c:64-86 | over every run of hooks, each event submitted has family INET or INET6, protocol TCP, UDP or ICMP and, for INET, nonzero addresses |
| TcpLink.RoleIsFold | ebpf/tcp-link-trace.c:153-337 | over every run of hooks on any sockets, a socket's entry is the fold of that socket's own hooks |
| TcpLink.OnlyThisLifeCounts | ebpf/tcp-link-trace.c:333-336 | nothing before a socket's last CLOSE or destroy has any influence on its entry |
| TcpLink.RoleWithinLife | ebpf/tcp-link-trace.c:279-337 | within a lifetime the entry is the last handshake decision if there was one, and else the role that the first hook entered, which connect and accept never overwrite |
| TcpLink.TrackedUnlessClosed | ebpf/tcp-link-trace.c:279-337 | after a transition a socket is tracked exactly if the new state is not CLOSE |
| TcpLink.EveryInsertionFits | ebpf/tcp-link-trace.c:279-291 | with no more sockets than map entries no insertion ever fails, so that the above holds of all hooks |
| TcpLink.OtherStepsAgree | ebpf/tcp-link-trace.c:320-328 | a transition that decides nothing reports the stored role at location 7 and leaves the key's entry with the same role |
| TcpLink.DecidingStepsSkipTheKey | ebpf/tcp-link-trace.c:299-319 | a deciding transition stores its role for the socket, and the key's entry agrees afterwards exactly if it had that role before |
| TcpLink.DisagreementNeedsSimultaneousOpen | ebpf/tcp-link-trace.c:299-319 | along a path of Figure 5 in section 3.3.2 of RFC 9293, two decisions of one lifetime disagree if and only if it went from CLOSE to SYN-SENT, from SYN-SENT to SYN-RECEIVED and from there to ESTABLISHED |
| TcpLink.RoleIsStable | ebpf/tcp-link-trace.c:299-335 | over a lifetime along such a path a decided role never changes, whatever other hooks fire, if and only if the lifetime is no simultaneous open that was established |
| TcpSteps.OneStep | ebpf/headers/bpf/map_helpers.h:11-22 | a step of a connect or accept hook does to the entry what the whole hook does, exactly if it is no store that comes when the socket has got another role |
| TcpSteps.StepsRefineHooksUnlessReplaced | ebpf/tcp-link-trace.c:153-272 | with look-up and update as two steps, between which any hooks on the socket may come, the entry is all along the fold of one-step hooks if and only if no such store happens |
| TcpSteps.RoleWithinLifeAtSteps | ebpf/tcp-link-trace.c:153-337 | so then the meaning of an entry within a lifetime holds at every moment between the steps |
| TcpSteps.OvertakenHookReplaces | ebpf/tcp-link-trace.c:248-253 | a connect hook that is overtaken by the establishment of a server replaces the decided role |
| MapHelpers.HashMap.LookupOrTryInit | ebpf/headers/bpf/bpf_map_helpers.h:8-22 | run alone, both versions are one get-or-init step and return what the map then holds |
| MapHelpers.HashMap.LookupAndDelete | ebpf/headers/bpf/bpf_map_helpers.h:24-31 | takes the entry out and returns it |
| MapHelpers.AloneIsGetOrInit | ebpf/headers/bpf/bpf_map_helpers.h:8-22 | the three steps of a thread alone are one get-or-init, in either version |
| MapHelpers.NoexistIsAtomic | ebpf/headers/bpf/bpf_map_helpers.h:8-22 | with any number of threads at any steps and arbitrary update failures, the NOEXIST helper never overwrites; each call takes effect at most once, in its deciding step, as one atomic get-or-init in the order of the effects; a returned value is the one in the map from then on |
| MapHelpers.EffectsKeepRealTime | ebpf/headers/bpf/bpf_map_helpers.h:8-22 | a call that has returned before another one starts has the earlier effect, so that the calls are linearizable |
| MapHelpers.AllCallersAgree | ebpf/headers/bpf/bpf_map_helpers.h:8-22 | two calls for one key that return a value return the same, which was there before or is one caller's initial value |
| MapHelpers.AnyOverwrites | ebpf/headers/bpf/map_helpers.h:11-22 | whenever there is room and two callers bring different values for an absent key, a run in which both return their own and the first one's is lost |
| MapHelpers.AnyKeepsIffCallersAgree | ebpf/headers/bpf/map_helpers.h:11-22 | the BPF_ANY version overwrites nothing in any run with any failures if and only if the map is full from the start or all calls for the same absent key bring the same value |
| MapHelpers.AnyRunsAlikeUnlessParted | ebpf/headers/bpf/map_helpers.h:11-22 | a run of the BPF_ANY version goes all along like that of the NOEXIST one if and only if no update comes late, when the key is already there, and either fails or brings another value |
| MapHelpers.LateUpdateReplaces | ebpf/headers/bpf/map_helpers.h:17-18 | such an update replaces the value by the caller's, so it keeps the map exactly if they are equal |
| RingBuf.FlagMeaning | ebpf/headers/bpf/bpf_cleanup.h:7-11 | the flag ends as FAILED if any step failed, else as SUCCESS if it was settled, else as INIT: it is sticky in every order |
| RingBuf.Ring.GuardRingBuf | ebpf/headers/bpf/bpf_cleanup.h:50-60 | an activation starts with the flag INIT and a new record, held by it, if there was room |
| RingBuf.Ring.Destructor | ebpf/headers/bpf/bpf_cleanup.h:37-48 | at its end the record, if any, is discarded for a flag above 0 and submitted otherwise |
| RingBuf.EveryRecordFinalisedOnce | ebpf/headers/bpf/bpf_cleanup.h:37-60 | over any run of any activations, each reserved record is held by the one that reserved it until that one ends, is then submitted or discarded for good, and is submitted exactly if its activation settled and never failed |
| RingBuf.OneRecordEach | ebpf/headers/bpf/bpf_cleanup.h:50-60 | a run has exactly one more record for each activation that found room: none is lost and none comes from nowhere |
| TcDump.EventBuffer.Memcpy | ebpf/headers/tc_dump.h:68-96 | one header goes to the place after those copied before, within the buffer, and a failed load leaves all earlier headers complete |
| TcDump.EventBuffer.CopyHeaders | ebpf/headers/tc_dump.h:57-138 | at every return the first total_len bytes are the concatenated headers of the packet's own walk |
| TcDump.EventBuffer.CopyThenDecode | ebpf/headers/tc_dump.h:57-138 | for every packet and every load failure, reading the buffer by header sizes gives the packet's header stack as it lies on the wire; total_len is the sum of the sizes, at most DATA_SIZE, and DATA_SIZE exactly on the VLAN, VXLAN, inner TCP stack |
| TcDump.WalkIsHeaderStack | ebpf/headers/tc_dump.h:94-133 | each header is announced by the octets of the one before and lies where that ends, an IPv4 header after as many words as the low half of its first octet says (section 3.1 of RFC 791, section 5 of RFC 7348); the stack ends only where nothing is announced or nothing can be loaded |
| TcDump.DecodeUndoesCompaction | ebpf/headers/tc_dump.h:57-138 | decoding the concatenation of any walk's headers gives the walk back |
| TcDump.WalkFits | ebpf/headers/tc_dump.h:23 | no walk needs more room than the longest header stack from its start, and only that stack needs it all |
| NftExpr.RoundTripsIffCanonical | utils/nft/match.go:16-28 | for every expression of any depth, parsing its printed form gives it back if and only if it is canonical: numbers kept by float64, matches with a right side of properly named expressions or plain data, no mangle, no concat list, no jhash entry |
| NftExpr.ItemsRoundTripIffCanonical | utils/nft/parse.go:45-112 | a list of expressions survives printing and parsing if and only if each is canonical and stands under its own type's name |
| NftExpr.ParsedUnderOwnName | utils/nft/parse.go:159-243 | what is parsed under a registered name is of the type with that name |
| NftExpr.ConcatCase | utils/nft/concat.go:5-25 | a concat survives exactly if it is empty |
| NftExpr.JhashCase | utils/nft/jhash.go:5-37 | a jhash survives exactly if it has no entries (and its numbers are kept) |
| NftExpr.MangleCase | utils/nft/mangle.go:5-32 | a mangle never survives |
| NftExpr.RangeCase | utils/nft/range.go:5-28 | a range always survives, nil or not |
| NftNormalForm.ParsedIsCanonical | utils/nft/parse.go:127-157 | whatever the parser accepts is canonical, the defective types and matches without a right side aside |
| NftNormalForm.RefloatTwice | utils/nft/parse.go:127-157 | plain data that has passed through an interface{} once is changed no further by passing again |
| NftExpr.RefloatChangesNumbersOnly | utils/nft/parse.go:152-155 | plain data that passes through an interface{} keeps strings, booleans, null, list lengths and member names; only numbers change |
| NftExpr.RefloatKeepsIffExact | utils/nft/parse.go:152-155 | it comes out as it went in if and only if every number in it survives |
| NftForms.PrintsItsForm | utils/nft/payload.go:1-35 | a leaf expression prints exactly as its written form, with its own members and no others |
| NftForms.ManglePrints | utils/nft/mangle.go:27-32 | a mangle prints exactly its two sides under their names, if both are there and print |
| NftForms.JhashEntriesBeside | utils/nft/jhash.go:28-37 | each entry of a jhash stands beside the other members, and in place of one of the same name |
| NftForms.ReadsItsForm | utils/nft/parse.go:159-243 | that form is read as the expression if and only if its numbers survive |
| NftForms.NullIsNothingSet | utils/nft/log.go:1-30 | null and an object without members decode to the value with nothing set, for every type with members |
| NftForms.NullMemberIsAbsent | utils/nft/parse.go:159-243 | a null member is decoded like no member |
| NftForms.OtherKindsFail | utils/nft/parse.go:159-243 | what is neither null nor an object is refused by these types |
| NftForms.BareQueue | utils/nft/queue.go:29-52 | a queue given as a bare number means the same as its member |
| NftForms.NullQueueOrMatchFails | utils/nft/queue.go:29-52 | null is refused by a queue and by a match |
| NftForms.MatchForm | utils/nft/match.go:49-94 | a match with plain data on its right is read as written |
| NftForms.MatchSides | utils/nft/match.go:49-94 | an accepted match has a string operator; an absent or null left side is empty, and only an absent right side is none |
| NftForms.AddressMatch | utils/nft/match.go:16-94 | a match of a payload field with an address is read as written and printed as it was |
| NftUnmarshal.Unmarshal | utils/nft/parse.go:159-243 | in whatever order maps are visited: decoding fails exactly if the parser function does, else gives one of the related values, of the type with the name; on JSON free of the defective forms it is the same value in every order |
| NftUnmarshal.UnmarshalMap | utils/nft/match.go:72-91 | the loop keeps exactly the entries with a registered name, each decoded under it, in whatever order the map is visited |
| NftUnmarshal.UnmarshalRight | utils/nft/parse.go:127-157 | an object on the right side becomes expressions, anything else plain data |
| NftUnmarshal.UnmarshalMatch | utils/nft/match.go:49-94 | a match decodes to its operator, its left entries and its right side, each in any order, and fails exactly as the parser function does |
| NftUnmarshal.UnmarshalElem | utils/nft/parse.go:55-74 | an element gives each of its registered members once, decoded under its name, in any order |
| NftUnmarshal.UnmarshalExprData | utils/nft/parse.go:45-75 | a list gives the expressions of its elements in their order, those of one element in any order; with at most one each and none defective, exactly the list of the parser function |
| NftUnmarshal.UnmarshalConcat | utils/nft/concat.go:17-20 | the data of a concat is decoded like a list of its own, in any order |
| NftOrder.ParseDecodes | utils/nft/parse.go:55-74 | the fixed order of the parser function is one that Go may choose |
| NftOrder.SoundDecodesAlike | utils/nft/parse.go:159-243 | a value decoded in any order is free of the defective forms if and only if the JSON is, by a test that a caller can make before decoding; then all orders give the same value |
| NftOrder.OneOrder | utils/nft/parse.go:45-75 | a list without defective forms and with at most one expression in each element is decoded alike in every order |
| NftOrder.PrintedDecodesBack | utils/nft/match.go:16-28 | a canonical expression comes back from its printed form in every order |
| NftOrder.PrintOfParseIsNormalIffSound | utils/nft/parse.go:45-112 | for every list decoded in any order: it prints, and its printed form is read back as the same list in every order, if and only if the JSON that it came from was free of the defective forms |
| NftMarshal.MatchReallyValue | utils/nft/match.go:16-28 | the loop over the left side prints every entry, in whatever order; an absent right side is a nil dereference |
| NftMarshal.JhashReallyValue | utils/nft/jhash.go:28-37 | the entries land beside the other members and may replace them |
| NftMarshal.MangleReallyValue | utils/nft/mangle.go:27-32 | both fields are printed in turn, and a nil one is dereferenced |
| NftMarshal.RightReallyValue | utils/nft/parse.go:117-126 | expressions print as an object under their names, without any the plain data does |
| NftMarshal.ItemsReallyValue | utils/nft/parse.go:89-100 | one single-member object for each entry in order, and null for no entries |
| NfTrace.Trace.HandleNftIpv4 | ebpf/nftrace-trace.c:35-85 | the flag stays as it was exactly if IP and transport header pass their checks and the protocol is handled, and then the record holds the packet's fields |
| NfTrace.Trace.HandleNftIpv6 | ebpf/nftrace-trace.c:87-130 | the same for IPv6, whose transport header directly follows |
| NfTrace.Trace.FillTracePktInfo | ebpf/nftrace-trace.c:132-195 | the flag and record after all checks, for every ethertype and hook family |
| NfTrace.KprobeNftTracePacket | ebpf/nftrace-trace.c:213-238 | a record is submitted exactly if one was reserved and the packet is accepted, and it holds what was extracted |
| NfTrace.SubmittedExactlyWhen | ebpf/nftrace-trace.c:132-195 | acceptance in terms of offsets into the buffer: both directions, for every ihl, with the three handled protocols of the family |
| NfTrace.SubmittedOnTheWire | ebpf/nftrace-trace.c:35-195 | acceptance for every hook family in terms of memory alone: ethertype, protocol, IP header length and transport header at their octets |
| NfTrace.EtherTypeOnTheWire | ebpf/nftrace-trace.c:154-161 | the ethertype is the big-endian number behind the two addresses |
| NfTrace.SubmittedLiesInside | ebpf/nftrace-trace.c:35-195 | Ethernet, IP and transport header of a submitted IP packet all end at or before the buffer's end if and only if none reaches past the end of the address space |
| NfTrace.SubmittedLiesInsideBelow | ebpf/nftrace-trace.c:35-195 | so they all do for every buffer that starts at least 128 KiB below that end |
| NfTrace.WrappedHeaderIsSubmitted | ebpf/nftrace-trace.c:40-43 | a packet whose header wraps around and is submitted although it lies outside the buffer |
| NfTrace.CheckMeaning | ebpf/nftrace-trace.c:40-43 | a bounds check passes exactly if the header is inside or wraps |
| NfTrace.Ipv4RecordMeaning | ebpf/nftrace-trace.c:45-84 | the record holds the big-endian header fields of section 3.1 of RFC 791 and the ports behind an IP header of any length; ICMP type and code are always 0 in it |
| NfTrace.Ipv6RecordMeaning | ebpf/nftrace-trace.c:97-129 | the same for IPv6 and ICMPv6 |
| NfTrace.IcmpKeptExactlyIfZero | ebpf/nftrace-trace.c:77-78 | the recorded ICMP type is the one in the packet exactly if that is 0, and so for the code |
| NfTrace.Icmpv6KeptExactlyIfZero | ebpf/nftrace-trace.c:120-126 | the same for ICMPv6 |
| NfTrace.EthernetRecordMeaning | ebpf/nftrace-trace.c:152-194 | the record of an IP packet holds the destination and source addresses as the Ethernet header begins with them, and nothing more in other hooks; for any other ethertype it is all zeros |
| NfTrace.TransportIsTheHeadersOwn | ebpf/nftrace-trace.c:50-79 | the transport header is taken from where the IP header says exactly if it is not ICMP or there are no options |
| Csum.BpfCsumDiff | ebpf/headers/bpf/bpf_csum.h:14-19 | a loop that meets the helper's contract: some 32-bit representative of the ones' complement sum, or -EINVAL |
| Csum.FoldOfAnyCsumDiff | ebpf/headers/bpf/bpf_csum.h:8-19 | whichever representative the helper returns, the folded result is the same checksum |
| Csum.Ipv4Csum | ebpf/headers/bpf/bpf_csum.h:14-19 | the result is the complement of the 16-bit ones' complement sum (section 1 of RFC 1071), and 0x15 for a refused size |
| Csum.UpdateChecksum | ebpf/headers/bpf/bpf_csum.h:22-32 | the field in place is the checksum of the buffer with that field cleared, and nothing else changes |
| Csum.UpdateThenVerify | ebpf/headers/bpf/bpf_csum.h:22-32 | after an update the checksum over the same bytes is 0, for every content including all zeros, if and only if the size is a multiple of 4 |
| Csum.CorruptionUnnoticed | ebpf/headers/bpf/bpf_csum.h:14-19 | replacing one half of a verified nonzero buffer goes unnoticed exactly if the half is unchanged or 0 and 0xffff are exchanged |
| Csum.SwapCommutes | ebpf/headers/bpf/bpf_csum.h:8-19 | swapping the bytes of every half swaps the checksum (section 2(B) of RFC 1071), for the accepted sizes and no others |
| Csum.SwabIsSwap16 | ebpf/headers/bpf/bpf_endian.h:15 | that swap is the 16-bit macro on the value of its operand |
| Endian.MvbMovesOneByte | ebpf/headers/bpf/bpf_endian.h:13 | the macro isolates byte n and puts it into byte m |
| Endian.Swab16Reverses | ebpf/headers/bpf/bpf_endian.h:15 | the 16-bit swap reverses the bytes and undoes itself, although its operand is promoted to 32 bits |
| Endian.Swab32Reverses | ebpf/headers/bpf/bpf_endian.h:17 | so does the 32-bit swap |
| Endian.Swab64Reverses | ebpf/headers/bpf/bpf_endian.h:19-20 | so does the 64-bit swap |
| CoreRead.WriteBitfield | ebpf/headers/bpf/bpf_core_read.h:124-167 | the in-place write leaves exactly the memory about which the following lemmas speak |
| CoreRead.WrittenBit | ebpf/headers/bpf/bpf_core_read.h:124-167 | every bit of memory after a write: the value's bit if it belongs to the field, the old one otherwise |
| CoreRead.ReadAfterWrite | ebpf/headers/bpf/bpf_core_read.h:82-167 | a read after a write gives the low 64 - rshift bits of the value, extended as the field is signed, on either byte order |
| CoreRead.WriteKeepsOtherBits | ebpf/headers/bpf/bpf_core_read.h:124-167 | no bit outside the field and no byte outside its storage unit changes |
| CoreRead.WriteKeepsOtherFields | ebpf/headers/bpf/bpf_core_read.h:124-167 | every other field that shares no bit reads as before, even in the same storage unit |
| CoreRead.ReadersAgree | ebpf/headers/bpf/bpf_core_read.h:46-113 | the probed and the direct reader agree on every storage unit that the direct one has a case for, where it otherwise yields 0 |
| UnixPath.IsStrPrefix | ebpf/unix-sock-trace.c:52-59 | byte-wise: the path starts with the configured string |
| UnixPath.IsPathMatched | ebpf/unix-sock-trace.c:61-77 | the word loop computes its specification function |
| UnixPath.WordLoopIsPrefixTest | ebpf/unix-sock-trace.c:52-77 | for a configuration, word-wise and byte-wise test agree on all paths if and only if no nonzero word chain behind its terminator ends in a word that starts with a nonzero byte |
| UnixPath.ZeroPaddedHasNoTrap | ebpf/unix-sock-trace.c:61-77 | every configuration that is zero-padded after its first NUL is such a one |
| UnixPath.PaddedHasNoTrap | ebpf/unix-sock-trace.c:61-77 | so every string that fits, with zeros behind it, is matched as that string |
| UnixPath.MatchPathOfUsk | ebpf/unix-sock-trace.c:79-102 | with the reused buffer the answer depends on the socket's name alone and not on the bytes left behind |
| UnixPath.NameMatchesMeaning | ebpf/unix-sock-trace.c:94-99 | a path and the same name behind a leading NUL match exactly if the configured string is a prefix of the name, as far as 107 bytes hold it |
| UnixPath.MatchNamed | ebpf/unix-sock-trace.c:79-102 | on a configuration without such a chain a named socket is captured exactly then, whatever the buffer held |
| UnixSend.Packet.CollectData | ebpf/unix-sock-trace.c:106-124 | one event with the segment's length, its first bytes within both limits, and a NUL after them |
| UnixSend.Packet.UskSendMsg | ebpf/unix-sock-trace.c:161-186 | one such event for each of the first segments in order, or a single error event |
| UnixSend.WholeMessageShown | ebpf/unix-sock-trace.c:106-186 | the events show the whole message if every segment fits and none with data is left over, and otherwise strictly fewer bytes |
| KernelModule.Kernel.Init | kernel/iptables-trace.c:144-244 | loading succeeds for exactly the stated call outcomes; a failure at any call leaves no program reference and no probe; on success all programs are held and the IPv6 kprobe and kretprobe are both there or both not |
| KernelModule.Kernel.GetPrograms | kernel/iptables-trace.c:169-186 | all three program references are held afterwards, or none |
| KernelModule.Kernel.RegisterProbes | kernel/iptables-trace.c:195-239 | all probes are registered afterwards, or none, through every goto |
| KernelModule.Kernel.Exit | kernel/iptables-trace.c:246-259 | unloading a running module brings references and probes back to nothing |
| KernelModule.Kernel.RegisterIp6tDoTables | kernel/iptables-trace.c:134-142 | the IPv6 probe is asked for only if the table is there |
| KernelModule.Kernel.UnregisterIp6tDoTables | kernel/iptables-trace.c:123-132 | and released only then, being held |
| KernelModule.Drive | kernel/iptables-trace.c:144-262 | after any sequence of loads and unloads with arbitrary call outcomes, references and probes are those of the one load in force, or none: all others net to zero |
| Loader.Host.PinProg | pkg/iptables/kernel_module.go:21-25 | a pin fails if the call does or the path is taken |
| Loader.Host.UnpinAll | pkg/iptables/kernel_module.go:27-31 | exactly the pins whose removal succeeds are gone |
| Loader.Host.Insmod | pkg/iptables/kernel_module.go:48-78 | it succeeds exactly if no module is loaded, all three pins can be made, the command runs, the pinned paths are found and all registrations succeed; then the loaded module runs just the pinned programs; on failure the module is as before and exactly those pins stay that were made and could not be removed |
| Loader.RollbackRestores | pkg/iptables/kernel_module.go:48-78 | so a failed insmod restores the pins if and only if every removal it attempts succeeds |
| Loader.LoadableMeaning | pkg/iptables/kernel_module.go:48-78 | the outcomes under which insmod succeeds, spelled out: every program pinned under a free path and found again, the command run, and the probes registered but for a missing IPv6 table |
| Loader.Host.Teardown | pkg/iptables/run.go:78-88 | the pins are removed, and the module is unloaded only if the context is not done |
| Loader.Host.Session | pkg/iptables/run.go:74-90 | a session starts exactly if its insmod succeeds; one that started always leaves the module loaded, and one that finds it loaded always fails |
| Ksym.Addr2Name.FindNearestSym | utils/trace/ksym.go:29-44 | on any slice it ends at a symbol at or below ip that has none such right after it; on a sorted one that is the last symbol at or below ip, and it panics exactly if there is none |
| Ksym.GetAddrs | utils/trace/ksym.go:46-87 | succeeds exactly if the file opens, every wanted address parses and the scan ends well; both maps index all that was read, also on failure; the slice is a permutation of it if all symbols are wanted, and sorted on success |
| Ksym.ReadLines | utils/trace/ksym.go:58-76 | the loop reads the wanted lines up to the first that does not parse |
| Ksym.ReadMeaning | utils/trace/ksym.go:58-65 | a symbol is read exactly if it stands on some line and all are asked for or its name has a positive count |
| Ksym.ReadAll | utils/trace/ksym.go:58-65 | if all are asked for, every line is read once and in order |
| Ksym.AddressIndexMeaning | utils/trace/ksym.go:71 | exactly the addresses read are in the map, each with the last symbol read at it |
| Ksym.NameIndexMeaning | utils/trace/ksym.go:72 | exactly the names read are in the map, each with all its addresses in the order read |
| Ksym.SearchAgreesWithMap | utils/trace/ksym.go:29-84 | at an address that the map has, the search finds the map's name for every order that the sort may leave if and only if all symbols at that address have that name |
| Counters.Maps.UpdCounterInMap | ebpf/headers/counters.h:20-33 | the call takes the next ticket and advances the counter, modulo 2^64 |
| Counters.Maps.GrabData | ebpf/headers/counters.h:37-53 | a packet is kept exactly if no rate is set, the rate is 0, or the ticket's low 32 bits modulo 100 are at most the rate |
| Counters.AloneIsTakeNow | ebpf/headers/counters.h:20-33 | the two steps of a thread alone are one call |
| Counters.GrabMany | ebpf/headers/counters.h:20-53 | packets one after the other get the tickets v, v + 1, ..., modulo 2^64, and exactly those are kept whose ticket says so |
| Counters.GrabHundred | ebpf/headers/counters.h:37-53 | of a hundred in a row min(rate + 1, 100) are kept, with the exact exceptions where the low 32 bits start over; rate 0 keeps all |
| Counters.TicketsAreConsecutive | ebpf/headers/counters.h:20-33 | under any interleaving of any threads the k-th call to end has ticket v + k modulo 2^64: no repetition and no gap |
| Counters.TicketsAreDistinct | ebpf/headers/counters.h:20-33 | calls closer than 2^64 to each other have different tickets |
| Counters.FirstTicketsDifferIffPresent | ebpf/headers/counters.h:23-32 | in every run the first two tickets differ if the slot was there at the start, and are both 0 if it was not |
| Counters.KeptOfHundred | ebpf/headers/counters.h:37-53 | of 100 consecutive tickets min(rate + 1, 100) are kept if and only if they do not cross a multiple of 2^32 or the rate lies in the stated ranges for that crossing |
| Counters.SampleOfAnyRun | ebpf/headers/counters.h:20-53 | the same for any 100 calls that end one after the other in any interleaved run; rate 0 keeps all |

## Left out

- Program loading and attaching, perf and ring buffer readers, BTF iteration, netlink, HTTP routes, charts, printing: input, output and set-up without an algorithm.
- main.go `findFirstSmaller`: sorts and takes the largest smaller element; it would only add an easy member.
- pkg/nftables/nft.go `logic`, ebpf/headers/string.h `strcmp`: the code does not compute what its name says, so there is no intended property to prove.
- IptablesTrace: the skb fields, device and table names that an exit adds to its event; a record is scratch space and sent through the perf buffer, so `reserved` only decides whether there is an event. Threads are told apart by `pid_tgid`, which idle tasks share.
- MapHelpers.HashMap.LookupAndDelete: is one atomic step here; in the kernel the freed element may be used again while the caller still reads it.
- MapHelpers.UpdateErr: on a present key BPF_ANY always succeeds; other failures are the parameter `fails` of the concurrent model and absent from the class.
- TcpLink: `fd_info_map` and `get_stack_id` (their keys are not meaningful), so the hooks that need a file descriptor record are modelled once it has been found; a connection key is an abstract value read by each hook, since its padding is not initialised; an event's ports, counters and process fields.
- TcpLink.RoleWithinLife: connect and accept hooks are one step there. They do not hold the socket lock, so another hook can come between the look-up and the update of their helper; `TcpSteps` has them as two steps and the exact condition. The map operations of `tcp_set_state` and of the destroy hooks are one step in both.
- TcpLink.OtherStepsAgree: assumes that the key is in its map or the map has room, without which the store is lost.
- TcDump: the two loaders, for tc and for kprobes, are one load that can fail; `calc_l3_off` and `set_output_*` around the copy.
- NftExpr: lexing of JSON text and the formatting of float64 are the parameter `f`, of which idempotence and exactness up to 2^53 are assumed; numbers are integers; member names are matched exactly, not case-insensitively; an error and a panic are one outcome; a nil Go map and an empty one are the same map here, so that the sides of a match come back up to that difference; nil entries in a match's maps are not values of the tree; `set` is not registered.
- NftMarshal: Match.MarshalJSON, which prints a match that stands on its own and, unlike ReallyValue, accepts an absent right side.
- NftUnmarshal: receivers start empty and results are returned as values in place of updating the receiver.
- NfTrace: the device, socket, process and rule fields of a record, and the look-up in `conn_ctx_map` that only prints; little-endian machines, which `_ntohs` assumes as well; what a failed handler leaves in a record, as it is discarded.
- Csum.BpfCsumDiff: the 512-byte limit that some kernels put on the helper.
- UnixSend: the process filter, the packet map look-up and the read faults of `bpf_probe_read`; matching the path is `UnixPath`.
- KernelModule: references are counted by the pointer that holds them; running the programs from the handlers.
- Loader: the three programs are distinct, so that a pin belongs to one name; insmod fails exactly if the module's init does or it cannot be run.
- Ksym: splitting a line into fields, and the panic on a line with fewer than three; utils/socketrace/ksym.go is a copy of this code.
- Ksym.SortByAddr: a stand-in for sort.Sort, of which only its contract is used.
- Counters: the two maps are arrays, whose element always exists; a rate that is changed while packets arrive.
