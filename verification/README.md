# Verified model of the riftmap scanner engine

A Dafny 4.11 model of the deterministic engine of the scanner and of the distributed protocol
built on it, with proofs.  `dafny verify dfyconfig.toml` checks the whole project.

What is modelled, bottom up:

- **Words, Bits, CycleWalks, Permutations** - machine words, bit operations as arithmetic, first-return
  walks, and the Feistel permutation with cycle walking that orders every scan.
- **Targets, Endpoints, Shards** - address ranges (merge, subtract with its shared cursor, address policy, target
  files with the trimmed last address), the numbering of endpoints, and the job files of one shard with the
  two binary searches that read them.
- **Results, Coordinator, Distributed, Workers** - the result reducer; the coordinator's tables, each `Store` method one
  atomic transaction on a class whose fields are the tables; coordinator and workers as a state machine with
  stale submissions, lost messages, lease expiry, crashes and reassignment; and the worker's own loop.
- **RateLimit** - the token bucket over exact reals and the virtual-time limiter (GCRA) it amounts to.
- **Frames, FrameEnds, Banners, Parsers, SshKexInit** - incremental recognition of one server-first message for six protocols,
  the banner reader, the parsers that index raw bytes, and the SSH KEXINIT printer and parser
  (sections 6 and 7.1 of RFC 4253, section 5 of RFC 4251).
- **Packets, Attribution** - the Internet checksum (section 1 of RFC 1071), the SYN packet written in place, and the
  way from captured packets back to the endpoint whose SYN they answer.
- **Replies, ScanFiles, Rounds, LiveScan, Export** - the live scan: the bytes kept per endpoint, the mapped files, the
  rounds with their checkpoints, stops, crashes and restarts as a state machine, the sending loop that follows it, and the
  rows exported afterwards.

How the pieces meet:

- Keyed hashes (round functions, cookies, source ports, simulation samples) are uninterpreted functions, so
  everything holds for every choice of them.  Clock, stop flag, kernel, capture device and limiter waits are parameters.
- Code that updates state is a class or a method with the source's loop, proved equal to a function or to a step of a state
  machine; the theorems are about those functions and machines.
- `Distributed.Runs` and `Rounds.Runs` are the runs of the two protocols.  `LiveScan.SynScan` keeps the job inside every set
  of jobs that the steps of `Rounds` do not leave, so `LiveScan.ScanWithRestarts` gets the theorems about all runs; and
  what a process has done inside every set of moments that sending a batch and hearing what follows it does not leave, so
  `LiveScan.SynScan.RunTold` gets the story of one process.

Where the code does not do what its documentation says, or a plausible law fails, the model follows the code:

- `docs/SAFETY_MODEL.md` says that excludes always win.  Exclude files lose the last address of their CIDR blocks like
  include files do, so an address can be named by an exclude and still be a target.  `Targets.ExcludesWinIff` says for a
  whole configuration when excludes win, `Targets.ExcludeLoses` is an instance where they do not.
- A worker told to exit when idle need not come to its end.  An active scan that is not simulated keeps it leasing, failing
  and leasing again, and starves every task that comes later by round and number, of whatever scan.
  `Workers.IdleIff`, `Workers.StuckThroughout` and `Workers.StuckStarves`.
- The banner status can depend on how the stream is cut into reads when it exceeds `banner_max_bytes`;
  `Banners.CutIndependentIff` says exactly when it cannot, `Banners.CutMatters` is an instance.
- The conflict counter of a result row is not monotone; `Results.ReducedCountDropsIff` says when one more observation
  lowers it, `Results.CountDrops` is a log where it falls from two to one.  Workers answer alike and leave it at zero
  (`Distributed.ReachableRows`); it takes a client that submits differing records.
- A name list that is `[""]`, or has a name with a comma, does not survive the KEXINIT round trip;
  `SshKexInit.RoundTripIff`, with `SshKexInit.RoundTripFails` as an instance.
- A frame behind an Ethernet or cooked link header whose first byte begins with the nibble 4 is taken for a bare IPv4
  packet; `Attribution.LinkReadIff`.  `Attribution.MisreadReply` is a SYN-ACK that goes unseen behind such a header.

## Model

| member | source | states |
|---|---|---|
| Permutations.NewDomain | src/permutation.rs:13-30 | every non-empty 64-bit domain is accepted and the permutation keeps the round function it was given; the network's domain is at most 4(n-1) for n >= 2 |
| Permutations.FullIsSixRounds | src/permutation.rs:31-45 | the value is that of six rounds written out over the halves of x, each hashed with its round number |
| Bits.BitwiseOperators | src/permutation.rs:31-45 | and, or and exclusive or act on every bit of a word by itself |
| Permutations.FullBijective | src/permutation.rs:38-45 | for every round function the six-round network is a bijection of [0, 2^bits) |
| Permutations.WalkLength | src/permutation.rs:46-58 | the cycle walk from any index below n stops within 2^bits - n + 1 applications |
| Permutations.GetBijective | src/permutation.rs:46-58 | for every round function `get` is a bijection of [0, n) |
| Permutations.OrderIsOrder | src/permutation.rs:46-58 | `get(0), get(1), ..` visits every index exactly once |
| Permutations.FullLoop | src/permutation.rs:38-45 | the loop over `l` and `r` computes the network that the bijection is about |
| Permutations.Get | src/permutation.rs:46-58 | the walking loop terminates within the bound and computes the first return |
| CycleWalks.WalkReturns | src/permutation.rs:46-58 | a walk of an injection back into [0, n) takes at most domain - n + 1 steps (orbit argument) |
| CycleWalks.WalkBijective | src/permutation.rs:46-58 | the first-return map of an injection is a bijection |
| Targets.Merge | src/target.rs:82-95 | the merged list denotes the same addresses and is sorted, disjoint and non-adjacent |
| Targets.NormalFormUnique | src/target.rs:82-95 | two lists in that form that denote the same set are equal |
| Targets.Subtract | src/target.rs:97-129 | exact set difference in normal form, at 0 and 2^32-1 too, in spite of the shared cursor |
| Targets.FilterAllowed | src/target.rs:131-155 | an address stays iff it was there and lies in none of the twelve reserved blocks, nor in one of the three private ones unless these are allowed, all by first and last address |
| Targets.AllowedIff | src/target.rs:131-180 | `is_allowed` accepts exactly the addresses outside those blocks |
| Targets.CidrRangeHas | src/target.rs:157-163 | the block of an aligned base has exactly the addresses with the same leading bits |
| Targets.CidrNames | src/target.rs:37-56 | an entry with a prefix names the addresses that share that many leading bits, whether or not its own address is the first |
| Targets.ParseEntries | src/target.rs:18-80 | on parsed entries: an error iff a prefix is over 32; otherwise exactly the named addresses, less the trimmed ones, in normal form |
| Targets.PrepareRanges | src/distributed.rs:1028-1035 | fails iff a file is malformed; otherwise the target set is includes minus excludes minus the denied blocks, address by address, with the exact condition for no excluded address to be in it |
| Targets.ExcludesWinIff | src/target.rs:58-80 | no address named by an exclude is a target iff the last address of every exclude block of /30 or shorter is not listed, or denied, or excluded by another entry too |
| Targets.ExcludeLoses | src/target.rs:71-80 | 8.8.8.255 listed alone survives the exclude 8.8.8.0/24 |
| Endpoints.NthIpLoop | src/distributed.rs:1089-1098 | the k-th enumerated address, none past the count |
| Endpoints.IpIndexLoop | src/distributed.rs:1100-1110 | the growing-base loop equals the rank function that inverts `nth_ip` |
| Endpoints.NthIpInverts | src/distributed.rs:1089-1110 | on normal ranges `ip_index` of `nth_ip(k)` is k, for exactly the k below the count |
| Endpoints.IpIndexInverts | src/distributed.rs:1089-1110 | `ip_index` answers exactly for covered addresses, and `nth_ip` gives the address back |
| Endpoints.AddressesAscend | src/target.rs:182-189 | `iter` yields the addresses in strictly ascending order |
| Endpoints.IndexOfEndpointAt | src/distributed.rs:1063-1086 | every index below the count names one endpoint, whose index it is |
| Endpoints.EndpointAtOfIndex | src/distributed.rs:1063-1086 | an index is answered exactly for covered addresses and configured services, and names that endpoint |
| Endpoints.EndpointAtEnumerates | src/distributed.rs:1063-1072 | the arithmetic numbering is the nested enumeration over addresses and services |
| Endpoints.EndpointCountBound | src/distributed.rs:1036-1046 | a valid target set has between 1 and 2^48 endpoints, so the saturating product is exact |
| Endpoints.FromConfig | src/distributed.rs:1028-1061 | an error iff a file is malformed, no address is targeted or the targets exceed the ceiling; otherwise the targets denote exactly the targeted addresses |
| Endpoints.NumberingCanonical | src/distributed.rs:1047-1054 | target sets that denote the same addresses get the same numbering and the same digest input |
| Endpoints.DigestInjective | src/distributed.rs:1047-1054 | different endpoint lists feed the digest different bytes |
| Shards.CreateShard | src/job.rs:71-176 | an error iff the shard number is bad, the target files cannot be prepared or the shard is empty; otherwise the three files hold the shard's endpoints in order |
| Shards.WriteShard | src/job.rs:104-120 | the nested loops write, count and digest exactly the shard's endpoints |
| Shards.ShardHolds | src/job.rs:284-286 | endpoint k stands in shard k mod n, at position k div n |
| Shards.ShardAt | src/job.rs:284-286 | position i of shard s is endpoint i*n + s: the shards partition the enumeration |
| Shards.ShardSorted | src/job.rs:144-154 | each shard's target file is sorted and repeats no address and port |
| Shards.FindIndex | src/scanner.rs:1459-1477 | numeric binary search and port scan find the first matching endpoint, or none exists |
| Shards.EndpointIndex | src/job.rs:405-439 | the search on raw big-endian bytes gives the same answer, and an error otherwise |
| Shards.LexIsNumeric | src/job.rs:405-424 | big-endian bytes compare like the numbers they encode |
| Shards.LookupIff | src/scanner.rs:1459-1477 | a shard answers position i iff endpoint i*n + s has that address and port |
| Shards.FoundInOneShard | src/job.rs:104-154 | every endpoint is found in exactly one shard, at its position there |
| Results.StateByteRoundTrip | src/result.rs:24-42 | a state byte decodes to its state and the attempt number capped at 15 |
| Results.ScoreOrder | src/distributed.rs:731-749 | records are ordered by state, open above closed above unreachable above no response, and among equals by a good banner |
| Results.ConflictCountDropsIff | src/distributed.rs:731-749 | merging lowers the conflict count iff an upgrade brings a smaller one |
| Results.ReducedCountDropsIff | src/distributed.rs:672-749 | over a log: an observation of count 0 lowers a row's counter iff it outranks a row that counts two or more |
| Results.CountDrops | src/distributed.rs:731-749 | closed, unreachable, unreachable count two conflicts; with one open more the row counts one |
| Results.ReducedIsFirstBest | src/distributed.rs:672-749 | a row is, apart from its counter, the first logged observation of the highest state rank and banner success |
| Results.ReducedConflicts | src/distributed.rs:731-749 | with observations arriving at count 0, the counter is positive iff two of them differ in state or banner status |
| Results.ReducedOrderIrrelevant | src/distributed.rs:672-749 | state and banner success of a row do not depend on the order of the log |
| Coordinator.Store.CreateScan | src/distributed.rs:273-330 | an error, and unchanged tables, iff the task size is zero, the target files cannot be prepared or the id is taken; otherwise the new scan's tables and number of tasks |
| Coordinator.Store.LeaseTask | src/distributed.rs:354-436 | leases the first leasable task by round and id with the scan's terminal endpoints, for thirty seconds: leasable again exactly after that; or nothing is leasable |
| Coordinator.Store.RenewTask | src/distributed.rs:438-447 | the owner's running lease ends thirty seconds from now and the task is leasable exactly after that; for anyone else nothing changes |
| Coordinator.Store.SubmitObservations | src/distributed.rs:449-467 | logs and reduces every observation or, on an unknown endpoint, changes nothing |
| Coordinator.Store.CompleteTask | src/distributed.rs:469-490 | finishes the owner's task and the scan with its last task; for anyone else nothing changes |
| Coordinator.Store.FailTask | src/distributed.rs:492-508 | returns the owner's task to pending; for anyone else nothing changes |
| Coordinator.ScanTasksCount | src/distributed.rs:308-321 | a scan has attempts * ceil(count / size) tasks |
| Coordinator.ScanTasksPartition | src/distributed.rs:308-321 | in every round each position lies in the slice of exactly one task |
| Coordinator.StatusCounts | src/distributed.rs:510-550 | pending, running and done tasks add up to that number; a scan is completed iff none is unfinished |
| Coordinator.CompleteFinishesOne | src/distributed.rs:469-490 | each successful completion lowers the number of unfinished tasks by one, of one scan |
| Coordinator.NothingLeasableIff | src/distributed.rs:354-384 | nothing is leasable iff every unfinished task of every scan is held under an unexpired lease |
| Coordinator.NextExists | src/distributed.rs:354-384 | when something is leasable there is a least candidate by round and id |
| Coordinator.RenewOkIff | src/distributed.rs:438-447 | renewal succeeds iff the worker owns the running task |
| Coordinator.LeaseLasts | src/distributed.rs:399-407 | a leased task belongs to its worker and is leasable exactly later than thirty seconds after it was leased |
| Coordinator.RenewalLasts | src/distributed.rs:438-447 | so is a renewed one, counted from the renewal |
| Coordinator.FailedIsFree | src/distributed.rs:492-508 | a task given back has no owner, is leasable at once and carries the error |
| Coordinator.LeaseKeepsValid | src/distributed.rs:354-436 | leasing keeps the table invariant (owner iff running, slices fixed, completed iff all done, rows refine the log) |
| Coordinator.CompleteKeepsValid | src/distributed.rs:469-490 | so does completing |
| Coordinator.SubmitKeepsValid | src/distributed.rs:449-467 | so does submitting, by anyone |
| Distributed.RunTask | src/distributed.rs:978-1017 | fails iff simulation is off; otherwise observes exactly the slice's non-terminal endpoints, in order, each record decided by the thresholds of the configuration and counted for its round, and each total is the number of observations of that state |
| Distributed.AnswersByThresholds | src/distributed.rs:1173-1188 | with ratios o, c, u and sample x: open iff x < o, closed iff o <= x < o + c, unreachable iff o + c <= x < o + c + u beyond that, else no response; a banner iff open and banners are on |
| Distributed.TerminalHaveRows | src/distributed.rs:601-630 | an endpoint a lease lists as terminal already has a terminal row |
| Distributed.StepInv | src/distributed.rs:354-508 | every step of coordinator, worker or network keeps the protocol invariant |
| Distributed.CompletedScanIsSequential | src/distributed.rs:867-1017 | schedule independence: in every run, a completed scan holds exactly the rows of one sequential loop, with its addresses, services, states, banner statuses and a conflict count of zero |
| Distributed.RunsAgree | src/distributed.rs:867-1017 | any two runs that complete a scan agree on every row's address, service, state, banner status and conflict count |
| Distributed.ReachableLeases | src/distributed.rs:354-508 | in every reachable state: owner iff running, no task failed, their fixed number, completed iff all done |
| Distributed.ReachableRefines | src/distributed.rs:449-467 | in every reachable state the results table is the reduction of the observation log |
| Distributed.ReachableRows | src/distributed.rs:449-467 | in every reachable state each row belongs to an endpoint of its scan, tells what the thresholds say of it and has conflict count zero |
| Distributed.DoneIsAbsorbing | src/distributed.rs:354-508 | no step changes a task that is done |
| Workers.RunWorker | src/distributed.rs:867-941 | with every active scan simulated the loop terminates with nothing leasable; only tasks it did not find pending stay unfinished, untouched |
| Workers.WorkOnce | src/distributed.rs:877-940 | one turn, for any scans: nothing to lease iff nothing is leasable; else the first task is finished if its scan is simulated and given back if not |
| Workers.StuckStays | src/distributed.rs:907-939 | a pending task of an active scan without simulation is pending after every turn |
| Workers.StuckThroughout | src/distributed.rs:877-940 | and in every state of a loop of any length, which always finds work |
| Workers.IdleIff | src/distributed.rs:877-940 | started with no task running, the loop can go idle iff every active scan is simulated |
| Workers.StuckIsFirst | src/distributed.rs:354-384 | while such a task is pending no task later by round and number, of any scan, is next |
| Workers.StuckStarves | src/distributed.rs:354-384 | so those tasks stay exactly as they are for as long as the loop runs |
| Workers.IdleMeansFinished | src/distributed.rs:867-941 | if no lease was outstanding at the start, every scan is then completed with the sequential rows |
| RateLimit.TokenBucket.ConsumeAt | src/rate.rs:20-37 | the fields follow the bucket function the virtual-time law is about; the wait ends at the bucket's new time |
| RateLimit.TokenBucket.SetRateAt | src/rate.rs:38-51 | likewise for a change of rate, after which rate and capacity are those asked for |
| RateLimit.ApplyVirtual | src/rate.rs:20-51 | the bucket is GCRA: V' = max(V, a - burst) + cost, release at max(a, V'), 0 <= tokens <= capacity kept, across rate changes |
| RateLimit.RunBounded | src/rate.rs:20-51 | in any mixed run the bucket's time never goes back and the sending paid for is at most that time plus one burst |
| RateLimit.FreshRunBounded | src/rate.rs:11-51 | a new bucket is valid, so the bound holds for every run from the start |
| RateLimit.RunRate | src/rate.rs:38-51 | the rate of a bucket is that of the last change in any run, or its first |
| RateLimit.BytesBounded | src/rate.rs:20-51 | between rate changes the bytes let through are at most the rate times the time passed and one burst |
| RateLimit.BytesAfterChange | src/rate.rs:20-51 | after the last change of any run they are bounded by the rate it set |
| RateLimit.WithinBurstIsImmediate | src/rate.rs:20-37 | a request is not delayed iff its cost fits between the virtual time and now |
| Frames.DecisionIsStable | src/protocol.rs:27-157 | within the limit a decided answer never changes when bytes arrive, for all six protocols |
| Frames.AcceptedIsSelfDelimiting | src/protocol.rs:27-157 | an accepted length is positive, within the data, and accepted again on those bytes alone |
| FrameEnds.SshEnds | src/protocol.rs:36 | an SSH message is complete exactly with its first line feed |
| FrameEnds.GreetingEnds | src/protocol.rs:60-109 | an FTP or SMTP greeting ends with its first line behind a code and a space; behind a code and a dash with the line on which the code and a space first occur again; it is refused iff its first line begins with neither |
| FrameEnds.RedisEnds | src/protocol.rs:111-137 | a Redis reply ends with its first line, or with the bytes and the line break it announces |
| FrameEnds.BulkRefused | src/protocol.rs:121-137 | a bulk reply is refused iff its header is whole and announces no number |
| FrameEnds.BulkOversized | src/protocol.rs:121-137 | it is oversized iff what it announces reaches past 64 bits |
| FrameEnds.ParseIsizeIff | src/protocol.rs:121-137 | the announced length is the value of a decimal numeral, with or without a sign, within 64 bits |
| FrameEnds.PrefixedEnds | src/protocol.rs:27-157 | MySQL and PostgreSQL messages end where their length fields say, and are oversized or refused exactly then |
| Banners.ReadBanner | src/scanner.rs:996-1035 | the reading loop computes the status and evidence the chunking theorems are about |
| Banners.FittingStreamOutcome | src/scanner.rs:996-1035 | for a stream within the limit, status and accepted evidence depend on the stream alone |
| Banners.UnfinishedStatus | src/scanner.rs:1004-1017 | a message undecided at the end is a mismatch if the peer closed, a failed connection after a read error, a timeout after silence |
| Banners.CutIndependentIff | src/scanner.rs:996-1035 | the status is the same for all ways of cutting a stream into reads iff it fits, or its first decision leaves a buffer's margin |
| Banners.CutMatters | src/scanner.rs:996-1035 | a line break and one more byte within a one-byte limit: the cut decides |
| Parsers.GreetingParses | src/protocol.rs:295-333 | a MySQL greeting is framed whole and parses to its version, connection id and both capability halves |
| Parsers.MysqlParsesIff | src/protocol.rs:295-333 | parsing succeeds exactly on version 10 greetings with a closed version and room for the connection id, and reads every field at its place, missing ones as zero |
| Parsers.ParsePostgres | src/protocol.rs:376-409 | total on empty input and on five bytes or more; the last severity and message fields win |
| Parsers.AcceptedPostgresParses | src/protocol.rs:139-157 | every accepted PostgreSQL frame meets the parser's bounds |
| Parsers.NoticeParses | src/protocol.rs:376-409 | an error or notice is framed whole and parses to its last severity and message |
| SshKexInit.BuildProbe | src/scanner.rs:868-966 | the packet around the printed lists; total length a multiple of 8, padding of 4 to 11 bytes |
| SshKexInit.ParsePacket | src/protocol.rs:229-293 | the cursor-driven parser equals the function the round trip is about |
| SshKexInit.ParsedIsPacket | src/protocol.rs:229-275 | an accepted packet counts its own bytes, carries message 20 and has room for ten lists and what follows them |
| SshKexInit.Utf8Iff | src/protocol.rs:277-293 | the texts a list may hold are exactly the encodings of sequences of scalar values |
| SshKexInit.SplitJoin | src/protocol.rs:277-293 | splitting at commas undoes joining, for comma-free names |
| SshKexInit.ParsePrinted | src/protocol.rs:229-293 | parsing a printed packet reads back each list, whatever cookie and padding it carries |
| SshKexInit.RoundTripIff | src/scanner.rs:868-966 | the eight reported lists come back unchanged iff none is `[""]` or has a comma in a name |
| SshKexInit.RoundTripFails | src/scanner.rs:868-966 | a packet whose first list is `[""]` does not come back |
| Packets.FoldIsResidue | src/packet.rs:62-75 | folding terminates and yields the residue modulo 65535, zero only for zero |
| Packets.ChecksumLoop | src/packet.rs:62-75 | up to 131074 bytes the `u32` accumulator does not overflow and the loops compute the checksum |
| Packets.ChecksumZeroIff | src/packet.rs:62-75 | a checksum verifies iff the words sum to a positive multiple of 65535 |
| Packets.InsertedVerifies | src/packet.rs:62-75 | inserting the checksum into a zeroed field at an even offset makes the data verify |
| Packets.Encode | src/packet.rs:92-145 | the in-place writes produce the 60-byte packet laid out field by field |
| Packets.EncodedVerifies | src/packet.rs:92-145 | both checksums of every encoded packet verify |
| Packets.IpFieldsReadBack | src/packet.rs:118-127 | the fields of the IP header read back at their offsets |
| Packets.TcpFieldsReadBack | src/packet.rs:128-143 | so do those of the TCP header: SYN is the only flag and nothing is acknowledged |
| Packets.OptionsReadBack | src/packet.rs:94-115 | and the options, in their order |
| Attribution.SourcePortInRange | src/packet.rs:27-43 | automatic source ports stay in the range the capture filter admits |
| Attribution.TcpAttributedIff | src/scanner.rs:1553-1591 | a TCP packet is attributed to an endpoint iff it swaps its SYN's addresses and ports and acknowledges seq + 1 mod 2^32 |
| Attribution.FlagBits | src/scanner.rs:1576-1591 | a reply counts as SYN-ACK iff bits 1 and 4 of its flags are set, as reset iff bit 2 is |
| Attribution.TcpRoundTrip | src/scanner.rs:1511-1591 | a reply to an endpoint's SYN is seen at exactly that endpoint, as open if SYN and ACK are set, else as closed if RST is, behind any header options and either link header |
| Attribution.IcmpAttributedIff | src/scanner.rs:1593-1612 | an ICMP message is attributed to an endpoint iff it is type 3 or 11 and quotes that endpoint's SYN |
| Attribution.IcmpRoundTrip | src/scanner.rs:1701-1739 | an error packet that quotes the first 28 bytes of an encoded SYN, from any host and behind any header, marks its endpoint unreachable |
| Attribution.LinkReadIff | src/scanner.rs:1532-1551 | a frame behind an Ethernet or cooked link header is read as one iff its first byte does not start with the nibble 4 |
| Attribution.MisreadReply | src/scanner.rs:1532-1551 | a SYN-ACK that opens its endpoint when bare is not seen behind an Ethernet header starting with 0x40 |
| Attribution.Attribute | src/scanner.rs:1511-1612 | the handlers over the job files see exactly what the attribution theorems say |
| Replies.StateIsFirstArrival | src/scanner.rs:1614-1634 | over any events, restarts and torn replies included, the byte holds the highest-ranked reply and the attempt of that state's first arrival |
| Replies.ConflictsCountDisagreements | src/scanner.rs:1619-1621 | the conflict counter is the number of replies that differed from the highest state known then, saturated |
| Replies.DisagreementsIff | src/scanner.rs:1619-1621 | that number is positive iff two replies disagree |
| Replies.RttIsFrozen | src/scanner.rs:1628-1632 | a recorded round-trip time is never overwritten |
| Replies.RttIsFirstAnswer | src/scanner.rs:1628-1666 | it is set by the first reply to find a stamped probe, against the latest stamp |
| Replies.RttMeasures | src/scanner.rs:1662-1665 | it is the milliseconds from the last probe to that reply, times a thousand, plus one, up to the width of the word, and stays so |
| Replies.BannerOncePerRun | src/scanner.rs:1636-1660 | after the resume pass an endpoint is open iff queued or done, and a run hands it over at most once, exactly if it ends open and was not done |
| ScanFiles.ScanBuffers.ObserveResponse | src/scanner.rs:1614-1634 | one endpoint's bytes change as the event says, all others stay; answers whether it turned open |
| ScanFiles.ScanBuffers.EnqueueBanner | src/scanner.rs:1636-1660 | queues an endpoint once, with its address, service, attempts, round-trip time and conflicts |
| ScanFiles.ScanBuffers.HandlePacket | src/scanner.rs:1511-1612 | a packet changes only the endpoint it is attributed to, and queues it iff it turned open unqueued |
| ScanFiles.ScanBuffers.EnqueueResumeBanners | src/scanner.rs:1982-2006 | every open endpoint whose banner is not done is queued and sent once, in index order |
| ScanFiles.EndpointReadsBack | src/scanner.rs:1128-1148 | the job files give back every endpoint written to them |
| ScanFiles.SynAckOpens | src/scanner.rs:1553-1591 | from wire to bytes: a SYN-ACK to an endpoint's SYN leaves exactly that endpoint open and queued |
| ScanFiles.SynAckHands | src/scanner.rs:1636-1666 | the first SYN-ACK of a probed endpoint hands the inspector its index, endpoint, attempt and round-trip time |
| Rounds.CoveredStep | src/scanner.rs:2057-2100 | every step, crashes included, keeps: a silent endpoint the walk has passed was probed, on disk and in memory |
| Rounds.SingleStep | src/scanner.rs:2057-2172 | every step but a crash keeps: one SYN at most per round and endpoint, none ahead of the walk |
| Rounds.SilentProbedEveryRound | src/scanner.rs:2057-2172 | whatever crashes and restarts happen, a completed scan probed every silent endpoint in every round |
| Rounds.AtMostOncePerRound | src/scanner.rs:2057-2172 | across any graceful stops and resumes no endpoint gets two SYNs in a round |
| Rounds.SilentAttempts | src/job.rs:692-704 | a silent endpoint of a completed scan was sent exactly the configured attempts, at least that many if processes crashed |
| Rounds.PacketsSentRun | src/scanner.rs:2079-2082 | without crashes `packets_sent` is the number of SYNs sent, up to the counter's width |
| Rounds.WithinRoundsRun | src/scanner.rs:2065-2098 | nothing is sent outside the configured rounds |
| Rounds.CellFollowsEvents | src/scanner.rs:2008-2055 | in every run each endpoint's bytes follow its own events, so the laws about one endpoint hold for all |
| Rounds.AttemptsInRange | src/scanner.rs:2083-2098 | in every run, crashes included, every reply is counted for one of the configured attempts |
| Rounds.OnlyConfiguredAttempts | src/scanner.rs:1614-1634 | so in every run an endpoint is silent or its byte holds one of the configured attempts |
| Rounds.FirstReplyAttempt | src/scanner.rs:2057-2100 | without crashes the first reply is counted for as many attempts as its endpoint had been sent SYNs, and one more iff the round under way had not reached it |
| LiveScan.SynScan.PrepareBatch | src/scanner.rs:2102-2172 | passes silent and answered endpoints by steps of the machine, every packet the SYN its replies are checked against; no progress only if stopping |
| LiveScan.SynScan.SendBatch | src/scanner.rs:2174-2226 | all of a batch is sent and counted, or a send failed and the process's position is lost |
| LiveScan.SynScan.ConsumeInterruptible | src/scanner.rs:630-642 | granted iff the last look at the flag found it clear; a granted wait is slept in full slices |
| LiveScan.SynScan.Receive | src/scanner.rs:2258-2282 | for the attempt the position calls for, the cells and the hand-overs afterwards are those of the captured packets handled in order |
| LiveScan.SynScan.SendRounds | src/scanner.rs:2057-2100 | ends with position and checkpoint agreeing: all rounds over, or stopping, or a failed send; does not leave any set of moments closed under stamping and under one batch followed by handling what was captured after it; and one reception follows every pause |
| LiveScan.SynScan.FinishScan | src/scanner.rs:2284-2322 | completed iff all rounds are over; the final checkpoint index |
| LiveScan.SynScan.RunScan | src/scanner.rs:2008-2055 | one process keeps the job on a run of the machine, without a crash unless a send failed; without an error it completes or was asked to stop; it stays in such a set from the moment after the resume pass on, and listens after every pause and once at the end |
| LiveScan.SynScan.RunTold | src/scanner.rs:2008-2100 | so everything a process does is told by receptions: after the open endpoints without a finished banner are queued again, probes are stamped with the clock, and batches of at most 96 SYNs of round r are sent, each followed by handling every packet captured, for attempt r + 1 |
| LiveScan.ScanCounts | src/scanner.rs:2057-2172 | a scan kept on such runs has exact counts without crashes, stores only configured attempts, and silent endpoints got their attempts once completed |
| LiveScan.ScanWithRestarts | src/scanner.rs:2008-2172 | so for a new job run by any number of processes: orderly if no send fails, completed if some process neither fails nor is stopped, with those counts |
| Export.SynthesizeMissing | src/job.rs:621-721 | refused iff rounds are missing, the scan is degraded or a byte is undecodable; event rows stay, every other endpoint gets its row |
| Export.ExportedAttempts | src/job.rs:692-704 | for every run: the exported attempts are the SYNs sent to a silent endpoint, or the attempt of the final state's first arrival, one of those configured |

## Left out

- BLAKE3, seeds and result ids: uninterpreted functions; nothing is claimed about unpredictability or collisions.  Rows are keyed by endpoint instead of by their hash.
- SQLite, SQL text, TOML, JSON, CSV and file formats other than the job files: tables are maps, each `Store` method one atomic step.  Target files do not change during a distributed scan.
- Workers table, heartbeats, capabilities, `updated_at` and other timestamp columns, status and report queries.
- Attempt counts and timestamps of distributed results: not schedule independent, so nothing is claimed about them.
- Every observation of a submission is assumed to carry the request's scan id, and every simulated banner to parse.
- Other workers beside the loop of `Workers`: it runs alone against the tables, where `Distributed` interleaves any number of processes.
- `scanner::simulation`: the rounds again, without packets, batches or stops.
- Floating-point rounding in `rate.rs` and `simulated_state`: exact reals.  Rate and burst are positive and the burst is the same on every call.
- Validation of a configuration before the targets are prepared: ports are distinct, between one and three SYN attempts.
- `Permutation::get` inside `run_task`: the slice is read off before the loop over it, which does not change what is visited.
- Targets.ParseEntries: lines, comments and dotted addresses are parsed already; of a line's errors only a prefix over 32 is left.
- Targets.SortByStart: insertion stands for the library's unstable sort; `Merge` uses nothing but its contract.
- Byte order of the `u32` words in the mapped files; the words are array elements.
- The banner inspector's own thread: connections, retries, and the moments at which it marks banners done during `SendRounds` (the machine of `Rounds` allows them anywhere).
- LiveScan.SynScan.ConsumeInterruptible: the reservation behind the wait is an oracle; the bucket itself is in `RateLimit`.
- Loss of mapped pages in a machine crash: a process crash keeps them, as the code assumes.
- Packet fields replies are not checked against (ttl, window, timestamps, identification) are free in `LiveScan.SynScan.PrepareBatch`.
- Banner text details: lossy UTF-8, software names, SMTP domains, Redis kinds; conformance of multi-line replies to section 4.2 of RFC 959 is not claimed, since the code looks for the reply code anywhere after the first line.
- Raw sockets, libpcap, `sendmmsg`, traffic control, sysfs counters, signal handlers, the live SSH dialogue, progress printing, estimates and pruning.
