# Antidistractor: models and proofs

Antidistractor blocks distracting sites and programs. On Linux an eBPF program drops TLS
connections by server name, and a daemon changes what is blocked, denies program starts and
freezes processes. On macOS the daemon rewrites the hosts file and kills programs. On Android a
VPN service answers DNS queries. This project models the parts with real logic and proves what
they do, for every input, every run and every interleaving.

- **The packet classifier.** `SniParser` says what the classifier finds in any byte string;
  `SniClassifier` is the code itself, with its two 256-byte buffers and nested loops, proved to
  decide exactly that. `PacketVerdict` says the same of the bytes alone, without a parser: which
  packets can be dropped, and which always pass. `ClientHello` encodes structured ClientHello
  messages (section 4.1.2 of RFC 8446, server_name as in section 3 of RFC 6066) in TLS, TCP and
  IP, and `DomainRules` gives the verdict on each of them as a rule about names. `PlatformRules`
  compares that rule with the Android rule in `DnsText`. `BlocklistKeys` has the padded keys,
  `ByteStrings` the loads.
- **The control server.** `ControlState` says what each command does alone; `ControlServer` is the
  handlers, proved to do that. `LockMachine` runs programs over mutexes step by step,
  `ControlPrograms` writes every handler as such a program, `Serializability` and
  `DeadlockFreedom` prove what the names say. `StatusReads` has the one handler that is not
  two-phase, and exactly beside which commands it is serializable all the same;
  `StatusPrefixes` has exactly what it can report beside any number of them. `DomainRuns` has
  the invariant of whole runs, `StatusSync` the round trip of Status through Sync,
  `DefaultDomains` the commands that take a default domain out of the map, `CommandReplies`
  when a command succeeds and what its errors name.
- **The process freezer.** `ProcessTree` has the iterative traversal against the recursive
  post-order, `Freezer` one call at a time, `FreezerProtocol` every interleaving of calls.
  `FreezerRuns` ties the two together and says what stays stopped.
- **The Android DNS path.** `InternetChecksum`, `UdpPacket`, `DnsQuery` and `DnsVpn` go from the
  bytes read from the interface to the bytes written back. `DnsNames` says what is read from any
  bytes, `DnsAnswer` what a resolver reads in the reply.
- **The hosts file.** `HostsText` removes and rewrites the daemon's block in a text; `HostsFile`
  has the blocker's operations and whole runs of them with failing reads and writes.
  `HostsReader` reads the file as a resolver does: which addresses it gives a name.
  `SortedStrings` has the sorted lists that the daemon writes and answers.
- **Program matching.** `AppMatch` has the rule for a path, `AppCommands` what the commands for
  applications do to it, `ExecEvents` the loop over permission events, `AppWatcher` the two polling
  loops.

Where the code does not do what its documentation says, the model follows the code:

- README.md:72 of the repository filters for TCP port 443; the classifier has no such test, and
  the verdict does not depend on the ports: `SniParser.VerdictIgnoresPorts`, and
  `DomainRules.DroppedOnPort80` for a packet.
- docs/features.md:375 says that `sync` and `unblock` leave the default domains alone. `unblock`
  removes any domain it is given, and a default that is blocked again becomes dynamic, so that
  `sync` or the end of focus mode takes it out. `DefaultDomains` gives the exact condition for
  each of the three, shows that no other command loses a default, and has the run that does.
- The classifier loads `len | 1` bytes of the name, so a listed name of even length is missed
  unless a zero byte follows: `DomainRules.ListedNameDroppedIff`, and
  `DomainRules.ListedNameGetsThrough` for a packet.
- docs/features.md:149-164 states one rule for both platforms. Linux compares the extra byte,
  tries only the first ten dots and compares the name as it is written, while Android lower-cases
  it and trims trailing dots: `PlatformRules.PlatformsAgreeIff` gives the names on which they
  agree, with `PlatformRules.HiddenNameWitness`, `PlatformRules.ElevenDotsWitness` and
  `PlatformRules.CapitalWitness` for names on which they do not. A name of 128 bytes or more is
  never dropped on Linux and can be blocked on Android: `DomainRules.LongNameNeverDropped`,
  `PlatformRules.AnyLengthOnAndroid`.
- DnsVpnService.kt:205-206 promises that everything but UDP packets to 10.0.0.2:53 is written
  back as it is. An IPv4 header length that points outside the packet ends the loop instead, and
  one below 20 bytes makes the reader look for the UDP port inside the IP header:
  `DnsVpn.OtherTrafficUnchangedIff`, and `DnsVpn.ShortHeaderTaken` for a packet. What else ends
  the loop is in `DnsVpn.ThrowsIff`.
- `buildBlockedDnsResponse` marks a copy as a response and returns bytes of the query:
  `DnsQuery.ReplyMarkedIff`, `DnsQuery.QueryStaysUnmarked`.
- The traversal of the process tree collects a pre-order and calls it post-order; reversed, it is
  the post-order: `ProcessTree.CollectOrder`, `ProcessTree.SignalTree`.
- The hosts-file blocker can lose the user's lines in two ways: by a disable that cannot read the
  file but can write it, and by any write while a line of the trimmed user text is a marker, as a
  marker with a space behind it becomes, or ends in a carriage return.
  `HostsFile.UserTextSurvivesIff` is exact, `HostsFile.TextLostWitness` and
  `HostsFile.UnsettledWitness` have a run for each. A failed write is never made up for by asking
  again: `HostsFile.RetriesWriteNothing`.
- The length fields of a reply are cut to 16 bits: `UdpPacket.LengthsTrueIff`.

## Model

| member | source | states |
|---|---|---|
| SniClassifier.Classifier.Antidistractor | antidistractor-ebpf/src/main.rs:73-289 | for every byte string and blocklist the packet is dropped exactly when the located name, with its extra byte, or one of its first ten dot-suffixes is a stored key; errors pass; all buffer accesses are in bounds |
| SniClassifier.Classifier.LocateTcp | antidistractor-ebpf/src/main.rs:82-129 | the link and IP branches find the TCP payload that the specification finds, or stop where it stops |
| SniClassifier.Classifier.SkipToExtensions | antidistractor-ebpf/src/main.rs:131-161 | the cursor arithmetic over record, handshake and the three vectors ends at the extension block of the specification |
| SniClassifier.Classifier.FindSni | antidistractor-ebpf/src/main.rs:164-286 | the bounded extension loop finds the first host name of the first type-0 extension within 64 extensions and offset 1024, or nothing |
| SniClassifier.Classifier.ReadServerName | antidistractor-ebpf/src/main.rs:173-207 | a name is accepted only with type 0, length 1 to 127 and all of `len \| 1` bytes present |
| SniClassifier.Classifier.JudgeName | antidistractor-ebpf/src/main.rs:185-280 | exact key lookup, then the suffix walk, in the two in-place buffers, decide as the specification of a listed name |
| SniClassifier.Classifier.WalkSuffixes | antidistractor-ebpf/src/main.rs:236-279 | the nested scan and copy loops hit exactly when one of the first ten dot positions of the name starts a suffix whose padded key is stored; a dot in the extra byte never causes a lookup |
| SniClassifier.Classifier.CopySuffix | antidistractor-ebpf/src/main.rs:262-269 | the bounded copy leaves the suffix, zero-padded to 256 bytes, in the second buffer |
| SniClassifier.SuffixKey | antidistractor-ebpf/src/main.rs:259-269 | cutting the padded name at a dot and padding again is the key of the suffix of the name |
| SniParser.NameInPacket | antidistractor-ebpf/src/main.rs:82-207 | a located name lies whole inside the packet and below byte 1919 |
| PacketVerdict.DroppedIffCarried | antidistractor-ebpf/src/main.rs:73-289 | on arbitrary bytes, said of the bytes alone: a packet is dropped exactly when the headers, the handshake message, at most 64 linked extensions and a host name of 1 to 127 bytes stand in it, and the key of the loaded bytes or of a suffix from one of the first ten dots on is listed |
| PacketVerdict.DroppedHasListedKey | antidistractor-ebpf/src/main.rs:209-279 | a dropped packet has a listed key in its first 1919 bytes |
| PacketVerdict.NothingListedNothingDropped | antidistractor-ebpf/src/main.rs:209-279 | with an empty blocklist nothing is dropped |
| PacketVerdict.NoTcpPasses | antidistractor-ebpf/src/main.rs:82-123 | whatever is not TCP over IPv4 or IPv6, or ends before its protocol byte, passes under every blocklist |
| PacketVerdict.NoHelloPasses | antidistractor-ebpf/src/main.rs:131-138 | so does TCP whose payload is not a handshake record with a ClientHello, or ends before it says so |
| PacketVerdict.DatagramPasses | antidistractor-ebpf/src/main.rs:123 | a UDP datagram, byte for byte, passes |
| SniParser.VerdictReadsPrefix | antidistractor-ebpf/src/main.rs:73-289 | two packets that agree below index 1919, in their bytes or in ending there, get the same verdict |
| SniParser.VerdictIgnoresPorts | antidistractor-ebpf/src/main.rs:122-133 | on arbitrary bytes, changing the first four bytes of the TCP header, the two ports, never changes the verdict |
| DomainRules.DroppedOnPort80 | antidistractor-ebpf/src/main.rs:122-133 | a whole packet to port 80 with a listed one-letter name is dropped |
| SniClassifier.Classifier.SkbLoadU8 | antidistractor-ebpf/src/main.rs:40-55 | a one-byte load gives the byte or fails past the end; every call in the classifier shows that its offset is below 1919 |
| SniClassifier.Classifier.SkbLoadU16 | antidistractor-ebpf/src/main.rs:57-71 | the same for two bytes, high byte first |
| ClientHello.HelloFields | antidistractor-ebpf/src/main.rs:131-161 | the parser undoes the record, handshake and ClientHello encoding exactly when session id, cipher suites and compression are within 32, 512 and 32 bytes |
| ClientHello.ScanResult | antidistractor-ebpf/src/main.rs:163-286 | over any encoded extension block the bounded scan stops at the first server_name extension if that is reached within the two limits |
| ClientHello.NameInEncodedBlock | antidistractor-ebpf/src/main.rs:163-207 | the first name of that extension is found, with its bytes, exactly when it is a host name of 1 to 127 bytes with a byte after it if its length is even |
| ClientHello.LoadedFromFrame | antidistractor-ebpf/src/main.rs:73-207 | for every ClientHello in one record over TCP, IPv4 with any header length or IPv6, with or without an Ethernet header, what the classifier loads is the encoded name and the byte after it |
| DomainRules.NameListedMeaning | antidistractor-ebpf/src/main.rs:209-279 | key lookups decide as membership of names: padding confuses no two storable domains |
| DomainRules.VerdictOnFrame | antidistractor-ebpf/src/main.rs:73-289 | for every encoded ClientHello and every list of storable domains: dropped exactly when the host name as compared, or one of its first ten dot-suffixes, is in the list |
| DomainRules.DroppedIffListed | antidistractor-ebpf/src/main.rs:73-289 | with an odd length or a zero byte behind the name and at most ten dots, dropped exactly when the name or any dot-suffix is listed |
| DomainRules.ListedNameDroppedIff | antidistractor-ebpf/src/main.rs:197-212 | a ClientHello for a listed name is dropped under every list that has the name exactly when the length is odd or a zero byte follows (or the name starts with a dot) |
| DomainRules.ListedNameGetsThrough | antidistractor-ebpf/src/main.rs:197-212 | a whole packet with a listed two-letter name followed by a byte that is not zero is not dropped |
| DomainRules.LongNameNeverDropped | antidistractor-ebpf/src/main.rs:173-207 | no ClientHello whose first server name has 128 bytes or more is dropped, whatever is listed |
| PlatformRules.LinuxDecides | antidistractor-ebpf/src/main.rs:197-279 | for whatever is loaded: Linux blocks exactly when the compared bytes are an entry, or one of the first ten dots comes right before a listed domain |
| PlatformRules.LinuxMeaning | antidistractor-ebpf/src/main.rs:209-279 | when the compared bytes are the name, storing a domain and its dotted form blocks exactly the domain and the names below it that are reached within ten dots |
| PlatformRules.AndroidMeaning | antidistractor-android/app/src/main/java/com/antidistractor/vpn/DnsVpnService.kt:320-325 | equal-or-endsWith blocks exactly the domains and all names below them |
| PlatformRules.AgreeWithFewDots | docs/features.md:149-164 | for a lower-case name with at most ten dots, of odd length or followed by a zero byte, Linux and Android decide the same on every list of domains |
| PlatformRules.ElevenDotsDisagree | antidistractor-ebpf/src/main.rs:240 | for every lower-case name with more dots and none at its end (or nothing but dots), whatever byte follows, there is a list on which Android blocks and Linux does not |
| PlatformRules.ElevenDotsWitness | antidistractor-ebpf/src/main.rs:240 | such a name of 23 bytes, and its list |
| PlatformRules.HiddenNameDisagrees | antidistractor-ebpf/src/main.rs:197-212 | a lower-case name without a dot at either end whose extra byte is not zero: listed, it is blocked on Android and not on Linux, however few dots it has |
| PlatformRules.HiddenNameWitness | antidistractor-ebpf/src/main.rs:197-212 | such a name of two bytes, with the byte 1 after it |
| PlatformRules.OtherSpellingDisagrees | antidistractor-android/app/src/main/java/com/antidistractor/vpn/DnsVpnService.kt:320-325 | for every name with a capital or with a trailing dot there is a domain blocked on Android and not on Linux |
| PlatformRules.CapitalWitness | antidistractor-android/app/src/main/java/com/antidistractor/vpn/DnsVpnService.kt:320-325 | such a name of one capital letter |
| PlatformRules.AnyLengthOnAndroid | antidistractor-android/app/src/main/java/com/antidistractor/vpn/DnsVpnService.kt:320-325 | a listed name of any length is blocked on Android |
| PlatformRules.PlatformsAgreeIff | docs/features.md:149-164 | for every ASCII name of 1 to 127 bytes without a zero, and whatever is loaded for it, the platforms agree under every list exactly when the name is in lower case, does not end in a dot (unless it is all dots), has at most ten dots, and its extra byte is absent, zero, or (after a leading dot) unable to end a domain |
| BlocklistKeys.KeyInjective | antidistractor/src/ebpf.rs:98-101 | NUL-free domains of at most 256 bytes with the same key are the same |
| BlocklistKeys.KeyLayout | antidistractor/src/ebpf.rs:98-101 | the key of any name has 256 bytes: those of the name as far as they go, then zeros |
| BlocklistKeys.LookupIsMembership | antidistractor/src/ebpf.rs:94-116 | looking the key of a storable name up in the map is looking the name up in the list |
| ControlServer.EbpfManager.BuildKey | antidistractor/src/ebpf.rs:98-101 | copying at most 256 bytes to a zeroed array gives the key |
| ControlServer.EbpfManager.AddDomain | antidistractor/src/ebpf.rs:94-104 | inserting fails, changing nothing, exactly for a new key in a full map of 1024 |
| ControlServer.EbpfManager.RemoveDomain | antidistractor/src/ebpf.rs:106-116 | removing fails, changing nothing, exactly for an absent key |
| ControlServer.Server.Handle | antidistractor/src/control_server.rs:155-301 | every handler leaves the state and gives the reply of the command's specification |
| ControlServer.Server.AddDomains | antidistractor/src/control_server.rs:165-170 | the loop reports as added exactly what it stored, and the errors in order |
| ControlServer.Server.RemoveDomains | antidistractor/src/control_server.rs:182-186 | the loop removes what is there and reports the rest |
| ControlServer.Server.RetainOthers | antidistractor/src/control_server.rs:187-188 | the dynamic list keeps, in order, what is not named |
| ControlServer.Server.HandleSync | antidistractor/src/control_server.rs:196-228 | clear, store and replace the names, with the state and reply of the specification |
| ControlServer.Server.HandleFocusMode | antidistractor/src/control_server.rs:230-248 | both branches, with the state and reply of the specification |
| ControlServer.Server.HandleStatus | antidistractor/src/control_server.rs:339-364 | the payload has the flag, the list twice, the sorted paths, names and patterns sorted into one list, and the sorted frozen names |
| CommandReplies.AddReportsEach | antidistractor/src/control_server.rs:163-170 | every given domain is reported once, as added or as an error because the map is full |
| CommandReplies.BlockAnswers | antidistractor/src/control_server.rs:161-177 | Block succeeds exactly when the map can hold its keys and those of the domains; otherwise the errors are the domains that are not added to the list |
| CommandReplies.UnblockAnswers | antidistractor/src/control_server.rs:179-194 | Unblock succeeds exactly when every key is in the map and none is asked for twice |
| CommandReplies.SyncAnswers | antidistractor/src/control_server.rs:196-228 | Sync succeeds exactly when its domains fit beside what is left after clearing; its list and its errors are the given domains |
| CommandReplies.RetainInOrder | antidistractor/src/control_server.rs:187-188 | what Unblock leaves of the list keeps its order |
| DomainRuns.RemoveNamesMeaning | antidistractor/src/control_server.rs:266-275 | unblocking names takes the exact ones out of the names and those with a star out of the patterns, and nothing else |
| AppCommands.BlockAppMeaning | antidistractor/src/control_server.rs:250-262 | BlockApp adds to the paths, names and patterns what it lists, and changes nothing else |
| AppCommands.UnblockAppMeaning | antidistractor/src/control_server.rs:264-275 | UnblockApp takes out of them what it lists, and changes nothing else |
| AppCommands.BlockedAfterBlocking | antidistractor/src/control_server.rs:250-289 | afterwards a program in any directory is blocked exactly if it was, or its path or an entry that covers its name is listed |
| AppCommands.BlockedAfterUnblocking | antidistractor/src/control_server.rs:264-300 | after unblocking, exactly if its path was blocked and is not listed, or an entry that is not listed covers its name |
| AppCommands.NamesOnly | antidistractor/src/control_server.rs:277-300 | BlockApps and UnblockApps are the same without paths |
| AppCommands.UnblockUndoesBlockIff | antidistractor/src/control_server.rs:250-275 | unblocking what was just blocked restores the state exactly when none of it was blocked before |
| AppCommands.UnblockAllReported | antidistractor/src/control_server.rs:339-364 | unblocking the paths and names that Status reports leaves no path, name or pattern |
| AppCommands.FlagReported | antidistractor/src/control_server.rs:339-364 | the reported flag is set exactly when turning focus mode on with no domains changes nothing |
| ControlPrograms.ProgramTwoPhase | antidistractor/src/control_server.rs:160-301 | no handler that changes the state acquires a lock after releasing one |
| ControlPrograms.ProgramMeaning | antidistractor/src/control_server.rs:160-301 | each handler's lock program, run alone, leaves the state and the errors of the command |
| Serializability.StepKeepsInv | antidistractor/src/control_server.rs:145-301 | every step of any thread keeps the correspondence between the shared state, the threads' locks and a serial history |
| Serializability.Serializable | antidistractor/src/control_server.rs:145-301 | every finished interleaving of two-phase programs ends as running them one at a time in some order: same state, same results |
| ControlPrograms.CommandsSerializable | antidistractor/src/control_server.rs:160-301 | every interleaving of any number of state-changing commands ends with the map, list, flag, sets and replies of some serial order |
| StatusReads.StatusAlone | antidistractor/src/control_server.rs:340-349 | run alone, the three locked reads of Status see the list, the flag and the sets as they are |
| StatusReads.PairInvHolds | antidistractor/src/control_server.rs:339-364 | at every moment of every run beside a command, each part Status has read is as it was before the command or as it is after it |
| StatusReads.StatusSerializableIff | antidistractor/src/control_server.rs:339-364 | beside a command, every finished run leaves Status what one of the two orders gives, exactly when the command changes at most one of list, flag and sets |
| StatusReads.StatusTornIff | antidistractor/src/control_server.rs:196-248 | that fails exactly for FocusMode off in focus mode with a list, FocusMode on outside it when the map has room or has one of the domains, and Sync when what it stores is not the list and the names or patterns it is given are not the sets |
| StatusPrefixes.StatusSeesPrefixes | antidistractor/src/control_server.rs:145-364 | beside any number of commands: one order of them explains state and replies, and the list, the flag and the sets that Status reports are those after a first part of that order, each part no shorter than the one before |
| StatusPrefixes.StatusReportsIff | antidistractor/src/control_server.rs:339-364 | Status can report a list, a flag and sets beside given commands exactly when some order of the commands has such parts |
| DeadlockFreedom.ProgramOrdered | antidistractor/src/control_server.rs:160-301 | every command takes its locks in the order map, focus, dynamic list, apps, freezer |
| DeadlockFreedom.LoopsOrdered | antidistractor/src/app_blocker.rs:202-205 | so do the freeze, thaw, event and interface loops, for any number of rounds |
| DeadlockFreedom.NoDeadlock | antidistractor/src/control_server.rs:160-364 | in every reachable state of ordered programs somebody can step, or all are finished |
| DeadlockFreedom.RunsEnd | antidistractor/src/control_server.rs:160-364 | no run of the handlers is longer than the sum of their sizes |
| DeadlockFreedom.DaemonNeverDeadlocks | antidistractor/src/main.rs:203-275 | any mix of commands, Status, freezes, thaws, the event thread and the interface loop never deadlocks |
| DomainRuns.AddAllKeys | antidistractor/src/control_server.rs:165-171 | after adding, the map holds its old keys and the keys of exactly the domains reported as added, full map or not |
| DomainRuns.RemoveAllMeaning | antidistractor/src/control_server.rs:182-186 | after removing, the map holds its old keys without those of the named domains |
| DomainRuns.CommandKeepsInvIff | antidistractor/src/control_server.rs:160-301 | a command keeps the map equal to the defaults and the dynamic list, and the two disjoint, exactly when it names no default |
| DomainRuns.MapInEveryRun | antidistractor/src/main.rs:208-217 | from the start of the daemon, through every run that names no default, the map is the keys of the defaults and of the dynamic list |
| DomainRuns.DefaultsRestored | antidistractor/src/control_server.rs:241-246 | FocusMode off, or an empty Sync, then restores exactly the defaults |
| DomainRuns.SyncForgets | antidistractor/src/control_server.rs:196-228 | Sync makes the map, the list, the names, the patterns and the reply independent of the history |
| DomainRuns.SyncStores | antidistractor/src/control_server.rs:196-228 | with room for them, Sync stores exactly the given domains and names and reports no error |
| DomainRuns.AppsStaySeparated | antidistractor/src/control_server.rs:215-299 | every command keeps exact names free of entries ending in a star and patterns made only of such |
| DomainRuns.ConcurrentRunsKeepInv | antidistractor/src/control_server.rs:160-301 | the invariant also holds at the end of every interleaving of such commands |
| StatusSync.CommandKeepsTracked | antidistractor/src/control_server.rs:160-301 | every command on storable names, naming defaults or not, keeps the key of every dynamic domain in the map |
| StatusSync.TrackedInEveryRun | antidistractor/src/main.rs:208-217 | so it is in every run from the start, for any defaults |
| StatusSync.ConcurrentRunsKeepTracked | antidistractor/src/control_server.rs:160-301 | and at the end of every interleaving |
| StatusSync.StatusSyncRoundTrip | antidistractor/src/control_server.rs:339-364 | after any such run, sending Status's domains and merged names back through Sync changes nothing and reports no error, with duplicates, a full map and lost defaults included |
| DefaultDomains.DefaultsSurviveUnblockIff | antidistractor/src/control_server.rs:179-194 | from any map that holds the defaults, they survive Unblock exactly when it names none of them |
| DefaultDomains.DefaultsSurviveFocusOffIff | antidistractor/src/control_server.rs:241-246 | they survive the end of focus mode exactly when none of them is in the dynamic list |
| DefaultDomains.DefaultsSurviveStoringIff | antidistractor/src/control_server.rs:196-228 | they survive Sync exactly when those in the dynamic list are among what it stored |
| DefaultDomains.DefaultsSurviveSyncIff | antidistractor/src/control_server.rs:196-228 | with room in the map, exactly when those in the dynamic list are among what it was given |
| DefaultDomains.OtherCommandsKeepDefaults | antidistractor/src/control_server.rs:160-301 | no other command takes a default out |
| DefaultDomains.BlockedDefaultIsLost | antidistractor/src/control_server.rs:161-177 | any default, blocked again, is lost at the end of focus mode and at a Sync that does not name it |
| ProcessTree.BuildChildren | antidistractor/src/process_freezer.rs:99-117 | the map gives every pid its children in the order of the snapshot |
| ProcessTree.SnapshotSingleParent | antidistractor/src/process_freezer.rs:103-117 | a snapshot that lists every pid once gives every pid one parent |
| ProcessTree.ReversedPreOrder | antidistractor/src/process_freezer.rs:119-135 | the reversed right-to-left pre-order is the left-to-right post-order, cycles included |
| ProcessTree.CollectOrder | antidistractor/src/process_freezer.rs:119-131 | for any snapshot, even a cyclic one, the stack loop ends and lists exactly the reachable pids once each, parents first; with single parents it is the recursive pre-order |
| ProcessTree.SignalReversed | antidistractor/src/process_freezer.rs:133-141 | the signals go out in reverse order and the result lists those that arrived |
| ProcessTree.SignalTree | antidistractor/src/macos/process_utils.rs:205-243 | exactly the reachable pids are signalled once each; with single parents in recursive post-order, every other pid before its parent |
| Freezer.FreezerState.Freeze | antidistractor/src/process_freezer.rs:146-172 | a frozen name or one without processes changes nothing; otherwise all live pids under its processes are stopped, recorded and counted, and the answer lists the processes |
| Freezer.FreezerState.StopTrees | antidistractor/src/process_freezer.rs:159-163 | the collected set is exactly the live pids under the roots, and those are stopped |
| Freezer.FreezerState.FrozenNames | antidistractor/src/process_freezer.rs:22-26 | the sorted list of the frozen names |
| Freezer.FreezerState.Thaw | antidistractor/src/process_freezer.rs:175-202 | an unknown name changes nothing; otherwise the record is gone, its live pids and those of the name run again, and the answer counts them |
| Freezer.FreezeThenThaw | antidistractor/src/process_freezer.rs:146-202 | freezing a name and thawing it leaves the record as before and stopped exactly what was stopped outside its trees |
| FreezerRuns.CallsAlone | antidistractor/src/process_freezer.rs:146-202 | a concurrent call that is left alone until it returns leaves what the one-at-a-time calls leave: a freeze its targets stopped and recorded, a thaw the record gone and its pids running |
| FreezerRuns.CallCanReturn | antidistractor/src/process_freezer.rs:146-202 | from every state, every call that is left alone returns |
| FreezerRuns.CollectedStaysStopped | antidistractor/src/process_freezer.rs:159-172 | in every interleaving, a pid that a freeze has collected is stopped from then on until a thaw signals it |
| FreezerRuns.RecordedIsStopped | antidistractor/src/process_freezer.rs:146-202 | at every moment, every recorded or collected pid was collected by a freeze of that name, and is stopped unless a thaw has signalled it since |
| FreezerRuns.FreezesTogether | antidistractor/src/process_freezer.rs:146-172 | when any number of freezes have all returned, exactly the named names with processes are frozen, and exactly their targets are stopped |
| FreezerProtocol.StepKeepsInv | antidistractor/src/process_freezer.rs:146-202 | every step of every concurrent call keeps the invariant that accounts for stopped pids |
| FreezerProtocol.NobodyForgotten | antidistractor/src/process_freezer.rs:146-202 | at every moment every stopped pid is recorded, or collected by a freeze not yet recorded, or pending in a running thaw |
| FreezerProtocol.ThawingAllLeavesNothingStopped | antidistractor/src/process_freezer.rs:174-202 | once all calls have returned, thawing every listed name leaves nothing stopped |
| InternetChecksum.SumWords | antidistractor-android/app/src/main/java/com/antidistractor/vpn/DnsVpnService.kt:453-459 | the two-byte loop with its odd tail adds up the big-endian words |
| InternetChecksum.FoldRound | antidistractor-android/app/src/main/java/com/antidistractor/vpn/DnsVpnService.kt:460 | a round of the fold keeps the residue and makes the sum smaller, so the loop ends |
| InternetChecksum.IpChecksum | antidistractor-android/app/src/main/java/com/antidistractor/vpn/DnsVpnService.kt:452-462 | for any region of an IPv4 packet the loops compute the one's-complement checksum without leaving 31 bits |
| InternetChecksum.ChecksumVerifies | antidistractor-android/app/src/main/java/com/antidistractor/vpn/DnsVpnService.kt:432-435 | storing the checksum in its zeroed field makes the folded sum 0xFFFF and a second checksum 0 |
| InternetChecksum.VerifiesIff | antidistractor-android/app/src/main/java/com/antidistractor/vpn/DnsVpnService.kt:452-462 | a string has checksum 0 exactly when its word sum is a positive multiple of 65535 |
| InternetChecksum.WordChangeDetected | antidistractor-android/app/src/main/java/com/antidistractor/vpn/DnsVpnService.kt:452-462 | a changed word goes unnoticed only between 0 and 0xFFFF |
| InternetChecksum.SumOfSent | antidistractor-android/app/src/main/java/com/antidistractor/vpn/DnsVpnService.kt:452-459 | the sum over the bytes of any list of 16-bit words, sent high byte first, is the sum of the words |
| InternetChecksum.ExampleOfRfc1071 | antidistractor-android/app/src/main/java/com/antidistractor/vpn/DnsVpnService.kt:452-462 | the checksum of the example in section 3 of RFC 1071 is 0x220D |
| UdpPacket.BuildIpUdpPacket | antidistractor-android/app/src/main/java/com/antidistractor/vpn/DnsVpnService.kt:409-450 | the array writes produce the two headers and the payload |
| UdpPacket.HeaderVerifies | antidistractor-android/app/src/main/java/com/antidistractor/vpn/DnsVpnService.kt:418-435 | every header built has checksum 0 (section 3.1 of RFC 791) |
| UdpPacket.PacketRoundTrip | antidistractor-android/app/src/main/java/com/antidistractor/vpn/DnsVpnService.kt:265-294 | the extractors recover payload and source port from every built packet, and it is a DNS query exactly when it goes to port 53 of the fake server |
| UdpPacket.LengthsTrueIff | antidistractor-android/app/src/main/java/com/antidistractor/vpn/DnsVpnService.kt:409-450 | both length fields of a built packet are the true lengths exactly when the payload has at most 65507 bytes |
| DnsQuery.ParseDnsQueryDomain | antidistractor-android/app/src/main/java/com/antidistractor/vpn/DnsVpnService.kt:328-346 | on any bytes the loops read the labels up to a zero length or the end, and give null when a label is cut off |
| DnsQuery.QueryDomainRoundTrip | antidistractor-android/app/src/main/java/com/antidistractor/vpn/DnsVpnService.kt:328-346 | reading an encoded question (section 4.1.2 of RFC 1035) gives its labels, lower-cased and joined by dots |
| DnsNames.NameReadIff | antidistractor-android/app/src/main/java/com/antidistractor/vpn/DnsVpnService.kt:328-346 | on any bytes a name is read exactly when whole labels stand after the header, up to a zero byte or the end, and it is these labels in lower case, joined by dots |
| DnsQuery.BuildBlockedDnsResponse | antidistractor-android/app/src/main/java/com/antidistractor/vpn/DnsVpnService.kt:352-379 | on any bytes the returned expression, with its own scan for the end of the name, or an index error |
| DnsQuery.BlockedResponseLayout | antidistractor-android/app/src/main/java/com/antidistractor/vpn/DnsVpnService.kt:361-378 | for an encoded question the second scan ends at the same terminator: the reply is the query to the end of the class, then the 16-byte A record |
| DnsNames.AnsweredIffWhole | antidistractor-android/app/src/main/java/com/antidistractor/vpn/DnsVpnService.kt:361-378 | on any bytes with such labels, the reply is the query up to the end of its question and sixteen bytes more, or an index error when the question is cut off |
| DnsAnswer.BlockedAnswerIff | antidistractor-android/app/src/main/java/com/antidistractor/vpn/DnsVpnService.kt:361-378 | a reader of resource records (sections 4.1.3 and 4.1.4 of RFC 1035) finds after the question of the reply a record for the labels of the question with TYPE 1, CLASS 1, TTL 1 and the address 127.0.0.1 that ends the message, exactly when the labels have at most 63 bytes |
| DnsQuery.ReplyMarkedIff | antidistractor-android/app/src/main/java/com/antidistractor/vpn/DnsVpnService.kt:353-378 | the reply is marked as a response with one answer exactly when the query already was |
| DnsQuery.QueryStaysUnmarked | antidistractor-android/app/src/main/java/com/antidistractor/vpn/DnsVpnService.kt:353-378 | every encoded query that is not marked as a response is answered by a message that is not |
| DnsQuery.UnmarkedReplyWitness | antidistractor-android/app/src/main/java/com/antidistractor/vpn/DnsVpnService.kt:353-378 | such a query, byte for byte |
| DnsVpn.Process | antidistractor-android/app/src/main/java/com/antidistractor/vpn/DnsVpnService.kt:235-257 | one round of the loop writes what the specification of the packet path says, or throws where it does |
| DnsVpn.BlockedQueryAnswered | antidistractor-android/app/src/main/java/com/antidistractor/vpn/DnsVpnService.kt:208-259 | a query for a blocked name, in a UDP datagram with any legal IPv4 header, comes back as a packet to its port, holding the question and the loopback answer |
| DnsVpn.OtherQueryForwarded | antidistractor-android/app/src/main/java/com/antidistractor/vpn/DnsVpnService.kt:301-314 | such a query for any other name is answered with what the upstream server said, or passed through if it said nothing |
| DnsAnswer.BlockedNameResolved | antidistractor-android/app/src/main/java/com/antidistractor/vpn/DnsVpnService.kt:208-259 | a datagram to port 53 of 10.0.0.2 that asks for a blocked name comes back from there to 10.0.0.1 and the port it came from, with its header and 127.0.0.1 for the name |
| DnsAnswer.OtherNameResolved | antidistractor-android/app/src/main/java/com/antidistractor/vpn/DnsVpnService.kt:208-259 | one that asks for another name comes back with what the upstream server said, or as it was when that said nothing |
| DnsAnswer.PacketFields | antidistractor-android/app/src/main/java/com/antidistractor/vpn/DnsVpnService.kt:409-450 | every field of a built packet, at its place: lengths, no fragments, time to live 64, protocol 17, addresses, ports, no UDP checksum, payload |
| DnsVpn.OtherTrafficUnchangedIff | antidistractor-android/app/src/main/java/com/antidistractor/vpn/DnsVpnService.kt:205-281 | a packet that is no UDP datagram to port 53 of the fake server is written back as it was, whatever is blocked or answered, exactly when its IPv4 header length stays inside it, and is not below 20 with the word two bytes on read as port 53 and a question found behind it |
| DnsVpn.ShortHeaderTaken | antidistractor-android/app/src/main/java/com/antidistractor/vpn/DnsVpnService.kt:271-280 | a packet with a header length of zero whose total length is taken for the port: it is no datagram to the fake server, and does not come back |
| DnsVpn.ThrowsIff | antidistractor-android/app/src/main/java/com/antidistractor/vpn/DnsVpnService.kt:216-259 | the loop ends on a packet exactly when its header length points outside it, or it is a query for a blocked name that is cut off before the end of its question |
| DnsNames.CutIff | antidistractor-android/app/src/main/java/com/antidistractor/vpn/DnsVpnService.kt:361-378 | the second kind, said of the bytes: the labels of a blocked name stand in the query and its type or class does not |
| HostsText.RemoveBlock | antidistractor/src/macos/pf_blocker.rs:163-172 | the line loop with its flag keeps exactly the lines outside blocks |
| HostsText.KeptConcat | antidistractor/src/macos/pf_blocker.rs:163-172 | removing blocks from two runs of lines is removing them from each, the second starting in the state the first ends in |
| HostsText.BlockDropped | antidistractor/src/macos/pf_blocker.rs:110-122 | a block written by the daemon is removed whole, wherever the scan was before it |
| HostsText.UserTextAgain | antidistractor/src/macos/pf_blocker.rs:106-129 | the user's part survives being written with a block and read again exactly when none of its lines is a marker or ends in a carriage return |
| HostsText.UpdateShrinks | antidistractor/src/macos/pf_blocker.rs:106-137 | an update never makes the user's part longer, and makes one with such a line shorter |
| HostsText.UpdateTwiceIff | antidistractor/src/macos/pf_blocker.rs:106-137 | updating twice is updating once with the second set, exactly for such user parts |
| HostsText.PlainContentSettled | antidistractor/src/macos/pf_blocker.rs:163-172 | content without carriage returns and without a marker followed by white space has such a user part |
| SortedStrings.SortStrings | antidistractor/src/macos/pf_blocker.rs:95-99 | the list is the set in increasing order, each string once |
| SortedStrings.SortedUnique | antidistractor/src/macos/pf_blocker.rs:114-116 | there is one such list, so the order in which the set is visited does not show |
| SortedStrings.LexLeqIff | antidistractor/src/macos/pf_blocker.rs:97-98 | the order is that of the first character that differs, a beginning before the longer string |
| SortedStrings.SortBoth | antidistractor/src/control_server.rs:344-348 | two sets collected into one list and sorted: ordered, with every string as often as the sets have it |
| HostsFile.PfBlocker.UpdateHostsFile | antidistractor/src/macos/pf_blocker.rs:104-137 | the file becomes its user part and the sorted block of the current set, or stays as it is when a read or write fails |
| HostsFile.PfBlocker.AddDomain | antidistractor/src/macos/pf_blocker.rs:70-82 | dotted and known domains change nothing; a failed write is reported after the set has changed |
| HostsFile.PfBlocker.RemoveDomain | antidistractor/src/macos/pf_blocker.rs:85-92 | unknown domains change nothing; a failed write is reported after the set has changed |
| HostsFile.PfBlocker.DisableBlocking | antidistractor/src/macos/pf_blocker.rs:58-146 | the set is cleared; an unreadable file counts as empty and a failed write is ignored |
| HostsFile.FileAfterRun | antidistractor/src/macos/pf_blocker.rs:58-137 | after any run, with any failures, the file is the original content (nothing, once a disable has written without having read) updated once with the set at the last write, when the user's part is settled |
| HostsFile.FileListsCurrentSet | antidistractor/src/macos/pf_blocker.rs:58-137 | when no access fails, the file lists the current set after every operation, or nothing was written yet and the set is empty |
| HostsFile.InStepIff | antidistractor/src/macos/pf_blocker.rs:70-92 | after any such run with a write in it, the file lists the current set exactly when the last write was made with it |
| HostsFile.RetriesWriteNothing | antidistractor/src/macos/pf_blocker.rs:75-80 | after a failed write, adding the same domain again, however often, changes neither set nor file |
| HostsFile.DisableRestores | antidistractor/src/macos/pf_blocker.rs:58-63 | disabling after any run leaves the trimmed user text of the original content and a newline, or a newline alone once a disable has written without having read |
| HostsFile.UserTextSurvivesIff | antidistractor/src/macos/pf_blocker.rs:139-146 | for every content, the user's text survives a run exactly when nothing was written, there was no text, or no line of it is a marker or ends in a carriage return and no disable of the run writes without having read |
| HostsFile.TextLostWitness | antidistractor/src/macos/pf_blocker.rs:139-146 | one user line and one disable that cannot read the file: the line is gone |
| HostsFile.UnsettledWitness | antidistractor/src/macos/pf_blocker.rs:106-129 | a start marker with a space behind it is a line of the user, and is gone after one domain is added, with every access working |
| HostsFile.FileTellsDomains | antidistractor/src/macos/pf_blocker.rs:110-122 | different sets leave different files |
| HostsFile.LinesOfUpdate | antidistractor/src/macos/pf_blocker.rs:110-128 | an updated file has the user's lines, then the markers around an IPv4 and an IPv6 line for each domain |
| HostsFile.OneDomainWritten | antidistractor/src/macos/pf_blocker.rs:106-129 | the file for one domain, character for character |
| HostsFile.SetAfterRun | antidistractor/src/macos/pf_blocker.rs:58-92 | after any run, with any failures, the set holds exactly the domains that were added, do not start with a dot, and were not removed or disabled since |
| HostsReader.BlockedNamesResolve | antidistractor/src/macos/pf_blocker.rs:110-129 | a reader of hosts files finds in an updated file the addresses 127.0.0.1 and ::1 for every listed domain, besides what the user's text gives, and for any other name exactly what the user's text gives |
| HostsReader.NamesResolveAfterRun | antidistractor/src/macos/pf_blocker.rs:58-146 | the same after any run in which something was written, for the set at the last write |
| AppMatch.CheckPath | antidistractor/src/app_blocker.rs:36-57 | a path is blocked exactly by itself, by its file name, or by a pattern whose part before the star starts the file name |
| AppMatch.CheckProcess | antidistractor/src/macos/app_watcher.rs:37-76 | the same for a process, whose short name counts as well |
| AppMatch.FileNameInDirectory | antidistractor/src/app_blocker.rs:41 | in any directory, with or without a trailing slash, a file has its own name |
| AppMatch.NoFileName | antidistractor/src/app_blocker.rs:41 | a path that ends in .. has no file name, nor have the empty path, / and .; a dot at the end does not count |
| AppCommands.BlockedInDirectoryIff | antidistractor/src/app_blocker.rs:36-57 | a program in any directory is blocked exactly when its path is listed, or its name, or a prefix of its name followed by a star |
| AppCommands.ProcessInDirectoryIff | antidistractor/src/macos/app_watcher.rs:37-76 | the same for a running process, by its path's name or its short name; without a path only the short name counts |
| AppMatch.RulesAgreeIff | antidistractor/src/macos/app_watcher.rs:37-76 | on listed processes the macOS rule is the Linux rule, except that a process without a file name passes for one with the empty name |
| AppMatch.InsertedNameBlocks | antidistractor/src/control_server.rs:250-262 | a name or pattern sent to the control server blocks every program of that name in every directory |
| ExecEvents.AppBlocker.Drain | antidistractor/src/app_blocker.rs:144-232 | on any buffer the loop ends, and answers, closes and notifies as the reactions to the events it finds, in order |
| ExecEvents.AppBlocker.Handle | antidistractor/src/app_blocker.rs:159-231 | no descriptor, own pid, other mask, blocked and not blocked: each branch has the reaction of the specification |
| ExecEvents.ReadRecord | antidistractor/src/app_blocker.rs:60-70 | the header fields of an encoded record read back, and the next record starts where the length says |
| ExecEvents.VisitsRecords | antidistractor/src/app_blocker.rs:146-157 | a buffer of whole records is visited record by record, each once and in order |
| ExecEvents.AnsweredOnce | antidistractor/src/app_blocker.rs:146-232 | a valid descriptor gets one answer and one close, and a denial exactly for a blocked execution by another process |
| ExecEvents.DeniedIff | antidistractor/src/app_blocker.rs:159-231 | by the fields of the record: denied exactly when the pid is another's, the execution bit is set and the path, or "<unknown>", is blocked; the daemon's own events never are |
| ExecEvents.NoticeNamesProgram | antidistractor/src/app_blocker.rs:211-229 | the notice after a denial names the program |
| ExecEvents.EffectsPaired | antidistractor/src/app_blocker.rs:159-231 | on any bytes in the buffer, every answer is for a valid descriptor and is followed at once by its close, and a denial by a notice |
| AppWatcher.RunShared | antidistractor/src/macos/app_watcher.rs:131-157 | the shared loop selects by the path it resolves lazily |
| AppWatcher.CheckAndKill | antidistractor/src/macos/app_watcher.rs:182-202 | the owned loop selects by the path it resolves lazily |
| AppWatcher.LazyIsEager | antidistractor/src/macos/app_watcher.rs:136-202 | with stable paths both loops select the pids that resolving every path selects |
| AppWatcher.SharedIsEagerIff | antidistractor/src/macos/app_watcher.rs:131-157 | for a listed process that has since become anything: the shared loop selects it exactly when asking for its path would, if and only if its short name makes the loop ask or is blocked, or its new path is blocked exactly when its listed path was, without having a file name |
| AppWatcher.KilledIffBlocked | antidistractor/src/macos/app_watcher.rs:182-202 | a listed process is killed exactly when the Linux rule blocks its path, or its path has no file name and the empty name is blocked; never the daemon, nor pid 1 and below |
| AppWatcher.NeverKilled | antidistractor/src/macos/app_watcher.rs:137-139 | however paths are found: every pid on a kill list is one of the process list, is above 1, and is not the daemon's |

## Left out

- FreezerProtocol.NobodyForgotten: the process table is fixed while calls run and signals to live pids arrive; processes that fork, exit or reuse a pid are not in the model.
- FreezerProtocol.ThawingAllLeavesNothingStopped: the same fixed table.
- FreezerRuns.RecordedIsStopped: the same fixed table, and nothing but the daemon sends signals.
- DeadlockFreedom.DaemonNeverDeadlocks: the event and interface loops, which never end, are taken for any number of rounds; a mutex poisoned by a panic is not modelled.
- ControlServer.Server.HandleStatus: the uptime and the platform name are not in the payload.
- StatusReads.StatusSerializableIff: the condition is for Status beside one command; beside several, StatusPrefixes.StatusReportsIff says what it can report, without a condition for that to be the state at one moment.
- ControlServer.Server.Handle: an error is a pair of domain and reason, not the joined message text; FreezeApp, ThawApp and Status are not among its commands, since Freezer, FreezerProtocol and StatusReads model them.
- ClientHello.LoadedFromFrame: the message is in one TLS record at the start of one TCP segment; other packets are covered by the statements about arbitrary bytes.
- PlatformRules.PlatformsAgreeIff: the bytes of a name are ASCII and not zero, so that both platforms see the same characters; listed domains are lower-case ASCII without a leading dot.
- DomainRuns.MapInEveryRun: the defaults are any list of storable domains that fits the map, rather than the literal list.
- DnsQuery.ParseDnsQueryDomain: a byte above 127 becomes the sign-extended character that the code appends, and none of those has a lower-case form; other Unicode case folding does not arise.
- UdpPacket.BuildIpUdpPacket: addresses are four bytes, not dotted text.
- HostsText.RemoveBlock: the text is a sequence of characters; decoding the file as UTF-8 is not modelled.
- HostsReader.BlockedNamesResolve: for domains without blanks, '#' and line ends, and user text in which no line is a marker or ends in a carriage return; others are written as they are.
- HostsFile.PfBlocker.UpdateHostsFile: the temporary file, the rename and the DNS cache flush are one write that succeeds or fails; nobody else edits the file during a run.
- AppMatch.CheckPath: paths are text; a file name that is not UTF-8 is not modelled.
- ExecEvents.AppBlocker.Drain: the path behind a descriptor and the blocked set at the time of its lookup are inputs, one pair for each event; a failed write of an answer is only logged by the source and is not modelled.
- AppWatcher.CheckAndKill: the kill list is proved; sending the signals and the notifications is not modelled.
- Kernel side of the maps: BLOCKLIST is a set of at most 1024 keys in which only a new key can fail to be stored.
- Loading and attaching the eBPF program, interface detection, and the network stack below the packet bytes.
- Reading /proc, `ps`, the fanotify and readlink calls: their results are inputs.
- JSON parsing, sockets, and the macOS variant of the command handler, which repeats the Linux arms over the hosts-file blocker.
- Upstream DNS forwarding is a function from query to optional reply.
- The terminal interface, Android activities, the iOS app, notifications, and the screen-lock daemon.
