# Knoten, verified

Knoten keeps a WireGuard mesh together: `meshd` on every machine holds a peer
book, a file and a tunnel in step with each other, and a coordination server
hands out addresses and lists the machines that are alive. This project models
the parts of both that keep state and proves what they promise, from a row in
the server's table to the peers of a machine's device.

`dafny verify dfyconfig.toml` checks everything.

## How it is organised

Every algorithm of the source that changes things step by step is a method with
its loops, or a class with its fields; each is proved equal to a function, and
what the source promises is proved about those functions, over whole runs. What
such a function computes is also stated without it, in terms of what goes in and
comes out: those lemmas end in `Exact`, or name what they are about. Lemmas carry
`{:induction false}` where Dafny would try induction by itself.

| part | files |
|---|---|
| addresses, keys and their texts | `Text`, `Netip`, `Keys`, `Ordering`, `Sequences`, `Wrappers` |
| the tunnel: the device as an interpreter, the script, what it does, whole histories, its text | `WgState`, `Device`, `Reconcile`, `Convergence`, `Retarget`, `Apply`, `History`, `Overlap`, `ScriptText`, `Tunnel` |
| the server: addresses, the table, its history, who is listed | `Ipam`, `Machines`, `Enrolment`, `Liveness`, `Schedule` |
| meshd: the book, the file, the run invariant, restarts, the backoff | `PeerBook`, `Book`, `ConfigFile`, `Validation`, `Meshd`, `SavedFile`, `MeshdRuns`, `PeerMemory`, `Backoff` |
| the pass, that it succeeds when nothing stands in its way, the daemon as an object, all of it together, and runs that end badly | `Pass`, `PassRuns`, `Fitting`, `Daemon`, `EndToEnd`, `Failures` |

The device follows the "Configuration Protocol" section of the WireGuard
cross-platform document (https://www.wireguard.com/xplatform/), which
`internal/wg/runtime.go:5` names: `public_key` selects or creates a peer,
`replace_allowed_ips` clears its prefixes, `allowed_ip` takes a prefix away
from whoever has it, `remove` deletes. As in wireguard-go, lines about the machine's
own key go nowhere, setting the private key drops a peer with the key that
belongs to it, and ports and keepalives outside 16 bits end the session. A
session can also break off after any number of lines.

`curve` stands for Curve25519 and `parseKey` for base64, both as arbitrary
functions. Times are in nanoseconds, and seconds are cut off as `Time.Unix`
does. Keys are the numbers that their 32 bytes spell, most significant byte
first: `Keys.KeyOrder` shows that comparing them as numbers is comparing them
as `bytes.Compare` does. The clock, the file's content, the server's replies,
the drawn jitter, the walking order of maps and every failure are parameters,
so the results hold for all of them.

What an Apply achieves depends on what was asked for before. The results keep
books of that (`History.Ledger`): what is owed after a failure, which peers may
lack prefixes because of an overlap, and which are other tools'.

## Where the code does less than it says

- Peers added by other tools are "left alone" (`internal/wg/runtime.go:26-28`):
  they keep their settings, but lose exactly the prefixes that a rewritten peer
  claims (`Convergence.StrangerLosesExactly`).
- meshd.json may list two static peers with the same prefix
  (`Failures.OverlapIsAccepted`). While it does, one of them lacks the prefix,
  and it may go on lacking it when the other is gone, because it is skipped as
  unchanged: `Failures.OverlapOutlivesItself` is such a run, `Overlap.OverlapSpoils`
  the same for any two peers of which one claims all that the other does, and
  `Convergence.ScriptReachesExactly` and `History.SuccessExact` say exactly when a
  reported success is one.
- After a failed `Apply`, another target need not be reached:
  `Retarget.ForgottenPeer` is a case, `Retarget.RetargetExact` says exactly when
  it is.
- `peerFromServer` lets an all-zero key through and `Validate` does not, so
  `saveFile` can write a file that meshd then rejects (`Failures.ZeroKeyIsSaved`);
  `SavedFile.WrittenIsReadBack` says exactly when it does not.
- A save that takes up an unseen edit and then fails to write leaves `lastRead`
  behind what is in use. If the file is put back to those bytes, the next save
  hides the difference: `Failures.PinSurvivesItsRemoval` is such a run,
  `PeerMemory.RevertedEditSticks` every run of its kind, and
  `PeerMemory.RevertedSaveExact` says exactly when no harm is done. The next
  edit that is read puts all in order again (`MeshdRuns.AlwaysOrderly`).
- `server.New` demands a peer timeout longer than the sync interval so that one
  missed poll hides nobody (`internal/server/server.go:43-47`), but sends the
  interval in whole seconds. Below one second clients fall back to 30 seconds
  and healthy machines vanish (`Liveness.SubSecondIntervalVanishes`).

## Model

| member | source | states |
|---|---|---|
| Convergence.ScriptReaches | internal/wg/runtime.go:44-105 | From any device on which what the script does not send is already right (so from any that agrees with the applied configuration), the whole script gives exactly the wanted interface, keepalives, prefix ownership and given endpoints, for every removal order, swaps and moved prefixes included, and the machine never ends up as its own peer |
| Convergence.ScriptReachesExactly | internal/wg/runtime.go:44-105 | From any device whatever and for every removal order, the script reaches its target if and only if no two wanted peers claim the same prefix, and each peer it skips has the right settings, owns what it claims, and owns beyond that only what a rewritten peer takes from it |
| Convergence.EndpointsAfter | internal/wg/runtime.go:95-99 | After the script each wanted peer has its given endpoint; without one it has what the device knew of it before, or none if it is new |
| Convergence.RewrittenAfter | internal/wg/runtime.go:63-76 | A peer that is sent is configured as wanted whoever else claims its prefixes, and owns them all if nobody else does |
| Convergence.ScriptReachesIffDisjoint | internal/wg/runtime.go:44-105 | From a device that agrees with the applied configuration, the script reaches its target if and only if no two wanted peers claim the same prefix |
| Convergence.ScriptKeys | internal/wg/runtime.go:58-81 | Afterwards the peers on the device are those from before, without the applied ones that are no longer wanted and without the machine itself, and those that were sent, whoever else is on the device |
| Convergence.StrangerKept | internal/wg/runtime.go:26-28 | However far a script gets, a peer that Knoten does not manage keeps its presence, endpoint and keepalive, gains no prefix, and loses at most prefixes of rewritten peers |
| Convergence.StrangerLosesExactly | internal/wg/runtime.go:63-81 | A whole script takes from such a peer exactly the prefixes that rewritten peers claim, whether or not wanted peers overlap |
| Convergence.InterruptionIsHarmless | internal/wg/runtime.go:34-36 | Wherever a script breaks off, what it does not send is still right, so the same target can be retried with the old applied configuration |
| Convergence.InterruptionKeys | internal/wg/runtime.go:34-36 | A script that breaks off adds no peer beyond those of the two configurations |
| Reconcile.PeerBlock | internal/wg/runtime.go:95-105 | Whatever the device had before, a peer block leaves the peer configured as wanted, owning exactly its claims |
| Reconcile.DropBlock | internal/wg/runtime.go:78-81 | A removal leaves no peer under that key and no prefix routed to it |
| Reconcile.BlocksContents | internal/wg/runtime.go:58-81 | The script has one block for each wanted peer that is new or changed, one removal for each applied key that is no longer wanted, and no other |
| Reconcile.LinesFrame | internal/wg/runtime.go:44-84 | Lines that never select a peer leave its settings alone and take from it only prefixes that they give to others |
| Reconcile.AgreesDisjoint | internal/wg/runtime.go:44-84 | A device can only agree with a configuration in which no two peers claim the same prefix |
| Device.StepKeepsSane | internal/wg/runtime.go:44-56 | No line makes the device its own peer or leaves prefixes routed to a peer that is gone, provided the private key is set before peers are selected, as the script does |
| Apply.ChangesExact | internal/wg/runtime.go:21-24 | Added, Updated and Removed are the sizes of want minus applied, of the keys with changed settings, and of applied minus want |
| Apply.NothingCounted | internal/wg/runtime.go:30-33 | Nothing is counted exactly when the two configurations are settings-equivalent |
| Apply.EquivalentExact | internal/wg/runtime.go:86-91 | Which is to have the same private key, port and, under the same keys, the same endpoints, keepalives and prefixes |
| Apply.NamesDoNotCount | internal/wg/runtime.go:86-91 | So renaming peers, listing them in another order, and another address or MTU count as no change and send nothing |
| Apply.SkipIsExact | internal/wg/runtime.go:30-33 | Nothing is counted if and only if the script is empty |
| Apply.EquivalentAgrees | internal/wg/runtime.go:87-91 | A device agrees with one of two settings-equivalent configurations exactly when it agrees with the other, so a skipped Apply may keep the old one |
| Apply.ApplyConverges | internal/wg/runtime.go:29-41 | Whoever else has peers on the device and whatever was damaged before: a success leaves the wanted peers configured as wanted and those of other tools, and the remembered configuration equivalent to the wanted one, sent or skipped; a failure leaves the tunnel owing the same target; only peers that share a claim, or were damaged and are not sent, may lack a prefix |
| Apply.DisjointDoesNoDamage | internal/wg/runtime.go:63-76 | A target without shared claims damages nothing, and makes whole again what it sends |
| Apply.SucceedsExactly | internal/wg/runtime.go:29-41 | If its values fit the fields of the protocol, an Apply fails if and only if there is something to send and the session breaks down |
| Apply.OwingTransfers | internal/wg/runtime.go:34-36 | After a failure, a target that is safe to ask for instead is owed just as the failed one |
| History.HistoryConverges | internal/wg/runtime.go:29-41 | Over every history of successes, failures after any number of lines, skips, reopened tunnels and changes by other tools to their own peers, in which a failure is followed by the same target or a safe one: each success leaves exactly the peers asked for and those of other tools, configured as wanted; the targets may overlap, and only peers damaged by that may lack prefixes |
| History.StrangersOverHistory | internal/wg/runtime.go:26-28 | Over any stretch of attempts, failed and successful, a peer that nobody asks for keeps its presence, endpoint and keepalive, gains no prefix, and loses at most prefixes claimed meanwhile |
| History.SuccessExact | internal/wg/runtime.go:29-41 | After every history whatever, of any targets, failures and changes by other tools, an Apply that reports success has reached its target if and only if no two of its peers claim the same prefix and what it skipped was right |
| Overlap.OverlapSpoils | internal/wg/runtime.go:58-81 | For every interface and every two peers of which the second claims all that the first does: on a new tunnel both are asked for, and then only the first; both attempts succeed, the device keeps the first without its prefixes, and every later attempt is skipped |
| History.NoOverlapNoDamage | internal/wg/runtime.go:58-81 | A history without overlapping targets never damages a peer |
| History.NobodyElse | internal/wg/runtime.go:78-81 | Without other tools no key stays on the device that is not wanted |
| Retarget.RetargetExact | internal/wg/runtime.go:29-41 | If another target follows a failure, it is reached wherever the failed script broke off if and only if what the new script skips the failed one skipped too, and every peer the failed one may have added is covered |
| Retarget.ForgottenPeer | internal/wg/runtime.go:34-39 | On every device: a peer is asked for beside those applied, the Apply fails, and the peer is no longer wanted; it may stay on the device |
| Tunnel.WriteTo | internal/wg/runtime.go:95-105 | Writes the text of the peer's block |
| Tunnel.Diff | internal/wg/runtime.go:44-84 | Writes the text of the script from applied to want, for the order in which the map happened to be walked, and counts the changes |
| Tunnel.Tunnel.constructor | internal/wg/link_linux.go:24-28 | A new tunnel has no peers and remembers an empty configuration |
| Tunnel.Tunnel.IpcSet | internal/wg/runtime.go:35 | One session: the lines take effect in order until one is refused or the session breaks, and success means all of them did |
| Tunnel.Tunnel.Apply | internal/wg/runtime.go:29-41 | The exact new state of device and remembered configuration; and, whatever was damaged and whoever else has peers there, a tunnel that owed the target has reached it on success and owes it still on failure |
| ScriptText.LineRoundTrip | internal/wg/runtime.go:48-104 | Every line of text is read back as the command it was written for, or refused exactly when its value is out of range |
| ScriptText.LineFormat | internal/wg/runtime.go:48-104 | The lines have the names that the configuration protocol gives them, numbers in decimal and keys in hex |
| ScriptText.ScriptRoundTrip | internal/wg/runtime.go:48-104 | Reading the text of any script gives back its commands one by one: blocks cannot run into each other |
| ScriptText.RenderInjective | internal/wg/runtime.go:48-104 | Two scripts that the device takes in full never have the same text |
| ScriptText.ObeyRuns | internal/wg/runtime.go:35 | Sending the text runs the commands, as far as the session gets |
| Keys.KeyRoundTrip | internal/key/key.go:50-52 | A key's text is 64 lower-case hex digits that spell the key (section 8 of RFC 4648) |
| Keys.HexSpellsBytes | internal/key/key.go:50-52 | Digits 2i and 2i+1 of a key's text are the high and the low half of its i-th byte, written 0123456789abcdef |
| Keys.KeyOrder | internal/peerbook/peerbook.go:197-201 | Comparing keys byte by byte is comparing them as numbers |
| Ordering.LexLessExact | internal/store/store.go:237-245 | In the order of texts the first difference decides, and a proper prefix comes first |
| Netip.AddrRoundTrip | internal/store/ipam.go:38-63 | A text is read as an address exactly when it is that address's text |
| Netip.AddrTextInjective | internal/store/ipam.go:47-57 | Different addresses have different texts, so membership tested on texts is membership of addresses |
| Netip.AddressBytes | internal/store/ipam.go:47-57 | An address is written as its four bytes in decimal, the most significant first, with dots between them |
| Netip.AddrPortExact | internal/daemon/daemon.go:366-370 | A text is read as an endpoint exactly when it is an address, a colon, and the port in digits |
| Netip.ContainsIsRange | internal/store/ipam.go:47 | A prefix contains exactly the addresses from its network address to its broadcast address |
| Netip.PrefixRoundTrip | internal/store/store.go:92-94 | A text is read as a prefix exactly when it is that prefix's text |
| Netip.MaskedIdempotent | internal/daemon/config_files.go:163-168 | Masking twice is masking once |
| Ipam.ReservedIPs | internal/store/ipam.go:25-35 | The texts of exactly the two addresses after the start of the range, also where the address space ends before them |
| Ipam.NextFreeIP | internal/store/ipam.go:38-63 | Hands out what Allocate specifies, for every range and every set of used texts, and ends even when the range reaches 255.255.255.255 |
| Ipam.AllocateExact | internal/store/ipam.go:38-63 | Sound, complete and minimal: an address is handed out if and only if one is free, and it is the least that is not network, broadcast, reserved or used |
| Ipam.AllocatableIs | internal/store/ipam.go:19-63 | What may be handed out is exactly base+3 up to the address before the broadcast address, 2^(32-bits)-4 addresses |
| Ipam.ParsedIsRange | internal/store/ipam.go:66-83 | A text is accepted if and only if it is that of a prefix of length 29 or less, and as that range from its network address on |
| Ipam.VPNRangeIsRange | internal/store/ipam.go:19 | The built-in range is accepted as it stands |
| Machines.Store.RegisterMachine | internal/store/store.go:96-196 | The new table and the result are those of Register: a known key keeps address and creation time, a new one gets the next free address or nothing changes |
| Machines.Store.ListUsed | internal/store/store.go:144-167 | The addresses of all rows |
| Machines.Store.Sync | internal/store/store.go:198-275 | An unknown caller changes nothing; otherwise only its row is updated and the other rows at or after the cut-off come back in address-text order |
| Machines.Store.SelectPeers | internal/store/store.go:237-268 | Row by row, the listing that the query asks for |
| Machines.Store.CountMachines | internal/store/store.go:277-287 | How many rows there are, and how many were seen at or after the cut-off |
| Machines.ListingLength | internal/store/store.go:237-287 | A caller's list is as long as the count of live machines, itself aside |
| Enrolment.InsertNeverFails | internal/store/store.go:30-42 | Registering never runs into the primary key or the unique address |
| Enrolment.RegisterNew | internal/store/store.go:144-196 | A new key gets an address that is not in use, its row says what it reported and when, and no other row changes; without a free address nothing does |
| Enrolment.RegisterAgain | internal/store/store.go:106-142 | Registering again takes over what the machine reports, keeps address and creation time, and takes no address |
| Enrolment.AlwaysEnrolled | internal/store/store.go:30-42 | Over every run of registers, syncs and rows deleted by hand, no two keys share an address and every address is in the part of the range for machines |
| Enrolment.AddressIsStable | internal/store/store.go:106-142 | Over every run in which its row is not deleted, a key keeps its address and creation time |
| Enrolment.NextAddress | internal/store/store.go:144-196 | With n machines in a dense table the next one gets base+3+n, and is refused if and only if n is the capacity |
| Enrolment.AlwaysDense | internal/store/store.go:96-275 | From an empty table and without deletions, n machines always hold exactly base+3 through base+2+n |
| Enrolment.ListingExact | internal/store/store.go:237-268 | In every reachable table a sync lists exactly the other rows seen at or after the cut-off, each once, in address-text order and with distinct addresses |
| Liveness.ListedWithinTimeout | internal/server/handlers.go:92 | Heard of within the timeout means listed, and silent for a second more means hidden, whatever the fractions of seconds |
| Liveness.NeverVanishesExact | internal/server/handlers.go:92-107 | Silences of up to a given length never hide a machine, at any phase of the clock, if and only if that length is within the timeout |
| Liveness.PollingStaysListed | internal/client/client.go:81-83 | Silences as long as the interval that machines really use plus the delay never hide one if and only if they fit in the timeout; for intervals of a second or more it is enough that the delay fits in timeout minus interval; the interval they use is the configured one in whole seconds, or 30 seconds if that is less than one |
| Liveness.SubSecondIntervalVanishes | internal/server/server.go:40-47 | Half a second and one second are accepted timings under which machines that poll on time vanish |
| Liveness.LastSeenIsLatest | internal/store/store.go:198-213 | Over every run, a row's last_seen is the second of that key's latest request, and its endpoint and port are those that request came with |
| Liveness.NameIsRegistered | internal/store/store.go:198-213 | Over every run, a machine has the name it was last registered with, however often it has synced since |
| Liveness.ListedOverRuns | internal/store/store.go:198-275 | Over every run, a machine is in another machine's list if and only if its latest request was no earlier than the cut-off in whole seconds; so within the timeout always, and a second beyond it never |
| Liveness.PollersAreListed | internal/store/store.go:198-275 | Over every run in time order: if a machine's silences between its polls fit in the timeout, it is in the list of every sync by another machine between two of its polls |
| Liveness.TimelyPollersAreListed | internal/server/server.go:40-47 | The same for the interval that the server sends, of at least a second, and polls late by no more than timeout minus interval |
| Schedule.HealthyDaemonIsListed | internal/daemon/daemon.go:238-262 | If a daemon's syncs succeed and take and start within bounds that fit in timeout minus interval, planned as syncIfDue plans them, then its machine is in the list of every sync by another machine from its first to its last |
| Backoff.BackoffIsExponential | internal/daemon/daemon.go:528-538 | After any history that ends in k failures in a row the stored backoff is min(2^k, 60) seconds; a success starts over at one second |
| Backoff.WaitsAreBounded | internal/daemon/daemon.go:528-538 | Every wait is between the stored backoff and 5/4 of it, so never above 75 seconds, and the bound for the jitter is always positive |
| Backoff.SyncsAreSpaced | internal/daemon/daemon.go:241-262 | Over every run of calls of syncIfDue and unless somebody asks for a sync: after a success with the interval n the next sync begins n seconds after its end at the earliest, 30 seconds if n is not positive, and a call from then on does sync |
| PeerBook.SameMapsIsEquality | internal/peerbook/peerbook.go:177-187 | For maps under own keys, holding the same peers is being equal, although same does not compare keys |
| PeerBook.LoadedOk | internal/peerbook/peerbook.go:78-88 | Loading a configuration with unique keys gives three maps under own keys, with the right sources and no key in two of them |
| PeerBook.WithServerListOk | internal/peerbook/peerbook.go:92-106 | Taking a server's list keeps that, whatever the server sent |
| PeerBook.WithManualEditsOk | internal/peerbook/peerbook.go:114-130 | Taking edits keeps that |
| PeerBook.ServerListExact | internal/peerbook/peerbook.go:92-106 | After a sync the synced keys are exactly those that the server listed and the file neither pins nor blocks; static and blocked entries stay, and the book becomes dirty exactly if the synced ones changed |
| PeerBook.LaterEntryWins | internal/peerbook/peerbook.go:92-106 | If the server lists a key twice, the later entry counts |
| PeerBook.ManualEditsExact | internal/peerbook/peerbook.go:114-130 | After an edit the static and blocked entries are exactly the file's, the synced ones are the old ones without their keys, the book becomes dirty exactly if the file lists the synced ones differently, and a change of the manual entries is reported exactly if there is one |
| PeerBook.ByKeyOfDistinct | internal/peerbook/peerbook.go:189-195 | With unique keys, each entry of a list is found under its key |
| PeerBook.SortedPeersByKey | internal/peerbook/peerbook.go:134-154 | The sorted list of a map's entries indexes back to the map |
| Book.HoldSamePeers | internal/peerbook/peerbook.go:177-187 | Compares sizes and then entries of one map only, and decides sameness of both |
| Book.SortByKey | internal/peerbook/peerbook.go:197-201 | Rearranges the list in place so that keys are in order |
| Book.Book.constructor | internal/peerbook/peerbook.go:67-73 | A new book is empty and clean |
| Book.Book.LoadFromConfig | internal/peerbook/peerbook.go:78-88 | The file's static and blocked entries, and its synced ones if a server is used |
| Book.Book.SetFromServer | internal/peerbook/peerbook.go:92-106 | The server's list without pinned and blocked keys; dirty if it differs from before |
| Book.Book.UpdateManualPeers | internal/peerbook/peerbook.go:114-130 | The file's static and blocked entries, the synced ones without those keys; dirty if the file's synced entries differ from them and a server is used; and whether the manual entries changed |
| Book.Book.Peers | internal/peerbook/peerbook.go:134-144 | Static and synced entries, sorted by key, whatever order the maps are walked in |
| Book.Book.ServerPeers | internal/peerbook/peerbook.go:147-154 | The synced entries sorted by key |
| Book.Book.MarkSaved | internal/peerbook/peerbook.go:162-164 | The book is clean and otherwise as it was |
| ConfigFile.ValidateExact | internal/daemon/config_files.go:111-172 | A configuration is accepted if and only if it is acceptable, and then comes out in normal form; what that is, the next rows say |
| ConfigFile.AcceptedExact | internal/daemon/config_files.go:111-172 | It is accepted if and only if the port is unset or within 1-65535, the keepalive within 0-65535, the machine's name at most 64 bytes without control characters, there is a server or an address, and every entry has a known source or none, a key of its own that is not zero and, unless blocked, prefixes, all valid |
| ConfigFile.NormalisedExact | internal/daemon/config_files.go:111-172 | The accepted configuration has lost the white space around server URL and join token, has port 51820 for an unset one, source static for an unset one and masked prefixes but for blocked entries, and is otherwise the given one |
| ConfigFile.FaultExact | internal/daemon/config_files.go:111-172 | It is rejected with an error if and only if that error is what is wrong with it: the first fault in the order of the checks and of the entries, with the index of the entry, of the earlier one with its key, or of the prefix |
| ConfigFile.Utf8LengthExact | internal/protocol/protocol.go:83-95 | The length of a name is in bytes of UTF-8 |
| Text.TrimSpaceExact | internal/daemon/config_files.go:112-113 | Trimming cuts off white space at both ends, all of it and nothing else |
| ConfigFile.ValidateIdempotent | internal/daemon/config_files.go:111-172 | What was accepted is accepted again, unchanged |
| ConfigFile.ParsedInUse | internal/daemon/config_files.go:75-91 | What is read from a file is in normal form, acceptable, and has known sources only |
| ConfigFile.FileRoundTrip | internal/daemon/config_files.go:75-100 | Writing a configuration in use and reading it back gives it again |
| Validation.ValidatePeers | internal/daemon/config_files.go:130-169 | The first fault in the order of the entries, or all entries normalised: in the order given, keys, names and endpoints kept, unset sources static, prefixes masked but for blocked entries |
| Validation.Validate | internal/daemon/config_files.go:111-172 | The first fault in the order of the checks, or the normalised configuration |
| Validation.ParseConfig | internal/daemon/config_files.go:75-91 | A file that cannot be decoded or is not valid is an error; otherwise its normalised configuration |
| SavedFile.WritesOnlyItsParts | internal/daemon/daemon.go:444-478 | Every setting but the address and a new key is as on disk; the entries that are not the server's are as on disk and in the same order, whatever is between them; after them come the synced peers whose keys those do not have, by key; keys stay unique; without a server nothing but a new key changes |
| SavedFile.MergedDistinct | internal/daemon/daemon.go:481-496 | Merging never lists a key twice, and what it adds is strictly sorted |
| SavedFile.WrittenIsReadBack | internal/daemon/daemon.go:444-478 | The written file is in normal form, is accepted if and only if no key of the added entries is unset, and is then read back as written |
| MeshdRuns.StartInvariant | internal/daemon/daemon.go:164-176 | A daemon that has just loaded its file satisfies the run invariant |
| MeshdRuns.StepKeepsInvariant | internal/daemon/daemon.go:179-478 | Every edit, check, sync, save, new key and restart keeps it, whatever fails, unless it saves over reverted bytes |
| MeshdRuns.RunKeepsInvariant | internal/daemon/daemon.go:179-478 | In every state reachable without saving over reverted bytes the manual peers and the settings are those of the configuration last adopted, a clean book is listed in that configuration, and lastRead stands for it unless a save is torn |
| MeshdRuns.AlwaysOrderly | internal/daemon/daemon.go:179-478 | In every state of every run whatever, the three maps share no key and hold entries under own keys, and the next edit that is read makes the whole invariant true again |
| MeshdRuns.UseEditsGood | internal/daemon/daemon.go:200-228 | Taking up an edit makes the daemon follow it, whatever it followed before, and marks the book dirty unless the file lists the server's peers as the book does |
| MeshdRuns.SyncGood | internal/daemon/daemon.go:266-293 | Any replies to a sync leave the manual peers and the settings alone, and mark the book dirty if the server's list changed |
| MeshdRuns.SettingsNeedRestart | internal/daemon/daemon.go:224-227 | Over every run without a restart, whatever is edited, server URL, tokens, MTU and private key stay as they were at the start |
| Meshd.SyncTakesAnswer | internal/daemon/daemon.go:266-293 | A sync succeeds exactly when the server answered and the registrations on the way worked; then the book has that answer's list, the machine that answer's address with the length it had or was registered with, and no setting but the address changes, which is then owed to the file; a failure leaves the book alone and keeps what registrations brought |
| Meshd.AssignedAddressExact | internal/daemon/daemon.go:313-326 | A registration assigns an address if and only if the reply names one and some range; its length is the range's if that is one, else 32 |
| Meshd.PeerFromServerExact | internal/daemon/daemon.go:350-372 | An entry of the server's list is taken if and only if its key, its address and its endpoint can be read, white space around them aside, and as what they say: the endpoint it spells, or none if it is blank |
| Meshd.ServerPeersInOrder | internal/daemon/daemon.go:336-347 | The readable entries are taken in their order, and no others |
| Meshd.MergedInOrder | internal/daemon/daemon.go:481-496 | A merged list has the entries on disk that are not the server's, in their order, and after them the server's entries whose keys are not among them, in theirs |
| Meshd.EditChangesOnly | internal/daemon/daemon.go:200-228 | An edit changes port, keepalive and name, without a server the address, no other setting, and nothing of what is owed to the file but by the book |
| PeerMemory.RestartRemembers | internal/daemon/daemon.go:164-176 | After a crash, the file as meshd left it brings back the same book, and with it the same peers for the tunnel, without a reply of the server |
| PeerMemory.SaveThenRestart | internal/daemon/daemon.go:444-478 | After a successful save with a server, a restart resumes with the same peers, address, port and keepalive; the file is accepted if and only if no key on the saved list is unset |
| PeerMemory.AssignedAddressIsSaved | internal/daemon/daemon.go:329-332 | An address that a sync brought is owed to the file, and the next save puts it there and owes nothing more, a key included |
| PeerMemory.NewKeySurvives | internal/daemon/daemon.go:147-160 | A key that was just made is in the file before it is used, is not owed any more, and a restart comes back with it |
| PeerMemory.EditKeepsServerList | internal/peerbook/peerbook.go:108-130 | Whatever synced entries an edited file has, the book's are the old ones without the keys that the file pins or blocks |
| PeerMemory.StaleEditIsCorrected | internal/daemon/daemon.go:430-478 | An old copy of the file cannot bring back an old server list: after the next save the file lists the book's synced peers, which are the old ones without pinned and blocked keys |
| PeerMemory.RevertedSaveExact | internal/daemon/daemon.go:444-478 | A save over reverted bytes keeps the run invariant if and only if the file happens to say what is in use |
| PeerMemory.RevertedNewKeyExact | internal/daemon/daemon.go:149-160 | Saving a new key over reverted bytes keeps the run invariant if and only if the file happens to say what is in use |
| PeerMemory.RevertedEditSticks | internal/daemon/daemon.go:453-478 | An edit of the static peers, a save that takes it up and fails to write, an undone edit and a save leave meshd with static peers that the file does not have, and with nothing to make it look again |
| Failures.PinSurvivesItsRemoval | internal/daemon/daemon.go:453-478 | A run of a daemon that has just started: check, registration, someone's pinned peer found by a save that cannot write and gone at the next; the file is written without the peer, meshd goes on using it, and the invariant is broken |
| Failures.ZeroKeyIsSaved | internal/daemon/daemon.go:350-372 | A run of a daemon that has just started: the server lists one peer with an all-zero key, meshd takes it and saves, and the file it has written is one that it rejects |
| Failures.OverlapIsAccepted | internal/daemon/config_files.go:128-169 | A file with two static peers that claim the same prefix is accepted |
| Failures.OverlapOutlivesItself | internal/daemon/daemon.go:395-427 | A run of a daemon that has just started with two such peers in its file: a pass, one of them is taken out, another pass; both report success and the peer that is left has no prefix |
| Pass.TargetKeys | internal/daemon/daemon.go:395-427 | The tunnel is asked for each key once: the static and synced ones without the machine's own |
| Pass.TargetExact | internal/daemon/daemon.go:395-417 | For each static and synced peer but this machine the tunnel is asked for one with its name, key, prefixes and endpoint and with the keepalive in use, and for no other, in the order of their keys; and for the private key, port, address and MTU in use |
| Pass.TargetRealizable | internal/daemon/daemon.go:395-427 | What applyPeers asks for always has unique keys and never the machine itself, and can be reached if and only if no two of its peers claim the same prefix |
| Pass.UpdateConverges | internal/daemon/daemon.go:130-145 | A successful update leaves the device matching the book, be the tunnel kept, opened after it died, recreated under a new address, or one whose last update failed; a failed one owes the target; before there is an address nothing happens; all this as long as the tunnel's books are kept, and an update that asks for what may be asked for keeps them |
| Pass.UpdateDoesNoDamage | internal/daemon/daemon.go:395-427 | An update to a target without overlaps damages nothing |
| Pass.ReopeningPass | internal/daemon/daemon.go:376-392 | A pass whose tunnel died, or has another address, goes as one without a tunnel, with new books, whatever had become of the old ones |
| Pass.SafePassKeepsBooks | internal/daemon/daemon.go:130-145 | Passes whose updates ask for what may be asked for keep the books |
| Pass.SyncBook | internal/daemon/daemon.go:266-293 | A failed sync leaves the book alone, and no sync changes the key or what was last read |
| Pass.PassConverges | internal/daemon/daemon.go:111-126 | Whatever the tunnel owed before: if the pass's last update succeeds, the device has by its books exactly the static and synced peers but this machine and those of other tools, as the book then has them, and none that is blocked, whatever the server sent; if not, the tunnel owes them and is ready for another try |
| Pass.QuietPassConverges | internal/daemon/daemon.go:111-126 | If the save meets no unseen edit, that holds for the book as the pass leaves it |
| Pass.QuietCheckIsReady | internal/daemon/daemon.go:136-142 | While the check finds nothing new, a failed update is simply tried again |
| Pass.EveryPassConverges | internal/daemon/daemon.go:73-126 | Over any number of passes whatever, with edits, dead tunnels, changed addresses, other tools, and failed updates, syncs and saves among them |
| PassRuns.PassIsRun | internal/daemon/daemon.go:111-126 | A pass does to the daemon and the file what a check, a sync and a save do, with an edit before the save if the file has changed by then |
| PassRuns.PassKeepsInvariant | internal/daemon/daemon.go:111-126 | Every pass keeps the run invariant, whatever fails in it, unless it saves over reverted bytes |
| PassRuns.PassStaysCalm | internal/daemon/daemon.go:444-478 | As long as no save has been torn, none saves over reverted bytes, and none becomes torn that can write or that meets no unseen edit |
| PassRuns.DeviceFollowsFile | internal/daemon/daemon.go:111-126 | After a pass whose last update succeeds and whose save meets no unseen edit, by its books the device has every static peer of the adopted file and every synced one, at the endpoint it is listed with, with the file's keepalive, and routes to it its prefixes and no others; it has none that the file blocks, the file's port, and no others but those of other tools, whatever failed before |
| PassRuns.OpeningIsStart | internal/daemon/daemon.go:73-79 | A start that gets to its first pass has a key, which is in the file if it was made just now, and the run invariant holds |
| PassRuns.LifeInOrder | internal/daemon/daemon.go:73-126 | From the start of a daemon, which may have had to make its key, over any number of passes whatever: the daemon is orderly and what is on the tunnel's books is right; as long as no pass saves over reverted bytes the run invariant holds, and after each pass as above the device follows the file |
| PassRuns.BooksAreRegained | internal/daemon/daemon.go:376-392 | Books that were lost are regained when the tunnel is opened anew |
| Fitting.RunKeepsFit | internal/daemon/daemon.go:179-478 | Over every run the port and the keepalive in use fit in 16 bits and the static peers' prefixes are valid |
| Fitting.PassSucceeds | internal/daemon/daemon.go:111-145 | So the device refuses nothing: a pass in which tunnels can be opened and no session breaks down leaves the tunnel up to date if there is an address or the sync brings one |
| Fitting.UnhinderedTurnSucceeds | internal/daemon/daemon.go:73-126 | That holds at any point of a daemon's life, whatever failed before |
| Daemon.Daemon.constructor | internal/daemon/daemon.go:47-69 | A new daemon has the configuration, an empty book, no tunnel, nothing to save and the first backoff |
| Daemon.Daemon.LoadPeers | internal/daemon/daemon.go:164-176 | Puts the configuration's peers in the book |
| Daemon.Daemon.TakeEdits | internal/daemon/daemon.go:200-228 | Takes up peers, port, keepalive and name, and the address only without a server |
| Daemon.Daemon.CheckFile | internal/daemon/daemon.go:179-197 | An unread, unchanged or faulty file changes nothing but what was last read; another is taken up |
| Daemon.Daemon.WriteFile | internal/daemon/daemon.go:444-478 | Takes up unseen edits, writes meshd's parts, and marks everything as saved; on an error nothing is marked |
| Daemon.MergePeers | internal/daemon/daemon.go:481-496 | Manual entries as on disk and in their order, then the server's whose keys are not among them, in theirs |
| Daemon.Daemon.WriteIfNeeded | internal/daemon/daemon.go:432-441 | Saves exactly when the book is dirty or an address is unsaved |
| Daemon.Daemon.EnsureKey | internal/daemon/daemon.go:149-160 | Makes a key only if there is none, saves it before it is used, and derives the public key from it |
| Daemon.Daemon.StartUp | internal/daemon/daemon.go:73-79 | Loads the peers, checks the file and ensures a key; without a saved key it goes no further |
| Daemon.ReadServerPeers | internal/daemon/daemon.go:336-372 | What the readable entries of the server's list mean, in their order, broken ones skipped |
| Daemon.Daemon.Register | internal/daemon/daemon.go:302-332 | Takes the assigned address with the range's length, or /32 if the range makes no sense, and owes it to the file; a broken reply changes nothing |
| Daemon.Daemon.SyncOnce | internal/daemon/daemon.go:266-293 | Registers first without an address and once more if the server does not know the machine, then takes the server's list; a failure on the way leaves the book alone |
| Daemon.Daemon.NextBackoff | internal/daemon/daemon.go:528-538 | Doubles the stored backoff up to its limit and waits for the old one and the jitter |
| Daemon.Daemon.SyncIfDue | internal/daemon/daemon.go:241-262 | Syncs exactly when due, and plans the next one n seconds after the sync ended for an interval n above 0, 30 seconds after it for another, and by the backoff after a failure; the object's timers are always those of the run of its calls |
| Daemon.Daemon.HurrySync | internal/daemon/daemon.go:98-99 | Makes the next sync due at once, and changes nothing else |
| Daemon.Daemon.DropDeadTunnel | internal/daemon/daemon.go:519-526 | Forgets a tunnel that was shut down from outside |
| Daemon.Daemon.KeepTunnel | internal/daemon/daemon.go:376-392 | Keeps a tunnel with this address, replaces one with another, opens one if there is none |
| Daemon.Daemon.WantedTunnel | internal/daemon/daemon.go:395-417 | The configuration that TargetExact describes, built peer by peer |
| Daemon.Daemon.ApplyPeers | internal/daemon/daemon.go:395-427 | Applies it to the tunnel, for some order in which leftover keys are removed |
| Daemon.Daemon.RefreshTunnel | internal/daemon/daemon.go:130-145 | Does nothing without an address; otherwise ensures the tunnel and applies the peers, and says how that went |
| Daemon.Daemon.RunPass | internal/daemon/daemon.go:111-126 | The state, the tunnel, the file and the outcomes after one pass are those that Pass specifies, with removal orders that were possible |
| EndToEnd.SyncedPeersDisjoint | internal/daemon/daemon.go:336-372 | For every history of the server, caller and cut-off, no two synced peers with different keys claim the same prefix |
| EndToEnd.SyncedKeysExact | internal/server/handlers.go:92-107 | For every history of the server, the synced peers after a sync are exactly the other live machines that are neither pinned nor blocked, entries that cannot be read aside, and each has its row's name, address and endpoint |
| EndToEnd.TargetDisjoint | internal/daemon/daemon.go:395-427 | Static peers whose prefixes are apart from each other and from the synced ones give a target that can be reached |
| EndToEnd.SyncedTargetDisjoint | internal/daemon/daemon.go:266-293 | So a daemon that takes a reply from any reachable table has one, if its static peers are apart |
| EndToEnd.ServerToDevice | internal/daemon/daemon.go:111-145 | A daemon that takes a reply of a server with any history and then makes a successful update that may be asked for has, beside the peers of other tools, exactly the static peers and the live rows of the server's table that it can read, itself and pinned and blocked ones aside, each of those at its row's endpoint, and routes to it just its row's address |
| EndToEnd.HonestPass | internal/daemon/daemon.go:111-126 | With an honest server and static peers that are apart, a pass damages nothing and the synced peers stay apart: checks, edits and saves take none in, and each reply's are apart |
| EndToEnd.HonestLife | internal/daemon/daemon.go:73-126 | So over a whole life nothing is ever damaged, and after each pass as above the device has by its books exactly what the file and the server ask for, every prefix included |
| EndToEnd.HonestLives | internal/daemon/daemon.go:164-176 | The same over lives joined by restarts, each from the file that the one before it left: only the very first file must have synced entries that are apart, or none |
| EndToEnd.NoEntriesApart | internal/daemon/daemon.go:164-176 | A first file without synced entries, as one that somebody wrote by hand, is such a file |
| EndToEnd.RegisteredAddress | internal/server/handlers.go:60-64 | At any point of a server's history a registration gives the daemon an address of the range that no other machine has, with the range's length |
| EndToEnd.SyncKeepsRange | internal/daemon/daemon.go:280-326 | With a server of one range, every address that any sync brings has that range's length |
| EndToEnd.SyncKeepsAddress | internal/daemon/daemon.go:280-292 | From then on, until the row is deleted, no sync changes a machine's address or owes one to the file |

## Left out

- HTTP handlers, middleware, JSON requests and the HTTP client: a register or sync call is one step that returns a reply or fails; how `ErrUnknownMachine` is recognised is part of the reply.
- SQLite: transactions are atomic and serial and do not fail; its errors and the contexts are not modelled.
- Curve25519, key generation, base64, the join token and its file.
- TUN devices, netlink, the control socket, handshakes and endpoint roaming: the device is only what configuration sets. A tunnel may die before any pass.
- Opening a tunnel step by step (`internal/wg/link_linux.go:50-107`): it succeeds and gives a device with no peers, or fails.
- IPv6: addresses, prefixes and endpoints are IPv4, and so are their texts.
- JSON syntax: meshd.json is text that cannot be decoded or text that decodes to a configuration, and the encoder's output decodes to what was encoded.
- `WriteAtomic`: the file is replaced or the write fails. An edit that lands between reading the file and replacing it is not modelled.
- The library's sort: `Book.SortByKey` is some in-place sort with the library's promise.
- Interactive setup, flags, signals other than the one for a sync now (`Daemon.HurrySync`), the banner, logging and `quietLog`.
- The ticker and the channels that start a pass: any number of passes may happen, with any clock readings.
- The operating system's host name: it is a parameter that stays the same over a run.
- `pub` while the daemon runs: it is derived from the key once, as in the source; the results assume that it belongs to the private key in use, which `StartUp` establishes.
- Validation.Validate: works on a value and gives back the normalised one, where the source normalises in place; a rejected configuration, which its caller drops, is not described.
- Text is a sequence of characters whose UTF-8 length is computed; text that is not valid UTF-8 is not modelled.
- Convergence.ScriptReaches: is the result for targets without overlaps on devices where what is skipped agrees; `Convergence.ScriptReachesExactly` is the exact one. Agreeing says nothing of the endpoint of a peer that wants none, which `Convergence.EndpointsAfter` gives.
- Retarget.RetargetExact: is about one failure on a device that agrees with the applied configuration and has no peers of other tools.
- History.HistoryConverges: after a failure, asks for the same target or one that is safe; for others `History.SuccessExact` holds. Other tools change only their own peers.
- Pass.PassConverges: says nothing of the device once the tunnel's books are lost, which an unsafe target after a failure does, or another tool that changes more than its own peers, until the tunnel is opened anew.
- PassRuns.LifeInOrder: promises the run invariant only while no pass saves over reverted bytes; `PeerMemory.RevertedSaveExact` and `PeerMemory.RevertedNewKeyExact` say exactly when it survives that. So does MeshdRuns.RunKeepsInvariant.
- EndToEnd.HonestLife: needs static peers whose prefixes are apart from each other and from the synced ones at each update; keeping them so is up to whoever edits the file.
- EndToEnd.HonestLives: joins lives that end with nothing left to save and no edit unseen.
- Schedule.HealthyDaemonIsListed: is about syncs that all succeed, whose lengths and delays are bounded from outside.
