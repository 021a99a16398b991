# Verified model of a self-hosted VPN

The VPN connects clients to one server over TLS: each client gets an address from
a pool, the server relays IP packets between a TUN device and the clients, and the
client rewrites its host's routes, firewall and resolver for as long as the tunnel
is up. This project models the stateful parts of that program in Dafny and proves
what their comments promise, over every interleaving, every run or every input.

`dafny verify dfyconfig.toml` checks everything.

## How it is built

Code that changes state in place is a class here too (`Pool`, `Registry`,
`ConnLimiter`, `Manager`, `Store`, `Checker`, `Authority`, `Client`, `Runner`, ...).
Each method is proved against a specification function on the object's abstract
value, and the steps of the state machines are made of the same functions, so the
results about runs speak of the methods' own effects. Where a step stands for part
of a method (the client's locked writer, the server's session writer), a method
proves that its effect is a run of such steps (`ConnWriters.LockedCall`,
`DataPlane.Send`). Goroutines are phases of such a machine and one locked operation
is one step; the network, the kernel, the disk, the clock and every failure are
choices of the environment, given as events or parameters.

| files | what they model |
|---|---|
| Server, Admission, Sessions, Limiter, IpAlloc | admission, kick and teardown of connections, step by step and over whole runs; registry; connection limits; address pool |
| IpFrame, Router, DataPlane, Relay | the server's packet paths: header check, TUN reader with its one buffer, writers and queues, session reader |
| Frames, ConnWriter | length-prefixed frames, typed packets, and the client's locked writer |
| Prefixes, Route, RouteRuns | routing tables with longest-prefix match, the client's route manager, and its runs |
| NetMask | prefix lengths and dotted-quad masks |
| Revoke, Ca | deny-list and its cached checker; certificate ledger, issue, revoke and un-revoke |
| Reconnect, ClientPath, ClientRuns | the client's reconnect loop, backoff and endpoint ring; pin-hole and kill-switch at every dial; the client together with its host |
| Invite, Watchdog | one-time invite tokens; health alerts |
| DnsDarwin, DnsLinux | crash-safe resolver changes on macOS and Linux |
| Base | shared vocabulary and a few facts about sums, sets and sequences |

Hypotheses that the program itself does not enforce are named predicates in the
statements, and for each a lemma says what happens without it:

- `NothingHidden`, the deny-list's history hides no rewrite: exact
  (`Revoke.RightExactlyIfNothingHidden`).
- `PushesAvoid`, no server address is pushed as a host route: exact
  (`RouteRuns.CleanExactlyIfPushesAvoid`).
- `RouteRuns.Enabled`, the host gains no route the manager has on record with the
  same next hop: exact (`RouteRuns.GainIsCleanExactlyIfUnrecorded`).
- `Fresh`, one Install per manager: `RouteRuns.RefreshAfterFailedInstall`.
- `ClockFrom`, a clock that never goes back, for pruning only; the exact condition
  is `DropsNothingWanted` (`Invite.InvisibleExactlyIfUnwanted`).
- `Careful`, resolver changes start with nothing pending and get their marker
  written: `DnsDarwin.ApplyOverPendingMarker`, `DnsDarwin.UnmarkedApply`, and their
  counterparts in DnsLinux.
- `Ca.Enabled`, serials are drawn fresh: `Ca.LiveExactlyIfSerialUnused`,
  `Ca.ReusedSerialRevives`.

Assumed throughout: operations of the authority do not overlap, and the random values
of invite tokens are distinct (`DistinctValues`).

## Where code and comments differ

The model follows the code.

- frame.go promises ErrUnexpectedEOF for any end inside a frame; right after the
  header it is a wrapped io.EOF (`Frames.EOFInsideFrame`).
- watchdog.go promises at most one message per observation; a recovery and a
  warning can go out together (`Watchdog.TwoMessagesAtOnce`).
- reconnect.go says the shift cap prevents overflow; it does not for a minimum
  of 2^33 ns or more (`Reconnect.BackoffExactIff`, `Reconnect.BackoffCollapses`).
- dns_darwin.go promises every service's original resolvers; a list with anything
  but bare addresses comes back shorter (`DnsDarwin.CrashIsRecoverable`).
- dns_linux.go calls the backup obsolete after a clean Restore but drops it after a
  failed one as well (`DnsLinux.FailedRestoreThenCrash`).
- revoke.go says that re-reading for two seconds covers a rewrite in one clock tick;
  it does not if no check falls between the rewrite and the end of the window
  (`Revoke.SameTickRewriteIsMissed`, `Revoke.RightExactlyIfNothingHidden`).
- ca.go writes the key before the certificate so that no certificate is left without
  its key; a re-issue that stops in between leaves the old certificate without it
  (`Ca.KeyMatchesExactlyIfCompleted`, `Ca.ReissueOrphansCertificate`).
- ca.go accepts a name with a backslash, which the revoke command refuses
  (`Ca.RevocableExactlyIfPlain`).
- client.go takes a /0 push for "redirecting all traffic"; the same redirection pushed
  as two halves raises no kill-switch (`ClientRuns.ExplicitHalvesAreUnguarded`).
- client.go re-points the kill-switch before a dial; when taking the old rules down
  fails, nobody is left to remove them (`ClientPath.StrandedRules`).

## Model

| member | source | states |
|---|---|---|
| Server.MutualExclusion | internal/tunnel/server/server.go:337-369 | Over every interleaving of any number of handlers, join timeouts included: at most one handler per name holds an address; byCN and byIPv4 hold a session exactly while it is between Add and Remove; no two registered sessions share a name or an address. |
| Server.DoneMeansGone | internal/tunnel/server/server.go:346-369 | When the wait on a kicked session returns through Done, both its index entries are gone, it holds no address, and any lease under the name is another handler's. |
| Server.AdmittingAnywayIsSafe | internal/tunnel/server/server.go:348-361 | After the "admitting anyway" branch, Allocate is refused for as long as anyone holds an address for the name, and the refused connection changes neither pool, nor registry, nor the holder. |
| Server.RemoveFindsItself | internal/tunnel/server/server.go:365-369 | The teardown's Remove always finds its own session registered, and deletes exactly its two entries. |
| Server.NothingLeaks | internal/tunnel/server/server.go:298-369 | Once every handler is gone, registry and pool are as they were at the start and the limiter counts nothing but pending penalties. |
| Server.SlotsAccounted | internal/tunnel/server/server.go:298-308 | In every reachable state of the whole server the limiter's total is the handlers holding a slot plus the pending penalties, both caps hold, and the penalty rate bound holds. |
| Admission.KickedBeforeAdmitted | internal/tunnel/server/server.go:337-352 | In every run, a connection whose lookup finds another session under its name asks for an address only after that session was closed, and either had wholly gone or the wait for it had timed out. |
| Admission.ClosedExactlyIf | internal/tunnel/server/server.go:337-342 | A session is closed from outside exactly if a shutdown found it registered or a connection that had found it under its own name kicked it. |
| Admission.WaitingEndsInAsking | internal/tunnel/server/server.go:346-352 | However the wait ends, by Done or by the timeout, the connection then asks for an address under its own name. |
| Admission.AdmittedExactlyIf | internal/tunnel/server/server.go:354-362 | A connection is given an address exactly if nobody holds one under its name and some address of the pool is held by nobody, and then the least such. |
| Admission.SlotExactlyIfRoom | internal/tunnel/server/server.go:298-303 | A connection gets a slot exactly if both caps have room for it beside what is connected and what still pays for a failed handshake. |
| Admission.PenalisedExactlyIfFailed | internal/tunnel/server/server.go:304-308 | A connection that ends outside a shutdown, with the throttle on, keeps its slot and goes on record under its own address exactly if its handshake failed; otherwise the slot is free at once. |
| Admission.NewClientIsServed | internal/tunnel/server/server.go:298-365 | With room, nobody under the name and an address free, a handler can get from accept to the registry without waiting for anyone. |
| Admission.ReconnectTakesOver | internal/tunnel/server/server.go:337-372 | A reconnecting client kicks its old session and, once that has torn down, is registered under the same name even with no other address free. |
| Admission.GetsOutAlone | internal/tunnel/server/server.go:289-423 | No handler needs another to get out: wherever it stands, waiting included, its own moves alone take it to its end with slot and address given back. |
| Server.StepKeeps | internal/tunnel/server/server.go:286-422 | Each locked step of each handler, each timer and shutdown keep the invariant that ties pool, registry, limiter and close/done signals to the handlers' phases. |
| Sessions.Session.Enqueue | internal/tunnel/server/session.go:61-68 | Queues the packet exactly if fewer than 64 wait; otherwise changes nothing. |
| Sessions.Session.Close | internal/tunnel/server/session.go:71-83 | Marks the session closed and reports whether this call was the first. |
| Sessions.Registry.Add | internal/tunnel/server/session.go:103-108 | Both indexes gain the session and nothing else changes. |
| Sessions.Registry.Remove | internal/tunnel/server/session.go:113-120 | Both entries go, but only while this session is the one registered under its name. |
| Sessions.Registry.ByCN | internal/tunnel/server/session.go:123-127 | The session registered under a name, or none. |
| Sessions.Registry.ByIPv4 | internal/tunnel/server/session.go:130-138 | The session registered under an IPv4 address; none for any other address. |
| Sessions.Registry.Snapshot | internal/tunnel/server/session.go:142-150 | Lists exactly the registered sessions, as many as there are names. |
| Sessions.AddThenRemove | internal/tunnel/server/session.go:103-120 | Adding a session under free keys and removing it again restores the index. |
| Limiter.ConnLimiter.Acquire | internal/tunnel/server/limiter.go:58-75 | Takes a slot exactly if both caps allow it. |
| Limiter.ConnLimiter.Dec | internal/tunnel/server/limiter.go:78-87 | Frees one slot and drops a source's entry when it reaches zero. |
| Limiter.ConnLimiter.Release | internal/tunnel/server/limiter.go:77-98 | Frees the slot now, or arms the penalty timer exactly for a penalised release under an active throttle. |
| Limiter.Conservation | internal/tunnel/server/limiter.go:58-98 | In every reachable state total is the sum of the per-source counters and equals live connections plus pending penalties, per source as well; no zero entries; both caps respected. |
| Limiter.PenaltyRate | internal/tunnel/server/limiter.go:84-109 | With the throttle active, no half-open window of length failPenalty contains more than maxPerIP failed handshakes of one source, and each counts against its source until that long has passed. |
| Limiter.PenaltiesRecorded | internal/tunnel/server/limiter.go:77-109 | The penalties of a run are exactly its penalised releases while both caps and the window are set, in order, with source and time. |
| Limiter.AdmittedExactlyIfRoom | internal/tunnel/server/limiter.go:58-74 | A connection is admitted exactly if, under each cap that is set, the live connections and pending penalties leave room for one more. |
| Limiter.RunKeeps | internal/tunnel/server/limiter.go:58-109 | The counting, cap and window invariants survive every run of acquires, releases, timers and ticks. |
| IpAlloc.Enumerate | internal/ipalloc/ipalloc.go:76-87 | The enumeration loop yields, strictly ascending, exactly the addresses strictly between network and broadcast that are not reserved. |
| IpAlloc.Reserve | internal/ipalloc/ipalloc.go:61-74 | The reserved set is network, broadcast and the reserve list; a reserve entry that is not IPv4 or lies outside the block is the error reported. |
| IpAlloc.FirstFaultDecides | internal/ipalloc/ipalloc.go:61-74 | The first faulty reserve entry decides which of the two errors is reported. |
| IpAlloc.BroadcastIsLast | internal/ipalloc/ipalloc.go:57-59 | With 32-bit wrap-around the computed broadcast is the last address of the block. |
| IpAlloc.New | internal/ipalloc/ipalloc.go:38-92 | Each error case exactly when it applies; otherwise a pool whose candidates are exactly the usable addresses, all free. |
| IpAlloc.FirstFreeIsLeast | internal/ipalloc/ipalloc.go:107-115 | The scan finds the least free address, or nothing exactly if none is free. |
| IpAlloc.AllocateMeaning | internal/ipalloc/ipalloc.go:100-116 | Refuses exactly a name that already holds an address or an exhausted pool; otherwise grants the least free address; free set and leases still partition the candidates. |
| IpAlloc.ReleaseMeaning | internal/ipalloc/ipalloc.go:121-131 | Returns exactly the released lease to the free set; a name without a lease changes nothing; the partition is kept. |
| IpAlloc.AllocateThenRelease | internal/ipalloc/ipalloc.go:100-131 | Releasing a fresh grant restores the pool. |
| IpAlloc.Pool.Allocate | internal/ipalloc/ipalloc.go:100-116 | The method does what AllocateMeaning describes, in place. |
| IpAlloc.Pool.Release | internal/ipalloc/ipalloc.go:121-131 | The method does what ReleaseMeaning describes, in place. |
| IpAlloc.Pool.InUse | internal/ipalloc/ipalloc.go:134-138 | The number of leases. |
| IpFrame.EncodedIsAccepted | internal/tunnel/server/ipframe.go:26-44 | Every datagram laid out as section 3.1 of RFC 791 says, with any padding after it, parses to its own source and destination. |
| IpFrame.AcceptedIsEncoded | internal/tunnel/server/ipframe.go:26-44 | Conversely an accepted buffer is such a datagram followed by padding: header length and total length are consistent with the bytes received. |
| Router.TunReader.Read | internal/tunnel/server/router.go:26-37 | The device overwrites the front of the one read buffer. |
| Router.TunReader.CopyTo | internal/tunnel/server/router.go:49-54 | Queues a private copy of the packet; the reused buffer itself never enters a queue. |
| Router.TunReader.Dispatch | internal/tunnel/server/router.go:34-54 | Offers the packet in the buffer to the one session registered under its destination; no other queue changes, and no queued bytes change. |
| Router.TunReader.Pump | internal/tunnel/server/router.go:15-56 | Over any sequence of reads into the same buffer, each session's queue holds byte for byte what it was offered. |
| Router.RoutedMeaning | internal/tunnel/server/router.go:34-54 | What a queue is offered is the packets addressed to it, in order; a packet is dropped exactly if 64 wait. |
| DataPlane.DeliveredInOrder | internal/tunnel/server/router.go:15-56 | Whatever the interleaving of reader, writers, keepalives, rejections and sessions coming and going, the data a client decodes is an in-order, byte-identical subsequence of the packets whose destination was registered to its session at lookup, all addressed to that session. |
| DataPlane.NothingVanishes | internal/tunnel/server/server.go:526-555 | Every packet sent to a session is delivered, queued, in the reader's hand, the one its connection broke on, or was dropped because 64 others were waiting; if that never happens these are all of them, in order. |
| DataPlane.SentExactlyTo | internal/tunnel/server/router.go:30-52 | A datagram read from the TUN device is sent to the session that joined under its destination and has not left since, and to nobody if there is none. |
| DataPlane.DecodedAreTheWrites | internal/tunnel/server/server.go:526-555 | What the client decodes begins with every frame whose write went through, queued packets, keepalives and errors, in the order they were sent. |
| DataPlane.NothingAfterTheLast | internal/tunnel/server/server.go:530-553 | Nothing is written to a session after its error frame or a failed write. |
| DataPlane.DecodedIsPrefix | internal/tunnel/server/server.go:526-555 | The connection decodes to the completed frames, plus at most the one whose write failed; while the writer runs it ends cleanly. |
| DataPlane.Send | internal/tunnel/server/server.go:536-553 | One write of the writer changes the connection as the machine's step says, torn frames and refused ones included. |
| DataPlane.StepKeeps | internal/tunnel/server/server.go:526-555 | Every step of reader, writers, sessions joining and leaving keeps the accounting of every session: what was offered is what is kept, in order, plus what was dropped. |
| Relay.Handle | internal/tunnel/server/server.go:464-513 | One frame: writes the body exactly if it passes anti-spoof, isolation and MTU checks and the device takes it; ends the session exactly on an outdated hello or a failing device. |
| Relay.SessionReader | internal/tunnel/server/server.go:458-515 | The loop over the client's byte stream writes exactly the relayed bodies, in order. |
| Relay.RelayedMeaning | internal/tunnel/server/server.go:483-513 | A frame reaches the device exactly in its place and unchanged if it passes and nothing before it ended the session. |
| Relay.WrittenComesFrom | internal/tunnel/server/server.go:483-513 | And every write comes from such a frame. |
| Relay.OnlyOwnTraffic | internal/tunnel/server/server.go:483-513 | Every packet on the TUN device is a well-formed datagram from the session's own address, within the MTU, whose destination no other session held when it was checked. |
| Relay.SendableGetsOut | internal/tunnel/server/server.go:483-513 | Every datagram laid out as in RFC 791, from the session's own address, within the MTU and to a destination no other session holds, is written in its place if the device takes it and no frame before it ended the session. |
| Relay.NothingElseGetsOut | internal/tunnel/server/server.go:483-513 | Up to the frame that ends the session, as many packets are written as there are such datagrams. |
| Relay.EndsExactly | internal/tunnel/server/server.go:425-450 | A frame ends the session exactly if it is a hello with a version that is neither 0 nor at least 1, or such a datagram that the device does not take. |
| Frames.ReadPacketOfEncoded | internal/tunnel/protocol.go:145-160 | Decoding an encoded packet gives it back and leaves the rest of the stream. |
| Frames.ReadPacketExactlyIf | internal/tunnel/protocol.go:145-160 | A packet is read exactly if its encoding comes next in the stream. |
| Frames.MalformedFrames | internal/tunnel/protocol.go:150-159 | An empty frame and an unknown type are read as their own errors. |
| Frames.Layout | internal/frame/frame.go:30-53 | Two octets of length, most significant first, then the type (1 or 2) and the body; bodies fit up to 65534 octets. |
| Frames.ReadAllAfter | internal/frame/frame.go:55-71 | Whole frames read back as written whatever follows them. |
| Frames.CutDecomposes | internal/frame/frame.go:30-71 | Every cut of an encoded stream is whole frames followed by a strict prefix of the next. |
| Frames.ReadAllOfCut | internal/frame/frame.go:55-71 | Over any byte cut the reader returns every complete packet unchanged and ends in bare io.EOF exactly when the cut is on a frame boundary. |
| Frames.RoundTrip | internal/frame/frame.go:30-71 | An uncut stream decodes to exactly the packets written, then a clean end. |
| Frames.EOFInsideFrame | internal/frame/frame.go:48-71 | A stream that stops right after a header yields a wrapped io.EOF, not the ErrUnexpectedEOF the comment promises. |
| Frames.Source.Fill | internal/frame/frame.go:57-69 | io.ReadFull on the stream: all bytes, io.EOF before the first, ErrUnexpectedEOF after it. |
| Frames.Source.Frame | internal/frame/frame.go:55-71 | Reads one frame off the stream, as the pure decoder does. |
| Frames.Source.Next | internal/tunnel/protocol.go:145-160 | Reads one packet; an empty frame and an unknown type are errors. |
| Frames.WriteFrame | internal/frame/frame.go:30-46 | Two writes, header then payload; too large is refused before any byte; a failed write leaves a prefix of the frame. |
| Frames.WritePacket | internal/tunnel/protocol.go:119-138 | The same for a typed packet. |
| ConnWriters.LockedWrite | internal/tunnel/client/client.go:985-1002 | Under the lock: no deadline, no bytes; success means the whole frame is on the wire; failure leaves a prefix and a broken connection. |
| ConnWriters.LockedCall | internal/tunnel/client/client.go:985-994 | A call that gets the lock is a run of the machine's own steps: the connection ends up as that run leaves it. |
| ConnWriters.WireDecodes | internal/tunnel/client/client.go:963-1002 | For every interleaving of producers the wire decodes to exactly the completed calls in lock order plus at most one frame that did not report success. |
| ConnWriters.ReadAllOfTorn | internal/tunnel/client/client.go:985-994 | Completed packets followed by part of one more decode to the completed packets. |
| ConnWriters.WithoutTheLock | internal/tunnel/client/client.go:963-973 | Two interleaved frames decode to neither packet. |
| Prefixes.LookupIsLongestMatch | internal/route/route.go:32-46 | The table lookup the route results speak of is the longest matching prefix of section 5.2.4.3 of RFC 1812, and that match is unique. |
| Prefixes.LookupOfMerge | internal/route/route.go:118-152 | Lookup in two disjoint tables merged is decided by the longer match. |
| Prefixes.HostRouteWins | internal/route/route.go:118-122 | A host route decides its address. |
| Route.Manager.InstallRoutes | internal/route/route.go:91-155 | The loop over pushed routes does what the specification function Install says: guards, pin-hole, expansion, rollback. |
| Route.Manager.RollbackAll | internal/route/route.go:283-293 | Deletes the recorded routes, last first, and forgets them. |
| Route.Manager.RemoveAll | internal/route/route.go:159-161 | Remove is rollback of everything recorded. |
| Route.Manager.AddRecorded | internal/route/route.go:274-281 | A route is recorded exactly if the kernel took it. |
| Route.Manager.Refresh | internal/route/route.go:178-232 | Re-asserts the pin-hole through the gateway of the moment and re-points its record, or reports why not. |
| Route.Manager.RepointRecord | internal/route/route.go:216-229 | Only the first record of the prefix changes, keeping its interface hint; a missing one is appended. |
| Route.Manager.ForgetInstalled | internal/route/route.go:264-272 | Drops the records of one prefix and keeps the others in order. |
| Route.Manager.Pin | internal/route/route.go:241-261 | Lets go of the old server's pin-hole, then refreshes for the new one. |
| RouteRuns.RollbackRestores | internal/route/route.go:283-293 | Rolling back records that are all owned leaves exactly the host's table. |
| RouteRuns.FailedInstallRestores | internal/route/route.go:91-155 | A failed Install leaves the table as it found it and records nothing. |
| RouteRuns.InstallMeaning | internal/route/route.go:91-155 | A successful Install adds exactly the pin-hole and the expanded pushed prefixes, none of which was present, and records each with its gateway and interface. |
| RouteRuns.LookupAfterInstall | internal/route/route.go:118-152 | After any Install the server goes to the original gateway; every other address follows the longer of host and pushed match. |
| RouteRuns.PushedTrafficTunnels | internal/route/route.go:118-152 | In terms of the pushes themselves: an address other than the server's goes to the tunnel exactly if a pushed IPv4 prefix covers it at a length, one for a default route, that the host does not beat; every other keeps its route. |
| RouteRuns.InstallSucceedsExactlyIf | internal/route/route.go:85-155 | Over a kernel that refuses only duplicates, Install succeeds exactly if server and tunnel gateway are IPv4, there is a default gateway, every push parses, and the routes asked for are new and asked for once. |
| RouteRuns.FullTunnelLookup | internal/route/route.go:298-306 | After 0.0.0.0/0 became two halves: the server to the original gateway, every address the host reached only by default to the tunnel, every more specific host route unchanged. |
| RouteRuns.RunsLeaveNothingBehind | internal/route/route.go:159-293 | Over any run of pins, refreshes, flushed routes and host changes with arbitrary AddRoute failures: no host route is altered, every other route is recorded exactly, and Remove leaves the host's own table. |
| RouteRuns.GainIsCleanExactlyIfUnrecorded | internal/route/route.go:283-293 | When the host gains a route at any point of such a run, all stays clean exactly if the manager has no record of that prefix with that next hop; with one, Remove takes the host's new route away. |
| RouteRuns.LookupRestored | internal/route/route.go:159-161 | After Remove, lookup of every address equals the original. |
| RouteRuns.PinnedAddressIsReachable | internal/route/route.go:178-261 | PinServer succeeds exactly if there is a default gateway, not the tunnel's, the kernel takes the route and the host has none of its own there; it then routes the address to that gateway, never into the tunnel; a skipped one changes nothing for the same server, and for another lets go of the old pin-hole only. |
| RouteRuns.CleanExactlyIfPushesAvoid | internal/route/route.go:91-293 | With a named tunnel interface, every run after a successful Install is clean if and only if no pushed prefix is the host route of an address the server ever has, AddRoute failures included. |
| RouteRuns.PushedServerRouteLeaks | internal/route/route.go:178-232 | One such run on concrete addresses that leaves a route behind. |
| RouteRuns.RefreshAfterFailedInstall | internal/route/route.go:112-122 | A manager used again after a failed Install alters the host's table exactly if the host routes the server through the very gateway it remembers, and the refresh moves that route or cannot add it again. |
| NetMask.PrefixToNetMask | internal/route/route_windows.go:115-130 | The bit loop gives the mask 2^32 - 2^(32-n) and the network address rounded down to it, for every length; only a non-IPv4 prefix is refused. |
| NetMask.ContiguousIff | internal/tun/netmask.go:28-32 | The leading/trailing-zero test accepts exactly the masks of some length. |
| NetMask.MaskRoundTrip | internal/tun/netmask.go:12-34 | A mask maps to a length exactly if it is the mask of that length; the defensive second test never fires. |
| Revoke.Store.Add | internal/revoke/revoke.go:144-172 | Adds an entry unless the serial is already denied; a failed save changes nothing. |
| Revoke.Store.RemoveSerial | internal/revoke/revoke.go:181-208 | Keeps exactly the other serials; writes only if something was removed. |
| Revoke.Store.RemoveName | internal/revoke/revoke.go:216-243 | Keeps exactly the other names and reports how many entries went. |
| Revoke.AddMeaning | internal/revoke/revoke.go:144-172 | After a successful Add the serial and everything denied before is denied, and the list only grew. |
| Revoke.RemoveSerialMeaning | internal/revoke/revoke.go:181-208 | After a successful RemoveSerial exactly that serial is no longer denied. |
| Revoke.RemoveNameMeaning | internal/revoke/revoke.go:216-243 | After a successful Remove exactly the entries of other names remain. |
| Revoke.Checker.Check | internal/revoke/revoke.go:291-339 | The method follows the cache rules: reload when changed or modified less than two seconds ago, keep the set on a missing file, change nothing on an error. |
| Revoke.VerdictsLinearize | internal/revoke/revoke.go:291-339 | If the file history hides no rewrite about the serial, each verdict on a present file is membership in a version current at some instant of the call, although stat and load are separate; while the file is missing it is that of the last loaded set; an error leaves the cache alone. |
| Revoke.RightExactlyIfNothingHidden | internal/revoke/revoke.go:283-339 | That condition is exact: every call of every run is right about a serial if and only if no version carries the stamp a load was made under, stays (or is replaced by others like it) until that stamp is two seconds old, and disagrees with what was loaded. |
| Revoke.HiddenIsMissed | internal/revoke/revoke.go:310-334 | Two calls that miss such a rewrite. |
| Revoke.TellingStampsHideNothing | internal/revoke/revoke.go:310-318 | Stamps that tell contents apart are enough, whatever the clock shows. |
| Revoke.LoadAfterLastRewrite | internal/revoke/revoke.go:310-334 | A load after the last rewrite carrying its stamp never misleads a later call, however often the stamp was reused before. |
| Revoke.SettledLoadIsFinal | internal/revoke/revoke.go:272-285 | With clock ticks shorter than the two-second window, a load made when the window is over is such a load. |
| Revoke.ErrorExactlyIf | internal/revoke/revoke.go:291-340 | A call gives no verdict exactly if its stat failed, or it could not read a file it had to read: nothing loaded yet, another stamp, or one less than two seconds old. |
| Revoke.ReappearingFileIsRead | internal/revoke/revoke.go:291-340 | After a call that found no file, the next one that finds a file reads it, whatever its stamp. |
| Revoke.CachedIsCurrent | internal/revoke/revoke.go:310-318 | With stamps never reused a cache hit means the cached set is the current version, and nothing is hidden. |
| Revoke.RevocationTakesEffect | internal/revoke/revoke.go:291-339 | If nothing is hidden about a serial that is on every version from some point, no later call answers that it is not revoked. |
| Revoke.SameTickRewriteIsMissed | internal/revoke/revoke.go:310-318 | The window leaves a gap: two lists of one size written in one tick, a call between them and none until the window is over, and the second list is never seen. |
| Ca.Authority.Serials | internal/ca/ledger.go:143-176 | The distinct serials of a name, in ledger order; the certificate on disk if there is no ledger. |
| Ca.Authority.AppendIssued | internal/ca/ledger.go:78-89 | Appends to the ledger or leaves it. |
| Ca.Authority.Supersede | internal/ca/ca.go:180-196 | Denies every serial ever issued under the name, stopping at the first failed write. |
| Ca.Authority.Issue | internal/ca/ca.go:153-176 | Deny-list, then ledger, then key, then certificate: each stopping the operation if its write fails. |
| Ca.Authority.Revoke | cmd/vpn-ca/main.go:223-261 | Denies every serial of a plain name; refuses one with a slash or backslash. |
| Ca.Authority.Unrevoke | cmd/vpn-ca/main.go:267-294 | Takes only the serial of the certificate on disk off the list, for a plain name. |
| Ca.SerialsInMeaning | internal/ca/ledger.go:153-168 | The loop with the seen map yields exactly the name's serials, each once. |
| Ca.OneLiveCertificatePerName | internal/ca/ca.go:153-196 | Over any sequence of issue, revoke and un-revoke with a crash between any two writes: every certificate written is in the ledger, every one other than the one on disk is denied, so at most one per name is not. |
| Ca.RevokeReachesAll | cmd/vpn-ca/main.go:236-250 | A completed revoke-by-name leaves no certificate of that name off the deny-list. |
| Ca.IssueThenUnrevoke | cmd/vpn-ca/main.go:280-287 | A completed issue leaves exactly the new certificate live, and un-revoking never brings an older one back. |
| Ca.LiveExactlyIfSerialUnused | internal/ca/ca.go:153-196 | The certificate of a completed issue is denied from the start exactly if its serial was on the deny-list or already one of the name's own. |
| Ca.ReusedSerialRevives | cmd/vpn-ca/main.go:280-287 | With a superseded certificate's serial drawn again for another name, un-revoking that name brings the superseded certificate back. |
| Ca.RevocableExactlyIfPlain | cmd/vpn-ca/main.go:233-239 | A name can be revoked at all exactly if it was issued and is plain: one with a backslash, which issuing accepts, cannot. |
| Ca.IssuableExactlyIf | internal/ca/ca.go:153-176 | An issue that is not cut short completes for exactly the names that are a single path element, the lone slash included. |
| Ca.UnrevokeMakesLive | cmd/vpn-ca/main.go:267-294 | An un-revoke with a write left takes exactly the current certificate's serial off the list. |
| Ca.OldCertificateIsDenied | internal/ca/ledger.go:169-176 | A certificate on disk that is older than the ledger is denied by a revoke of its name and before a new one is issued. |
| Ca.KeyMatchesExactlyIfCompleted | internal/ca/ca.go:249-255 | Over all runs a certificate on disk has a key beside it, and its own key exactly if the last issue that wrote the key completed. |
| Ca.ReissueOrphansCertificate | internal/ca/ca.go:249-255 | A concrete re-issue that stops before its last write leaves the old certificate with the new key, the state the comment means to avoid. |
| Reconnect.Backoff | internal/tunnel/client/reconnect.go:144-183 | The method computes the clamped, jittered base with a two's-complement 64-bit shift. |
| Reconnect.BackoffInRange | internal/tunnel/client/reconnect.go:144-183 | For any settings the wait never exceeds max, and is at least min if that is the smaller, whatever the shift wrapped to. |
| Reconnect.BackoffExact | internal/tunnel/client/reconnect.go:141-183 | With max at least twice min and a shift that fits, it is min(min*2^n, max-min) plus the jitter, below max, no clamp biting. |
| Reconnect.BackoffExactIff | internal/tunnel/client/reconnect.go:154-166 | When the shift overflows, the documented value is kept exactly if the wrapped base is caught by the cap. |
| Reconnect.BackoffCollapses | internal/tunnel/client/reconnect.go:154-166 | For instance a minimum of 2^34+1 ns wraps to 2^30 at the thirtieth failure, and the wait falls back to the minimum. |
| Reconnect.Ring.constructor | internal/tunnel/client/endpoints.go:79-92 | Starts at the first endpoint with the preferred address, or at the first of all if there is none. |
| Reconnect.Ring.Advance | internal/tunnel/client/endpoints.go:104-116 | Steps to the next endpoint and reports a cycle exactly when every endpoint has failed since the count was zeroed. |
| Reconnect.Ring.Succeeded | internal/tunnel/client/endpoints.go:120-125 | Zeroes the count and stays. |
| Reconnect.OnePass | internal/tunnel/client/reconnect.go:40-118 | One pass of the loop does what the specification function Once says. |
| Reconnect.RunReconnectLoop | internal/tunnel/client/reconnect.go:36-120 | The loop is the iteration of passes up to the first exit. |
| Reconnect.SleepsEveryCycle | internal/tunnel/client/reconnect.go:85-118 | The k-th failure since the count was zero sleeps exactly when k is a multiple of the number of endpoints, on the attempt number that counts the waits since the last long session; the attempt is on the endpoint one step further per failure. |
| Reconnect.PassDoes | internal/tunnel/client/reconnect.go:40-118 | The same for any pass, counted on the passes alone: what it tries, whether and on which attempt number it waits, and how it ends the loop. |
| Reconnect.FailingWaitsDouble | internal/tunnel/client/reconnect.go:81-118 | While every attempt fails, the wait after c+1 full cycles is min*2^c plus the jitter, or what max allows. |
| Reconnect.EachEndpointOncePerCycle | internal/tunnel/client/reconnect.go:81-94 | Between consecutive sleeps with no success every endpoint is dialled exactly once. |
| Reconnect.PassMeaning | internal/tunnel/client/reconnect.go:85-118 | Ties those statements to the loop's trace at every pass. |
| Reconnect.NoTryAfterFatal | internal/tunnel/client/reconnect.go:63-66 | After a fatal error nothing is dialled and the loop exits with it. |
| Reconnect.RejectedAfterFive | internal/tunnel/client/reconnect.go:68-75 | The loop gives up on certificate alerts exactly after five consecutive ones. |
| ClientPath.FirewallManager.Enable | internal/firewall/firewall.go:88-98 | Refused while applied; otherwise the rules let exactly the given server through, or the failure leaves no rules or the older ones. |
| ClientPath.FirewallManager.Remove | internal/firewall/firewall.go:102-112 | Takes the rules down, or on failure leaves rules and manager as they were. |
| ClientPath.Client.PreparePath | internal/tunnel/client/client.go:589-627 | Re-points pin-hole and kill-switch at the address about to be dialled; a failed re-point switches protection off. |
| ClientPath.Client.EnsureLeakProtection | internal/tunnel/client/client.go:645-691 | Protection for a full tunnel once, fail-closed unless the user opted out. |
| ClientPath.Client.EnsureRoutes | internal/tunnel/client/client.go:519-547 | Installs the pushed routes once, with the dialled address as server. |
| ClientPath.Client.TearDown | internal/tunnel/client/client.go:248-278 | Takes down the recorded routes and the rules the client holds, and forgets both managers. |
| ClientPath.IsFullTunnel | internal/tunnel/client/client.go:713-720 | True exactly if some pushed route that parses has length 0. |
| ClientPath.DialIsNotBlocked | internal/tunnel/client/client.go:342-370 | At every dial of every run, a held kill-switch allows and a held route manager pins exactly the address being dialled. |
| ClientPath.DialGoesDirect | internal/tunnel/client/client.go:342-370 | At any dial with routes installed, a re-pin that succeeds leaves the address routed to the default gateway of the moment, outside the tunnel and through the kill-switch. |
| ClientPath.ConnectedIsProtected | internal/tunnel/client/client.go:463-474 | A connected session that was pushed a default route, IPv4 or IPv6, has the kill-switch up for its own server, unless the user opted out or a re-point failed; one that was pushed anything has a route manager for it. |
| ClientPath.OffExactlyIfGivenUp | internal/tunnel/client/client.go:610-691 | Protection is off exactly if, at some step, a re-point of a moved server failed or a default route came with no protection to be had and the user allowing it. |
| ClientPath.GuardStaysUp | internal/tunnel/client/client.go:589-656 | Once up, the kill-switch stays up between and through sessions, for the server dialled last, until the client is done or gives it up. |
| ClientPath.ConnectsExactlyIf | internal/tunnel/client/client.go:440-490 | An attempt gets connected exactly if interface and resolvers could be set, protection was not called for, up, to be had or waived, and the routes were in place, not called for or installable. |
| ClientPath.RefusedBeforeRouting | internal/tunnel/client/client.go:459-474 | A default route that cannot be protected, without leave to go on, ends the attempt before any route is touched. |
| ClientPath.LossKeepsPath | internal/tunnel/client/client.go:342-370 | A lost connection leaves routes and rules alone and the next dial may follow. |
| ClientPath.StrandedRules | internal/tunnel/client/client.go:610-622 | A re-point leaves foreign rules exactly if its Restore fails, and then the old rules stay in force over every continuation of the run, its end included. |
| ClientPath.RulesGoneAfterFinish | internal/tunnel/client/client.go:248-278 | A client that found no rules leaves none behind exactly if no Restore failed, at a re-point or at the end. |
| ClientRuns.HostIsLeftAsFound | internal/tunnel/client/client.go:248-278 | Over every run of the whole client, with failing installs and re-pins and an OS that flushes and changes routes, no host route is altered, and a client that is done leaves exactly the host's own table. |
| ClientRuns.DefaultPushIsGuarded | internal/tunnel/client/client.go:519-691 | A client first connected with an IPv4 default route sends every address the host has nothing more specific for into the tunnel, the server's excepted, with the kill-switch up unless opted out or given up. |
| ClientRuns.ExplicitHalvesAreUnguarded | internal/tunnel/client/client.go:708-720 | The same addresses are taken when the two halves are pushed as such, and no kill-switch goes up. |
| Invite.PruneExpired | internal/invite/store.go:306-318 | The compaction over its own backing array equals the order-preserving filter. |
| Invite.PrunedMeaning | internal/invite/store.go:306-318 | Exactly the tokens used or not expired are kept, and every used token is. |
| Invite.Store.GenerateToken | internal/invite/store.go:118-155 | Prunes, appends a fresh token, saves; an empty name or failed save changes nothing. |
| Invite.Store.RedeemToken | internal/invite/store.go:186-227 | Marks the first unused, unexpired match used; a failed save changes nothing. |
| Invite.PruningIsInvisible | internal/invite/store.go:118-227 | For one TTL and a clock that never goes back, every call of every run is answered as by a store that never prunes. |
| Invite.InvisibleExactlyIfUnwanted | internal/invite/store.go:137-227 | Whatever the clock does, with distinct values, the replies are those of a store that never prunes exactly if no token is pruned that a later redeem asks for at a time when it has not expired. |
| Invite.RedeemedExactlyIf | internal/invite/store.go:186-227 | With nothing pruned that is wanted, a redeem finds its value exactly if a call minted it, it has not expired and no earlier redeem was given it; it is given it exactly if the file can be saved too. |
| Invite.SteppingBackShows | internal/invite/store.go:137-227 | A concrete run, with the clock stepping back, whose replies differ. |
| Invite.SingleUse | internal/invite/store.go:186-227 | With distinct values no token is redeemed twice in any run, even if the clock steps back. |
| Invite.GivenWasMinted | internal/invite/store.go:186-227 | What is redeemed was minted for that value with that name and grant, and is not expired. |
| Watchdog.Watcher.Observe | internal/watchdog/watchdog.go:161-180 | The state and the messages after one poll. |
| Watchdog.Watcher.MaybeWarn | internal/watchdog/watchdog.go:186-198 | Sends a warning exactly when due; a warning-free report clears the text. |
| Watchdog.DownExactlyAtThreshold | internal/watchdog/watchdog.go:161-171 | A down alert goes out exactly at the poll that makes a maximal bad run as long as the threshold, with that poll's reason. |
| Watchdog.ReasonNamesCause | internal/watchdog/watchdog.go:200-215 | The reason ends in the error of a poll without an answer, and is every line of a report that says what is not ready. |
| Watchdog.JoinedConcat | internal/watchdog/watchdog.go:191-208 | The text of several lines holds every one of them, in order, one to a line. |
| Watchdog.OneAlertPerOutage | internal/watchdog/watchdog.go:161-171 | Over every sequence of polls there are as many down alerts as maximal bad runs of at least the threshold. |
| Watchdog.BackExactlyAfterOutage | internal/watchdog/watchdog.go:174-178 | A recovery goes out exactly at the first good poll after an alerted run. |
| Watchdog.AlertsAlternate | internal/watchdog/watchdog.go:161-180 | Down and recovery strictly alternate, starting with down, and the last is down exactly while an alerted run lasts. |
| Watchdog.RepeatsAreSpaced | internal/watchdog/watchdog.go:186-198 | With no clear poll and no other warning since the last one, a warning is repeated exactly if its text differs or the repeat interval has passed, whatever the clock did. |
| Watchdog.NewWarningIsReported | internal/watchdog/watchdog.go:186-198 | A warning that appears when none is standing is reported at once, except, exactly, one with empty text less than the repeat interval after the last warning sent. |
| Watchdog.TwoMessagesAtOnce | internal/watchdog/watchdog.go:158-180 | One poll sends two messages exactly if it is good, right after an alerted bad run, and reports a warning that is due, although the comment says at most one. |
| Watchdog.RecoveryAndWarning | internal/watchdog/watchdog.go:158-180 | A concrete pair of polls whose second sends both. |
| Watchdog.EmptyTextIsHeldBack | internal/watchdog/watchdog.go:186-198 | A warning with empty text is held back after a clear poll. |
| DnsDarwin.Runner.Apply | internal/dns/dns_darwin.go:45-81 | Snapshot of every service before any change, marker, then one setDNS per service; a failure puts back every service whose undo succeeds and keeps the marker exactly if one did not. |
| DnsDarwin.Runner.Restore | internal/dns/dns_darwin.go:83-109 | Puts back every service whose command succeeds; drops the marker exactly if all did and it could be deleted. |
| DnsDarwin.Runner.Reconcile | internal/dns/dns_darwin.go:142-173 | Puts back what the marker records after filtering it; keeps the marker if any command failed or it could not be deleted; an unreadable marker changes nothing. |
| DnsDarwin.ValidIPsKeepsExactlyBare | internal/dns/dns.go:89-98 | The filter leaves a list unchanged exactly if it consists of bare addresses. |
| DnsDarwin.ValidIPsSplits | internal/dns/dns.go:89-98 | The filter goes entry by entry and keeps a bare address where it stands. |
| DnsDarwin.StrandedIsCovered | internal/dns/dns_darwin.go:83-109 | At every step of every history a service that is not back to its original is in the marker with that original. |
| DnsDarwin.CrashIsRecoverable | internal/dns/dns_darwin.go:45-173 | A crash at any step, then a successful Reconcile, restores every service exactly if every list in the marker consists of bare addresses. |
| DnsDarwin.ZonedResolverIsLost | internal/dns/dns_darwin.go:152-158 | A concrete service with a zoned link-local resolver comes back on automatic DNS. |
| DnsDarwin.BareHostsAlwaysRecover | internal/dns/dns_darwin.go:45-173 | With bare addresses everywhere that holds over any number of sessions, crashes and half-failed recoveries. |
| DnsDarwin.BareEntriesSurvive | internal/dns/dns_darwin.go:45-173 | On any host, over any number of sessions, crashes and recoveries, a service comes back with its original list or with exactly the bare addresses of it, in order. |
| DnsDarwin.ApplyOverPendingMarker | internal/dns/dns_darwin.go:45-68 | An Apply over a pending marker loses the originals exactly if something was still stranded. |
| DnsDarwin.UnmarkedApply | internal/dns/dns_darwin.go:64-79 | Without the marker a crash loses the original of a service exactly if its list was changed. |
| DnsLinux.Runner.ApplyResolvConf | internal/dns/dns_linux.go:114-145 | Snapshot, best-effort backup, rewrite; an unreadable original stops it before anything changes, a failed rewrite is reported and leaves the file. |
| DnsLinux.Runner.RestoreResolvConf | internal/dns/dns_linux.go:147-161 | Puts the remembered file, link or absence back; the backup is dropped even if that failed. |
| DnsLinux.Runner.RestoreResolvBackup | internal/dns/dns_linux.go:190-224 | The same from the backup on disk, which is dropped only after success; an unreadable one changes nothing. |
| DnsLinux.SnapshotIsFaithful | internal/dns/dns_linux.go:114-131 | A snapshot stands for the file exactly if no older link was left in the runner's memory when the file was a regular one. |
| DnsLinux.LastLinkWins | internal/dns/dns_linux.go:114-131 | A runner that has looked before brings a regular file back as the last link it ever saw, and as itself only if it never saw one. |
| DnsLinux.RenderedNext | internal/dns/dns_linux.go:249-256 | One more resolver is one more line at the end of the file. |
| DnsLinux.CrashIsRecoverable | internal/dns/dns_linux.go:114-224 | A crash at any step of any history, then a successful Reconcile, gives back content, link or absence. |
| DnsLinux.LostBackupCostsOnlyRecovery | internal/dns/dns_linux.go:133-161 | Without a crash the original is back whenever no session is up, whichever writes failed. |
| DnsLinux.FailedRestoreThenCrash | internal/dns/dns_linux.go:147-161 | After a failed Restore a crash loses the original exactly if the rewrite had changed the file. |
| DnsLinux.UnbackedApplyThenCrash | internal/dns/dns_linux.go:133-143 | Without a backup a crash loses the original exactly if the rewrite changed it. |
| DnsLinux.ApplyOverPendingBackup | internal/dns/dns_linux.go:133-137 | A session started over a pending backup loses the original exactly if the file is not it. |

## Left out

- TLS, certificates as x509 objects, key handling, JSON and PEM: a certificate is a name and a serial, a control message is what decoding it yields, a file is a value.
- Shelling out and parsing command output: only the table, rules or resolvers the commands change are modelled.
- Liveness: nothing is said about how soon a goroutine runs, a timer fires or shutdown completes.
- Server.MutualExclusion: models each locked operation as one atomic step; the Go memory model below the mutexes is not modelled.
- Router.TunReader.Pump: the registry is fixed during a run of the heap model; sessions that come and go meanwhile are in DataPlane, which models packets as values.
- DataPlane.DeliveredInOrder: packets are values there, so that a queued packet is not overwritten is proved for the heap only, in Router.
- Sessions.Session.Close: the past deadline and the closing of the connection, which only make blocked reads and writes return, are not modelled.
- ClientPath.Client.TearDown: the order in which the two managers are taken down is not stated.
- RouteRuns.RunsLeaveNothingBehind: DelRoute failing for reasons other than a missing route is not modelled.
- RouteRuns.PinnedAddressIsReachable: IPv4 server addresses only, as the kernel lookup is.
- Ca.Authority.Serials: a ledger serial that does not parse is not modelled; runs start from an empty directory, so what a directory older than the ledger gets is stated for one operation, in Ca.OldCertificateIsDenied.
- Revoke.VerdictsLinearize: one Checker whose calls do not overlap, as its mutex guarantees; the wall clock does not go back during a run, and a version that does not parse is a load that fails.
- Reconnect.Ring.Advance: normalizeEndpoints and the logging of endpoints are not modelled.
- Reconnect.RunReconnectLoop: a script of environment choices replaces the endless loop, so what is proved is about every finite run.
- ClientPath.Client.EnsureRoutes: the scoped zone of an IPv6 link-local server address is not modelled, so the remote address read back is the one dialled.
- Watchdog.RepeatsAreSpaced: time differences are unbounded integers; Go saturates them at about 292 years.
- Invite.Store.GenerateToken: the random value is a parameter, and distinct values are a hypothesis where they matter; file locking is assumed to exclude other processes.
- DnsDarwin.Runner.Apply: a service that disappears between snapshot and restore is not modelled; the forceful Clear and the one-slot façade of dns.go are left out.
- DnsLinux.Runner.ApplyResolvConf: the systemd-resolved mode, which leaves nothing durable, is left out.
- NetMask.MaskRoundTrip: net.IPMask.Size is a library call, modelled by its documented result.
- Limiter.PenaltyRate: a timer never fires before its time; how late it fires is free.
- VLESS configuration, IPC, helper controller, profiles, backups, health server, bot and user interfaces: formatting and single-branch checks beside the above.
