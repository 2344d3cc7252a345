# go-listener, verified

A Dafny model of `src.agwa.name/go-listener`, a Go library that opens `net.Listener`s from textual specifications, and
proofs of what its parts promise together. `dafny verify dfyconfig.toml` checks everything.

| part of the library | modules | main results |
|---|---|---|
| certificate cache (`cert/cache.go`) | `FileCache`, `CacheRuns`, `CacheLinearizability` | in every run of any number of Loads, Cleans and file replacements the cache is invisible, exactly when no modification time recurs over another certificate |
| certificate files and directories (`cert/cert.go`, `cert/dir.go`) | `Certificates`, `CertificateFormat`, `CertDirectory` | exactly which files load, and to what, and what the others are refused for; a directory search is the first match, even while files change |
| PROXY listener (`proxy/listener.go`) | `ProxyListener`, `ProxyListenerTheorems`, `ProxyListenerProgress` | connections are conserved and delivered with the right addresses and bytes; any client can be served; close happens once; shutdown always finishes |
| merged listener (`multi.go`) | `MultiListener`, `MultiListenerProgress`, `MultiListenerShutdown` | an ordered merge, each item taken once, and none stuck before Close; each inner listener closed once; shutdown always finishes |
| Close through nested listeners | `CloseTree` | concurrent Closes close every channel of a tree exactly once, never deadlock, and end in every schedule |
| PROXY protocol header (`proxy/header.go`) | `ByteStream`, `ProxyHeader`, `ProxyHeaderTheorems`, `ProxyHeaderWire` | the wire format byte for byte, as a relation; the exact round trip under any fragmentation, exact byte accounting, self-delimiting codes |
| UNIX sockets (`unix/listener.go`) | `UnixSocket`, `UnixHandover` | atomic publication without leftovers; a watcher's tick closes its listener exactly if the path named something else; handover leaves just the latest listener open |
| specifications (`open.go`, `builtin.go`, `tls/listener.go`) | `Strings`, `ListenerSpec`, `ListenerSpecTheorems`, `ListenerGrammar`, `OpenListeners` | the string and JSON grammars, as relations, are exactly what is accepted; printing and parsing are inverse on exactly the writable listeners; opening is all or nothing, exactly up to the descriptors that specifications name and the paths that UNIX sockets take over |
| ClientHello peeking (`tlsutil/hello.go`) | `ClientHello` | the stream replays unchanged |

Concurrent code is modelled as transition systems: a state, events, and a function that gives the effect of each event.
An event that is not possible in a state changes nothing, so a theorem about `Run(es)` for every event list `es` is a
theorem about every schedule. A step of an unbuffered channel is one joint step of the sender and the receiver, a `select`
takes any branch that is ready, and a section under a mutex that does not block is one step. Code that works on buffers,
streams, maps and file systems is written as methods of classes, proved against the functions that the theorems are about.

Assumptions. One `stat` and one file read are atomic, and a file's readability belongs to its version. UNIX socket inodes
are not reused, nobody else edits the directory during `Listen`, and removing an existing entry succeeds. A closed inner
listener may still yield what it had ready, as the library's own do when they are nested, but its Accept always returns, in
the end with `net.ErrClosed`; and every header read ends by bytes, end of stream or the deadline. A new socket gets any
descriptor that is free at that moment.

Where the code is not what its documentation or shape suggests:

- The cache is keyed by modification time alone. If a time comes back (a file restored with its old time, or two writes
  within the clock's resolution), a Load can return a certificate that was not in the file at any moment of the call.
  `CacheLinearizability.FreshnessExactly` gives the exact condition, and `RecurrenceIsVisible` the run that shows it.
- The JSON notation loses two kinds of listeners, and `ListenerSpecTheorems.JSONExactly` shows that it loses no others. A
  `tcp` listener with an `address` never opens: its `port` is not read (`builtin.go:115-121`), and the empty port is then
  refused. A `tls` listener with `autocert_hostnames` never opens when the JSON was decoded by `encoding/json`: the code
  asserts a `[]string` (`tls/listener.go:82`), and a decoded array is a `[]interface{}`. The second loss does not concern
  callers who build the parameters in Go.
- A header for addresses that are not TCP or UDP is written with an unspecified family that the same package refuses to
  read; a header whose local IP does not fit the family of its remote IP is written with another local IP; and the zone of
  a link-local address is not written at all. `ProxyHeaderTheorems.RoundTripExactly` gives the exact condition.
- An `fd` or `fdname` listener closes the descriptor it was given, also when it fails (`builtin.go:66-69`, `92-94`). So a
  failing `OpenAll` does not leave open what was open before if one of its specifications named a descriptor, and a
  successful one can return a listener whose socket a later specification has closed, if that one named the descriptor
  the socket happened to get. `OpenListeners.OpenedAll` says exactly when neither happens.
- A watcher that looks at the path in the instant in which its socket was moved away closes its listener, even if the
  socket is back before it acts (`unix/listener.go:70-74`). `UnixHandover.WatcherIsRight` says exactly when.
- In `Listen`, if `path` is free and is the very name found for the temporary directory (`unix/listener.go:84`), the path
  names that directory for a while; the call then fails and leaves no trace. So publication is atomic exactly if that is
  not so, as `UnixSocket.FileSystem.Listen` says; by `UnixSocket.OrdinaryNames` a path whose last component does not begin
  with `.tmp` is safe.
- A `unix` listener that `OpenAll` had opened before a later specification failed leaves its socket behind: the file that
  was at its path is gone, and the one there now has no listener (`unix/listener.go:96`, `112`).
  `OpenListeners.FailureReplacesPaths` says exactly which paths are touched.

## Model

| member | source | states |
|---|---|---|
| FileCache.LoadVersion | cert/cert.go:48-96 | loading a version succeeds only on an existing file, and only with the leaf certificate parsed |
| FileCache.FileCache.Get | cert/cache.go:55-59 | returns the entry, or the zero entry for an unknown file |
| FileCache.FileCache.Add | cert/cache.go:61-65 | stores the entry and changes no other |
| FileCache.FileCache.Clean | cert/cache.go:85-95 | deletes exactly the entries whose leaf has expired, and keeps the others as they are; needs every entry to have a leaf |
| FileCache.FileCache.Reload | cert/cache.go:77-82 | after a miss: the result is that of a version current between the read and the return, and what it held is stored under the earlier time, keeping the cache good |
| FileCache.FileCache.Load | cert/cache.go:67-83 | with other threads running between its steps: exactly if the cache holds a certificate of the time that stat saw, that one is returned and nothing is read or stored; a missing file gives its error; otherwise the result is what the file held when read. So it is that of a version current during the call, or of an older one whose modification time came back; and the cache changes only as other threads rely on |
| FileCache.EntryGrows | cert/cache.go:81 | a good entry stays good as the file gains versions |
| FileCache.HitIsExplained | cert/cache.go:74-76 | a fresh entry gives a certificate of a version no older than the one stat saw, or of one before it with the same modification time |
| FileCache.AddIsSafe | cert/cache.go:68-81 | because stat comes before read, storing keeps every entry's content at least as new as its stamp |
| FileCache.RelyTransitive | cert/cache.go:67-83 | what threads may do to the shared state composes |
| CacheRuns.StepKeepsInv | cert/cache.go:55-95 | every atomic step of every Load, every Clean and every file replacement keeps: entries good, each call's stat version and result explained, no panic |
| CacheRuns.AdvanceKeepsInv | cert/cache.go:67-83 | the same for the four steps of a Load |
| CacheRuns.PublishKeepsInv | cert/cache.go:68-81 | the same for a file replacement at any moment |
| CacheRuns.CleanNeverPanics | cert/cache.go:85-95 | in every run Clean meets only entries with a leaf |
| CacheRuns.OthersRespectRely | cert/cache.go:44-95 | any run of other threads' steps is what a Load relies on |
| CacheRuns.LoadRunsAlone | cert/cache.go:67-83 | the steps of a Load in a row give the certificate cached for the file's current time if there is one, and else what the file holds, which is then cached under that time |
| CacheRuns.CleanRuns | cert/cache.go:85-95 | in every run Clean removes exactly the expired entries and touches nothing else |
| CacheLinearizability.LoadIsLinearizable | cert/cache.go:67-83 | every completed Load of every run returns, certificate or error, what an uncached load would have returned at one instant between its stat and its return, provided no modification time recurs over another certificate |
| CacheLinearizability.RecurrenceIsVisible | cert/cache.go:40-42 | for every history in which a time recurs over another certificate there is a run, publishing just that history, with a Load that is not linearizable |
| CacheLinearizability.FreshnessExactly | cert/cache.go:67-83 | for every history: all Loads in all runs over it are linearizable if and only if no time recurs |
| CacheLinearizability.DistinctTimesSuffice | cert/cache.go:40-42 | pairwise distinct modification times meet the condition |
| CacheLinearizability.MarksAreTrue | cert/cache.go:68-76 | the version noted at a call's stat and return is the one current at that instant of the run |
| CacheLinearizability.VersionPassed | cert/cache.go:68-81 | every version between two current ones was current at some instant in between |
| Certificates.LoadCertificate | cert/cert.go:48-96 | the block loop computes the fold of its step over the blocks, then the final checks; an unreadable file gives the read error |
| Certificates.LoadSucceedsExactly | cert/cert.go:42-96 | succeeds exactly on files with only known blocks, one valid key, at most one OCSP response, and a chain whose first certificate parses; and yields the certificate they describe |
| Certificates.AddBlocksExactly | cert/cert.go:55-82 | the same for the loop started from any partly assembled certificate |
| Certificates.OrderAcrossKindsIrrelevant | cert/cert.go:42-47 | files with the same keys, certificates, OCSP responses and SCTs in the same order within each kind load to the same certificate |
| Certificates.FirstOffenderDecides | cert/cert.go:55-82 | the first offending block decides the error, whatever follows |
| Certificates.KeyUsage | cert/cert.go:54-135 | a loaded certificate has the key of the file's only key block, and can decrypt and can sign exactly as that block's Usage header allows and the type of the key supports: with a usage given, never both |
| CertificateFormat.FileDescribes | cert/cert.go:42-135 | by block types: a file loads to a certificate if and only if it has one key, in PKCS#8 or the older format of its type and used as it may be, certificates with a leaf that parses first, at most one OCSP response, any timestamps and nothing else, and these are the certificate's |
| CertificateFormat.RefusedForBlock | cert/cert.go:55-82 | a file with a block that cannot follow the ones before it is refused for the first one, with its error |
| CertificateFormat.RefusedForLack | cert/cert.go:84-95 | a file without one is refused for lacking a key, then a certificate, then a leaf that parses |
| CertDirectory.CandidatesStayInDirectory | cert/dir.go:57-63 | for a valid server name every file tried has a plain name: not empty, no slash, no leading dot |
| CertDirectory.Directory.GetCertificate | cert/dir.go:52-105 | a missing or invalid name is refused before any file is touched; otherwise files are tried in the documented order, all but the last fail, and the result is the last one's certificate, or not-found after all of them |
| CertDirectory.SearchedAsDocumented | cert/dir.go:105-119 | for a name `first + rest`, first being its first label: the files tried are those of the name and of `_ + rest`, with .pem.ecdsa and .pem.rsa only for clients that support these, then with .pem; the next one is tried exactly after a failure |
| CertDirectory.Directory.LoadCandidate | cert/dir.go:42-50 | loads the next candidate by its full path, from the cache if there is one and else directly, and keeps the record that all earlier ones failed |
| CertDirectory.SearchIsLinearizable | cert/dir.go:42-50 | any loads made one after another, with the shared cache and files changing: there are successive instants of the run, one in each load, at which that file alone would have given that load's result |
| CertDirectory.SearchFindsFirst | cert/dir.go:52-105 | for the loads of a directory search: the candidate found held the certificate returned at an instant of its load, and every candidate before it in the search order failed at an earlier instant of its own; or all failed like that |
| ByteStream.Reader.Read | proxy/header.go:63 | a read returns the next bytes of the stream, at most as many as asked for, and an error only with or after the last |
| ByteStream.ReadFull | proxy/header.go:63-84 | under every fragmentation, and even if an error comes with the last byte needed: the buffer gets exactly the next bytes, or the stream is used up and the error is the right one of EOF, unexpected EOF and the stream's own |
| ProxyHeader.ReadHeader | proxy/header.go:61-95 | result and unread bytes are those of Decode on the flat stream, whatever the fragmentation |
| ProxyHeaderWire.ReadsTheWire | proxy/header.go:61-158 | with every byte and number written out: for every stream, ReadHeader gives this result and leaves these bytes if and only if the wire format says so; a LOCAL header keeps both addresses of the connection in place, commands other than 0 and 1 are refused |
| ProxyHeaderWire.WritesIPv4 | proxy/header.go:182-193 | the bytes of a header for IPv4 addresses, whatever their form |
| ProxyHeaderWire.WritesIPv6 | proxy/header.go:195-206 | the bytes of a header for IPv6 addresses |
| ProxyHeaderWire.WritesUnspecified | proxy/header.go:208-214 | the bytes of a header for other addresses |
| ProxyHeader.To4 | proxy/header.go:165 | an IPv4 form has four bytes |
| ProxyHeader.PutUint16 | proxy/header.go:187-191 | two bytes, read back as the number modulo 65536 |
| ProxyHeader.CopyInto | proxy/header.go:184-189 | copies what fits and leaves the rest of the buffer alone |
| ProxyHeader.FormatIPv4Header | proxy/header.go:182-193 | the buffer filled in place is the concatenation of signature, version and command, family, length, addresses and ports |
| ProxyHeader.FormatIPv6Header | proxy/header.go:195-206 | likewise with 16-byte addresses, shorter IPs padded with zeros |
| ProxyHeader.FormatUnspecifiedHeader | proxy/header.go:208-214 | a bare preamble of unspecified family and length zero |
| ProxyHeader.Format | proxy/header.go:160-180 | writes the encoding that the remote address selects |
| ProxyHeaderTheorems.EncodedReadsBack | proxy/header.go:61-206 | reading what Format wrote, with anything after it, yields the header forced into the family of its remote IP and without zones, and leaves exactly what follows |
| ProxyHeaderTheorems.ReadBackExactly | proxy/header.go:160-206 | that header is the original, up to IPv4 mapping, exactly for ports in range, no zones and both IPs of that family |
| ProxyHeaderTheorems.RoundTripExactly | proxy/header.go:61-214 | for every header Format accepts: the round trip is faithful if and only if the header is TCP or UDP with ports in range, no zones and IPs of one family |
| ProxyHeaderTheorems.Transmit | proxy/header.go:61-214 | the same for the operations themselves: Format into a buffer, any cutting up of those bytes and of what follows them, and ReadHeader |
| ProxyHeaderTheorems.ZoneIsLost | proxy/header.go:195-206 | fe80::1%eth0 comes back as fe80::1, another address |
| ProxyHeaderTheorems.UnspecifiedIsRejected | proxy/header.go:208-214 | a header of another address kind is written as a family that is refused |
| ProxyHeaderTheorems.StackedHeadersReadBack | proxy/header.go:61-214 | any headers written in a row are read in a row: each gives what it gives alone, the original exactly if the round trip of that one is faithful, a refusal if it carries no addresses; and the payload after them is untouched |
| ProxyHeaderTheorems.TransmitAll | proxy/header.go:61-214 | the same for the operations: Format for each header, any cutting up of all the bytes, and one ReadHeader for each header |
| ProxyHeaderTheorems.WriteAll | proxy/header.go:161-180 | writing the headers one after another in front of a payload |
| ProxyHeaderTheorems.ReadAll | proxy/header.go:61-95 | calling ReadHeader so many times on one connection |
| ProxyHeaderTheorems.PrefixCode | proxy/header.go:160-214 | a stream begins with the encoding of a header in one way only |
| ProxyHeaderTheorems.EncodedLength | proxy/header.go:182-214 | every encoding announces its own length |
| ProxyHeaderTheorems.ReencodingExactly | proxy/header.go:97-193 | for every accepted payload: formatting and re-reading preserves both addresses if and only if an IPv4-mapped remote IP implies an IPv4-mapped local one; otherwise just the local IP becomes 0.0.0.0 |
| ProxyHeaderTheorems.ByteAccounting | proxy/header.go:61-95 | exactly 16 bytes are consumed on a bad signature or version, 16 + length once the payload is there, everything when the stream is cut short |
| ProxyHeaderTheorems.NoReadAhead | proxy/header.go:61-95 | a verdict once reached does not depend on, or touch, any later byte |
| ProxyHeaderTheorems.ExtensionBytesIgnored | proxy/header.go:97-158 | bytes after the address block never change the parsed header |
| ProxyListener.StepKeepsInv | proxy/listener.go:60-150 | every step of every goroutine and call keeps the invariant of connections, deliveries, mutex and close |
| ProxyListener.HandlerStepKeepsInv | proxy/listener.go:103-132 | a handler holds its connection open until it hands it over or closes it; what it announces is what the whole stream says, even if it read only a part |
| ProxyListener.DeliveryKeepsInv | proxy/listener.go:143-150 | handing a connection to an Accept call records it there once |
| ProxyListener.CloseStepKeepsInv | proxy/listener.go:71-82 | the mutex admits one Close at a time, and only one finds the listener open |
| ProxyListenerTheorems.ConnectionsAreConserved | proxy/listener.go:88-132 | in every reachable state each connection is held open by its handler, or closed once and never delivered, or delivered to exactly one Accept and never closed |
| ProxyListenerTheorems.DeliveriesAreDistinct | proxy/listener.go:60-69 | no two Accept calls return the same connection |
| ProxyListenerTheorems.DeliveredConnectionsAreRight | proxy/listener.go:103-132 | a delivered connection is open, without read deadline, carries the addresses its stream announces, byte for byte (its own, in place, for LOCAL), and has all but the first 16 + length bytes unread |
| ProxyListenerTheorems.RefusalsAreJustified | proxy/listener.go:103-132 | a header error is reported only if exactly the bytes read give it: a whole bad header, which the whole stream has too, or less than a header, cut short by the end of the stream or the deadline; a good connection is dropped only after Close |
| ProxyListenerTheorems.ReportsAreJustified | proxy/listener.go:60-69 | every error an Accept has returned is the inner listener's own, or that of one connection, which was closed once and never delivered; a header error is the one that connection was refused with |
| ProxyListenerTheorems.ReportsAreDistinct | proxy/listener.go:103-132 | no two Accepts return the report of the same connection |
| ProxyListenerTheorems.ClosesExactlyOnce | proxy/listener.go:71-82 | with any number of Close calls: done and the inner listener are closed at most once, at most one call succeeds, and one does if any has returned |
| ProxyListenerTheorems.CloseHasReturned | proxy/listener.go:71-82 | a successful Close returns only after both are closed |
| ProxyListenerTheorems.StepLowersRank | proxy/listener.go:60-150 | every step of a goroutine or call on what it has lowers the rank |
| ProxyListenerTheorems.ShutdownIsBounded | proxy/listener.go:60-150 | after Close, in every schedule, at most rank-many steps remain, plus three for each later call and seven for each item that the closed inner listener still yields |
| ProxyListenerTheorems.HandOversAreBounded | proxy/listener.go:60-69 | closed or not, and however often Accept is called, a listener hands over at most what its goroutines have in hand and what it still obtains; so late items stay bounded through nested listeners |
| ProxyListenerTheorems.NothingIsStuck | proxy/listener.go:60-150 | after Close, until all goroutines have exited and all calls returned, some step of theirs is possible |
| ProxyListenerTheorems.ShutdownDrains | proxy/listener.go:60-150 | when after Close only new calls and late items are possible: no goroutine is left, every Accept has returned, every connection was delivered or closed once, not both |
| ProxyListenerProgress.AcceptorQuitsOnlyAtTheEnd | proxy/listener.go:88-101 | in every run the accept loop ends only once the inner listener is closed or Close has been called |
| ProxyListenerProgress.NextIsAccepted | proxy/listener.go:88-101 | in every reachable state before that, the acceptor has an error in hand, or takes the next client or error that the inner listener has |
| ProxyListenerProgress.ErrorReachesAccept | proxy/listener.go:93-96 | an error in hand can be the result of any waiting Accept, and then the acceptor goes on |
| ProxyListenerProgress.ConnectionReachesAccept | proxy/listener.go:125-150 | a connection offered can be the result of any waiting Accept, with its addresses, and nothing else changes |
| ProxyListenerProgress.ReportReachesAccept | proxy/listener.go:103-123 | so can the report of a handler |
| ProxyListenerProgress.ClientIsServed | proxy/listener.go:88-150 | any client that connects to an open listener can be served in every reachable state: a waiting Accept gets its connection with the addresses its bytes announce, or the error they give, with the connection closed once; nothing else changes |
| ProxyListenerProgress.ClosedIsSeenExactlyAfterClose | proxy/listener.go:60-69 | Accept returns net.ErrClosed only after Close, and then it can |
| ProxyListenerProgress.AcceptorGivesUp | proxy/listener.go:93-96 | after Close an error in hand ends the accept loop |
| ProxyListenerProgress.InnerCloseEndsLoop | proxy/listener.go:91-92 | when the inner listener closes by itself the accept loop can end, and nothing else happens |
| ProxyListenerProgress.InnerStaysOpen | proxy/listener.go:71-82 | otherwise the inner listener is open until Close closes it |
| ProxyListenerProgress.DoneBeforeInner | proxy/listener.go:79-80 | which is after done was closed |
| ProxyListenerProgress.CloseReturns | proxy/listener.go:71-82 | in every reachable state every Close call can return, with success if nobody closed the listener before |
| MultiListener.StepKeepsInv | multi.go:65-126 | every step of every loop and call keeps the invariant of histories, deliveries and close |
| MultiListener.SendKeepsInv | multi.go:83-99 | a hand-over extends the merged history by the item in hand and gives it to one Accept |
| MultiListener.CloseStepKeepsInv | multi.go:112-126 | the one Close that finds the listener open closes the inner listeners in order, once each |
| MultiListener.MergeIsOrdered | multi.go:65-110 | what was delivered from each inner listener, connections and errors together, is a prefix of what its loop obtained, at most one item short; that item is in hand, or was dropped after Close, a connection being closed once |
| MultiListener.EachDeliveryTakenOnce | multi.go:101-110 | every entry of the merged history is the result of exactly one Accept, and no Accept returns anything else |
| MultiListener.CloseClosesEachOnce | multi.go:112-126 | when a Close has returned nil, every inner listener has been closed exactly once, by that call alone |
| MultiListenerProgress.ItemReachesAccept | multi.go:65-110 | in every reachable state before Close, a loop that has not delivered its last item can hand just that item, connection or error, to any waiting Accept, and has then delivered everything; nothing else changes |
| MultiListenerProgress.NextIsObtained | multi.go:65-81 | a loop that has delivered everything obtains whatever its open listener yields next |
| MultiListenerProgress.NothingElse | multi.go:65-81 | every loop is in one of these situations, and before Close has ended only if its listener was closed and it had delivered everything |
| MultiListenerProgress.ClosedIsSeenExactlyAfterClose | multi.go:101-110 | Accept returns net.ErrClosed only after Close, and then it can |
| MultiListenerProgress.InnerCloseEndsLoop | multi.go:68-69 | when an inner listener closes by itself its loop can end, and nothing else happens |
| MultiListenerProgress.InnerStaysOpen | multi.go:112-126 | otherwise an inner listener is open until Close closes it |
| MultiListenerProgress.CloseReturns | multi.go:112-126 | in every reachable state every Close call can return, with success if nobody closed the listener before |
| MultiListenerShutdown.StepLowersRank | multi.go:65-126 | every step of a loop or call on what it has lowers the rank |
| MultiListenerShutdown.ShutdownIsBounded | multi.go:65-126 | after Close, in every schedule, at most rank-many steps remain, plus so many for each later call and one for each item that a closed inner listener still yields |
| MultiListenerShutdown.HandOversAreBounded | multi.go:83-110 | closed or not, and however often Accept is called, the merged listener hands over at most what its loops have in hand and what they still obtain |
| MultiListenerShutdown.NothingIsStuck | multi.go:65-126 | after Close, until all loops have exited and all calls returned, some step is possible |
| MultiListenerShutdown.ShutdownDrains | multi.go:47-126 | when after Close only new calls and late items are possible: all loops are gone, every blocked Accept has returned, and only a last item of each listener may be undelivered, a connection being closed |
| CloseTree.AdvanceKeepsInv | proxy/listener.go:71-82 | every step of concurrent Closes on a tree keeps the balance of activations begun, finished and successful at every node |
| CloseTree.ChildBalance | multi.go:120-123 | a child's Close is begun and finished once for each activation that gets past it |
| CloseTree.NothingClosedTwice | unix/listener.go:53-56 | in every run no node's channel is closed twice; in particular the unguarded one of a leaf is not |
| CloseTree.OneWinner | proxy/listener.go:71-82 | no two Close calls on the root succeed |
| CloseTree.WinnerClosedEverythingOnce | multi.go:112-126 | when a Close on the root has succeeded, every channel in the tree has been closed exactly once |
| CloseTree.SomeoneWins | proxy/listener.go:71-82 | when all Close calls have returned, exactly one succeeded and all others were refused |
| CloseTree.NeverDeadlocked | proxy/listener.go:72-80 | while a Close is running, some Close can take a step |
| CloseTree.StepLowersRank | multi.go:112-126 | every step of any Close lowers the work that all activations together have left |
| CloseTree.EveryScheduleEnds | proxy/listener.go:71-82 | whatever the schedule, each Close call accounts for at most so many steps, by the size of the tree; and when none can step, all have returned |
| CloseTree.ParentFirst | multi.go:119-123 | an inner node's channel is closed before that of any child |
| UnixSocket.FileSystem.Listen | unix/listener.go:83-121 | succeeds exactly when no call fails and the names allow it, with path naming the new socket with its mode and nothing else changed; on failure nothing is changed and no listener is open; at every step path names the old file or, from one step on, the new socket, if and only if path does not become the temporary directory, which some step then shows there |
| UnixSocket.OrdinaryNames | unix/listener.go:84 | a path whose last component does not begin with .tmp never becomes the temporary directory |
| UnixSocket.FileSystem.RunDeferred | unix/listener.go:96-101 | the deferred calls close a listener that was not published and remove the temporary entry |
| UnixSocket.FileSystem.ListenIn | unix/listener.go:90-120 | with the temporary directory in place: the socket entry is always removed, and the listener closed unless it was published |
| UnixSocket.FileSystem.Place | unix/listener.go:103-114 | chmod, lstat and rename: the socket has its mode before path names it |
| UnixSocket.FileSystem.MkdirTemp | unix/listener.go:84-88 | creates just the directory, under the first of its random names that is free |
| UnixSocket.FileSystem.ListenUnix | unix/listener.go:91-95 | binds a socket with a new inode and listens on it |
| UnixSocket.FileSystem.Rename | unix/listener.go:112-114 | moves the entry in one step, over a file but not over a directory |
| UnixSocket.FileSystem.Remove | unix/listener.go:88-96 | removes a file, or a directory if empty |
| UnixSocket.SwitchIsPublication | unix/listener.go:90-117 | snapshots that switch once from temporary to placed show path changing once |
| UnixHandover.LatestStaysOpen | unix/listener.go:62-82 | over any sequence of listeners on an undisturbed path, the latest is named by it and never closed by its watcher |
| UnixHandover.TickClosesExactly | unix/listener.go:69-75 | whoever touches the path and when, a tick closes its listener if and only if the path named something else when it looked |
| UnixHandover.WatcherIsRight | unix/listener.go:70-74 | every closing by a watcher ends a tick that found the path naming something else; at that end the path names the listener's socket if and only if the last change since the look put it back |
| UnixHandover.ClosedIsDisplaced | unix/listener.go:70-74 | where nobody puts the socket back, the path never names the socket of a listener its watcher has closed |
| UnixHandover.PutBackTooLate | unix/listener.go:70-74 | how any run can go on so that a socket moved away and back costs its listener |
| UnixHandover.DisplacedIsClosed | unix/listener.go:79-82 | once the path names something else, and until the socket is put back, the listener is closed when a tick begun after that has completed |
| UnixHandover.HandoverLeavesOneOpen | unix/listener.go:62-121 | when every earlier watcher has ticked after a new listener took the path, that listener alone is open |
| UnixHandover.UserCloses | unix/listener.go:53-56 | Close closes the listener, lets its watcher return, and leaves the path and all other listeners alone |
| UnixHandover.WatcherGoesOn | unix/listener.go:62-78 | the watcher of an open listener can always begin a tick or end the one it is in: on with watching if it saw the listener's own socket, else closing it |
| UnixHandover.PublishTakesPath | unix/listener.go:112-120 | a new listener is open, watched and named by the path |
| Strings.IndexByte | open.go:46-48 | the first position of the character, or -1 if there is none |
| Strings.SplitJoin | tls/listener.go:69 | splitting joined parts without separators gives the parts |
| Strings.JoinSplit | tls/listener.go:69 | joining split parts gives the text |
| ListenerSpecTheorems.ParsePrint | open.go:36-53 | for writable listeners nested to any depth, opening the printed text denotes the same listener |
| ListenerSpecTheorems.WritableIfReadsBack | open.go:36-53 | and for no others |
| ListenerSpecTheorems.RoundTripExactly | open.go:36-53 | the string notation round-trips if and only if the listener is writable: non-empty arguments, absolute certificate paths, no colon, no comma in hostnames |
| ListenerSpecTheorems.CertReadsBack | tls/listener.go:57-71 | the same for certificate sources: a closing slash tells directories from files, everything else is a hostname list |
| ListenerSpecTheorems.AcceptedIsWritable | open.go:44-53 | whatever Open accepts as a string is writable |
| ListenerSpecTheorems.CanonicalForm | open.go:44-53 | printing what a specification denotes gives a specification of the same listener |
| ListenerSpecTheorems.JSONExactly | open.go:71-79 | for every openable listener, decoded JSON fails for the certificate if any in it is automatic; else, and for parameters built in Go, it fails for the port if the TCP socket has an address; else it opens the listener written |
| ListenerSpecTheorems.TLSFromJSON | tls/listener.go:77-98 | one level of that: the automatic certificate of decoded JSON is refused before the inner listener is opened |
| ListenerSpecTheorems.DecodedHostnamesAreLost | tls/listener.go:82-86 | a JSON object that is refused when decoded and opens when its hostnames are a []string |
| ListenerSpecTheorems.NotationsAgreeExactly | open.go:71-79 | string and JSON notation denote the same listener if and only if no TCP socket has an address and, in decoded JSON, no certificate is automatic |
| ListenerGrammar.StringNotation | open.go:44-53 | with every keyword written out: Open accepts a text as a listener if and only if the grammar says that the text denotes it |
| ListenerGrammar.JSONNotation | open.go:71-79 | OpenJSON accepts an object as a listener if and only if the fields denote it, numbers included, a file before a directory before automatic certificates |
| ListenerGrammar.HTTPSIsTLS | tls/listener.go:46-49 | "https:" and "tls:" in front of any text denote the same |
| ListenerGrammar.StringOffers | tls/listener.go:53-109 | at every depth: the protocols are "h2", "http/1.1", and then "acme-tls/1" exactly for automatic certificates |
| ListenerGrammar.JSONOffers | tls/listener.go:53-109 | the same for JSON objects |
| ListenerGrammar.RefusedTypes | builtin.go:49-175 | what each type refuses, and with which error |
| ListenerGrammar.RefusedInTLS | tls/listener.go:73-76 | a TLS text is refused for what its inner text is refused for |
| ListenerGrammar.RefusedTCP | builtin.go:106-144 | a TCP argument is refused for its form, then its address, then its port |
| ListenerGrammar.RefusedSockets | builtin.go:49-159 | what objects for sockets are refused for |
| ListenerGrammar.RefusedWrappers | builtin.go:161-175 | what objects for wrappers are refused for: a missing certificate, a missing listener, or what their listener is refused for |
| Strings.Decimal | builtin.go:61 | numbers are decimal |
| Strings.Unsigned | builtin.go:61 | and fit 64 bits, or as an int one less |
| Strings.Signed | builtin.go:141 | as an int they may have a sign |
| Strings.OnlyDigits | builtin.go:141 | nothing but digits makes a number, after one sign |
| OpenListeners.Host.CreateSocket | builtin.go:146 | one new descriptor that was free, or none exactly if the system refuses |
| OpenListeners.Host.FileListener | builtin.go:66-69 | listens on a new duplicate of an open descriptor, failing exactly if it is not open or the system refuses; either way the descriptor itself is closed |
| OpenListeners.Host.OpenFDListener | builtin.go:49-70 | opens the descriptor named by argument or parameter and closes it, refusing malformed ones before touching anything |
| OpenListeners.Host.Search | builtin.go:90-96 | the first position of the name among those passed |
| OpenListeners.Host.OpenFDNameListener | builtin.go:72-99 | opens the descriptor passed to this process under the name and closes it; touches nothing if the name is missing, was not passed, or descriptors were passed to another process |
| OpenListeners.PassedInOrder | builtin.go:82-96 | if LISTEN_PID is our process number, the names of LISTEN_FDNAMES stand for descriptors 3, 4 and so on, the first one of a name counting |
| OpenListeners.NotPassed | builtin.go:98 | any other name stands for none |
| OpenListeners.Host.OpenTCPListener | builtin.go:101-147 | opens the IP and port that the argument or the parameters give, refusing bad ones |
| OpenListeners.Host.ListenUnix | unix/listener.go:112-120 | on success the path names the new socket, on failure no path has changed |
| OpenListeners.Host.OpenUnixListener | builtin.go:149-159 | opens the path given, refusing a missing one, and takes its file over |
| OpenListeners.Host.OpenProxyListener | builtin.go:161-175 | wraps the inner listener, and leaks nothing if that fails |
| OpenListeners.Host.CertFromText | tls/listener.go:64-71 | the certificate source and protocols that a text stands for |
| OpenListeners.Host.CertFromFields | tls/listener.go:78-87 | those that parameters stand for, if any |
| OpenListeners.Host.OpenHTTPSListener | tls/listener.go:51-109 | wraps the inner listener with the certificate source and protocols denoted, and leaks nothing if that fails |
| OpenListeners.Host.OpenType | open.go:36-42 | opens what the registered type denotes, or refuses an unknown type |
| OpenListeners.Host.Open | open.go:44-53 | terminates on every string; opens the listener that the text denotes, with the right protocols at every depth, on one new descriptor, if and only if there is one, the descriptor named is available and the system does not refuse; else fails with the specification's own error or the system's and leaves no new one; either way exactly the descriptor that the specification names is closed |
| OpenListeners.Host.OpenJSON | open.go:71-79 | the same for the JSON notation |
| OpenListeners.Host.Close | close.go:32-37 | closing a listener, however wrapped, releases its socket |
| OpenListeners.Host.CloseAll | close.go:32-37 | releases exactly the sockets of the listeners given |
| OpenListeners.OneMore | open.go:59-67 | opening one more listener costs an earlier one its socket exactly if its specification names a descriptor that was not open at the start or was named before |
| OpenListeners.NothingLeftOver | open.go:62-65 | closing the listeners opened so far leaves what was open at the start and was not named, which is everything exactly if nothing open was named |
| OpenListeners.StaysAvailable | open.go:59-67 | a descriptor that was available at the start is so at its turn, if no two specifications name the same |
| OpenListeners.NamedIsLost | builtin.go:66-69 | whatever comes of opening a descriptor and then a bad specification, the descriptor is closed and nothing else is |
| OpenListeners.InheritedIsLost | builtin.go:66-69 | so a call for fd:3 and a bad specification, with descriptors 3 and 7 open, leaves 7 |
| OpenListeners.LaterTakesAway | builtin.go:66-69 | a successful call for a TCP port and for the descriptor that the port happens to get returns a listener without its socket |
| OpenListeners.SocketIsTakenAway | builtin.go:66-69 | the same for port 80 and fd:3 |
| OpenListeners.PlacedExactly | unix/listener.go:112-114 | an entry names a new socket if and only if a specification opened is for a UNIX socket there; every other one is as before |
| OpenListeners.FailureReplacesPaths | open.go:59-67 | a failing call leaves every path as it was if and only if no specification before the failing one is for a UNIX socket; each such path then names a new socket |
| OpenListeners.Host.OpenAll | open.go:55-69 | all or nothing: listener i is the one spec i denotes, each with an open socket to itself if and only if the specifications name separate descriptors that were open; or the first spec that fails is named, and exactly what was open before and was not named is open; it succeeds if every spec denotes a listener, the descriptors named are available and separate, and the system refuses nothing |
| ClientHello.TeeReader.Read | tlsutil/hello.go:50 | recorded and unread bytes together stay the same |
| ClientHello.ReplayReader.Read | tlsutil/hello.go:41 | yields the recorded bytes, then the rest, and an error only with or after the last of them |
| ClientHello.ReadClientHello | tlsutil/hello.go:57-73 | whatever reads the handshake issues, the bytes it saw are recorded |
| ClientHello.PeekClientHello | tlsutil/hello.go:48-55 | with or without a hello, the returned reader yields the original stream and its ending |

## Left out

- Goroutines and channels as objects: the three concurrent listeners and the watcher are transition systems on values, so update in place and aliasing of their state are not captured; nor are memory-model effects below sequential consistency.
- FileCache.FileCache.Load: splits off its second half as Reload; the deferred calls of UnixSocket.FileSystem.Listen likewise run at the ends of the methods it is split into.
- FileCache.FileCache.Load: a panic of Clean's caller and the lock itself are not modelled; each locked section is one step.
- Delivery after Close: a select may still take a ready channel branch after Close, so no theorem says that nothing is delivered from then on.
- OpenListeners.FailureReplacesPaths: which listener's watcher notices that its path was taken over is UnixHandover's matter; the two models are not joined.
- Liveness before Close: the progress theorems say what can happen next, not that a scheduler lets it happen; and if an inner listener reports net.ErrClosed by itself, the loop exits and Accept waits until the outer Close.
- CloseTree.NothingClosedTwice: the root must be a proxy or merged listener; TLS listeners are not nodes, because their Close is library code without a guard.
- UnixHandover.DisplacedIsClosed: ticks are events; the five seconds between them are not modelled, so a socket moved away and put back between two ticks goes unnoticed.
- UnixSocket.FileSystem.MkdirTemp: the random names are a given list of any length; the limit of 10000 tries is not modelled.
- ListenerSpecTheorems.AcceptedIsWritable: assumes that net.SplitHostPort takes apart a bracketed form of any address it has produced; net.SplitHostPort and net.ParseIP are arbitrary functions.
- OpenListeners.Host.OpenFDNameListener: the reasons why no descriptor was passed are not told apart from a refusal by the system.
- OpenListeners.Host.FileListener: a descriptor number too large for the system's integers is just one that is not open.
- OpenListeners.Host.OpenTCPListener: the choice of tcp4 or tcp6 and the listen call are the system's.
- Registration of listener types: the registered types are fixed, with the tls package imported.
- X.509, PKCS, PEM decoding and the TLS handshake: arbitrary partial functions and an arbitrary reader.
- Key types of a client hello, the default server name wrapper, ACME setup: inputs or configuration only.
- Error texts: only classes of errors are told apart.
