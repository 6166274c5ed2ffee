# Verified model of the TACACS+ service

A Dafny model of the parts of the repository that decide something: the TACACS+ protocol engine and its packets
(RFC 8907), the client's authorization snapshot and its caches, the server's permission intervals, the log query
builder, the asynchronous log queue, and the bounded limiters of the two web front ends. `dafny verify dfyconfig.toml`
checks all of it.

| modules | what they are about |
|---|---|
| `Bytes`, `Packets`, `Obfuscation`, `Framing`, `Sessions` | packet bodies and their parsers, the MD5 pad, cutting a byte stream into packets, one end of a session |
| `Lockstep`, `LongestRun` | a client session and a server session against each other, as a state machine over every order of steps; the longest session there is |
| `Links`, `Connection` | many sessions over the two byte streams of one connection, in general and for the sessions of `Lockstep` |
| `Multiplexer` | the `serve` loop of a connection: sessions, channels, the idle timer |
| `AuthenHandler` | the prompt loops and the decision of a login |
| `MetaVersion`, `Refresh`, `UserCache` | the version vector, the optimistic refresh for any kind of snapshot, and the tables it is used for |
| `Authorization` | evaluating roles |
| `CacheKeys`, `MemoCaches`, `CacheExactness`, `CacheRaces` | the keys under which verdicts are cached, the memo caches on top of a snapshot, exactly when cached verdicts are right, and requests that overlap a refresh |
| `Intervals`, `Permissions`, `RoleStrings` | merging approved ranges, active roles and alerts, the role string between server and client |
| `Conjunctions`, `LogQuery`, `QueryParts`, `LogMeaning`, `LogScope` | condition texts with placeholders, one filter, PREWHERE and WHERE, the rows they select, the row scope of ordinary users |
| `LogQueue` | the bounded queue, its worker, and shutdown |
| `LoginLimiter`, `LimiterRuns`, `ApprovalQuota`, `NonceStore` | login limits, the quota on approvals, the replay store |
| `Results`, `Strings`, `Sorting`, `Sets` | Go's `strings` and `sort` as far as they are needed |

Conventions. Code that changes things in place is a class or a method over an array or a map field, and each such
method is proved against a function of the old state; the properties are then proved of those functions. Foreign code
is a parameter: MD5, bcrypt, regular expressions, address matching, number and time parsing, and SQL comparison are
functions about which nothing is assumed except that they answer alike for equal arguments. What `Read` delivers, what
the log server answers, in which order a Go map is visited and in which order equal sort keys come out are left open.

Findings, each proved in the module named.

* `Lockstep.SequenceNumbersWrap`: the client stops continuing only once the number has reached 254, so sessions have at
  most 258 packets, and the 256th carries number 0. All checks still pass then, because both ends wrap alike; numbers
  are plain counts exactly for runs of at most 255 packets. `LongestRun.LongestRunAttained` gives a run of all 258.
* `NonceStore.ReplayExact`: a request with a fixed timestamp and nonce can never be accepted twice exactly when twice the
  allowed skew plus the longest delay between the time check and the lock is less than the lifetime of a nonce. The time
  is checked before the body is read, so the delay need not be zero. Without any delay this is a skew from 1 to 299
  seconds (`NonceStore.ReplaySafetyExact`); with the default of 300 it fails at the boundary second.
* `NonceStore.NearExact`: besides the timestamps within the skew, the time check lets through the one that lies 2 to the
  63 seconds in the past, where its difference overflows.
* `CacheExactness.ApartExact`: with every request and every refresh one step, the cached verdicts are right for every
  library and every run with the servers of one set and role templates named from another exactly when the command keys
  tell these apart: what follows the command in one key is not the tail of another after a newline, and no two servers
  share it. Commands may hold anything. For role names without newlines the condition is that no server is the tail of
  another after a newline (`CacheExactness.SeparateExact`); creating a role template refuses only commas, and with a
  newline in a role name even servers without one are confused (`CacheExactness.NamesMatter`).
* `CacheRaces.OrderExact`: a request that spans a refresh can put a verdict of the old roles into the new cache, where it
  stays until the next refresh. With users, caches and verdicts read and stored in separate steps, an order of steps is
  safe exactly when no request looks in a cache after a request of other users has written there.
* `Multiplexer.Conn.ServeStray`: a late reply for a closed session opens a session at a client that nothing closes, and
  the idle timer is never armed again on that connection.
* `RoleStrings.ClientRolesExact`: a role template called "null" is given to every user without an active role.
* `LimiterRuns.CleaningInvisible`: a deleted bucket acts as the stale one would at every map size, also when it is full.
* `Intervals.MergeRangeTimes` needs no assumption that a range starts before it ends.
* `Refresh.StaleUntilBumped`: a write whose bump comes later can be acknowledged with a snapshot that lacks it.

## Model

| member | source | states |
|---|---|---|
| Packets.MarshalAuthenStart | pkg/public/tacplus/packet.go:170-192 | fails exactly for fields that do not fit, else appends the body of RFC 8907 section 5.1 |
| Packets.UnmarshalAuthenStart | pkg/public/tacplus/packet.go:194-216 | equals the decoding function on every byte string, and never indexes out of bounds |
| Packets.AuthenStartRoundTrip | pkg/public/tacplus/packet.go:170-216 | decoding an encoded start, with anything after it, gives it back |
| Packets.AuthenStartCanonical | pkg/public/tacplus/packet.go:170-216 | what decodes encodes again to a prefix of the bytes |
| Packets.MarshalAuthenReply | pkg/public/tacplus/packet.go:238-252 | fails exactly for texts that do not fit, else appends the body of section 5.2 |
| Packets.UnmarshalAuthenReply | pkg/public/tacplus/packet.go:254-271 | equals the decoding function on every byte string |
| Packets.AuthenReplyRoundTrip | pkg/public/tacplus/packet.go:238-271 | decoding an encoded reply gives it back |
| Packets.AuthenReplyCanonical | pkg/public/tacplus/packet.go:238-271 | re-encoding gives the bytes back exactly if no flag other than no-echo was set |
| Packets.MarshalAuthenContinue | pkg/public/tacplus/packet.go:286-299 | fails exactly for a message that does not fit, else appends the body of section 5.3, aborts included |
| Packets.UnmarshalAuthenContinue | pkg/public/tacplus/packet.go:301-322 | equals the decoding function on every byte string |
| Packets.AuthenContinueRoundTrip | pkg/public/tacplus/packet.go:286-322 | decoding an encoded continue, aborting or not, gives it back |
| Packets.AuthenContinueCanonical | pkg/public/tacplus/packet.go:286-322 | exactly when re-encoding gives the bytes back |
| Packets.MarshalAuthorRequest | pkg/public/tacplus/packet.go:336-369 | fails exactly for fields or arguments that do not fit, else appends the body of section 6.1 |
| Packets.UnmarshalAuthorRequest | pkg/public/tacplus/packet.go:371-399 | equals the decoding function on every byte string |
| Packets.AuthorRequestRoundTrip | pkg/public/tacplus/packet.go:336-399 | decoding an encoded authorization request gives it back |
| Packets.AuthorRequestCanonical | pkg/public/tacplus/packet.go:336-399 | what decodes encodes again to a prefix of the bytes |
| Packets.MarshalAuthorResponse | pkg/public/tacplus/packet.go:409-438 | fails exactly for parts that do not fit, else appends the body of section 6.2 |
| Packets.UnmarshalAuthorResponse | pkg/public/tacplus/packet.go:440-463 | equals the decoding function on every byte string |
| Packets.AuthorResponseRoundTrip | pkg/public/tacplus/packet.go:409-463 | decoding an encoded authorization response gives it back |
| Packets.AuthorResponseCanonical | pkg/public/tacplus/packet.go:409-463 | what decodes encodes again to a prefix of the bytes |
| Packets.MarshalAcctRequest | pkg/public/tacplus/packet.go:478-511 | fails exactly for fields or arguments that do not fit, else appends the body of section 7.1 |
| Packets.UnmarshalAcctRequest | pkg/public/tacplus/packet.go:513-542 | equals the decoding function on every byte string |
| Packets.AcctRequestRoundTrip | pkg/public/tacplus/packet.go:478-542 | decoding an encoded accounting request gives it back |
| Packets.AcctRequestCanonical | pkg/public/tacplus/packet.go:478-542 | what decodes encodes again to a prefix of the bytes |
| Packets.MarshalAcctReply | pkg/public/tacplus/packet.go:551-565 | fails exactly for texts that do not fit, else appends the body of section 7.2 |
| Packets.UnmarshalAcctReply | pkg/public/tacplus/packet.go:567-581 | equals the decoding function on every byte string |
| Packets.AcctReplyRoundTrip | pkg/public/tacplus/packet.go:551-581 | decoding an encoded accounting reply gives it back |
| Packets.AcctReplyCanonical | pkg/public/tacplus/packet.go:551-581 | what decodes encodes again to a prefix of the bytes |
| Packets.ReadBuf.Byte | pkg/public/tacplus/packet.go:107-111 | takes the next byte and moves on by one |
| Packets.ReadBuf.Uint16 | pkg/public/tacplus/packet.go:113-117 | takes two bytes, high one first |
| Packets.ReadBuf.Take | pkg/public/tacplus/packet.go:119-135 | takes the next bytes and moves on |
| Packets.RoundTrip | pkg/public/tacplus/packet.go:105-581 | for all seven packet types: whatever marshals is decoded as itself |
| Packets.BodyLength | pkg/public/tacplus/conn.go:24 | no marshalled body is longer than 196356 bytes, so the size check of a peer never refuses one |
| Packets.LongestBody | pkg/public/tacplus/conn.go:24 | exactly which bodies reach that length: authorization responses full in every part |
| Obfuscation.Crypt | pkg/public/tacplus/conn.go:65-90 | turns the packet into itself XORed with the chained MD5 pad cut to the body length (section 4.5), in place |
| Obfuscation.ObfuscateInvolution | pkg/public/tacplus/conn.go:65-90 | done twice it restores the packet, for every key, digest and body length |
| Obfuscation.ObfuscateInjective | pkg/public/tacplus/conn.go:65-90 | packets with equal headers that obfuscate alike are equal |
| Obfuscation.PadFromBlocks | pkg/public/tacplus/conn.go:70-88 | the pad is the same however many digests were made, if they suffice |
| Framing.Conn.Read | pkg/public/tacplus/conn.go:363-385 | a read delivers some bytes that come next, or the end |
| Framing.Conn.ReadPacketHeader | pkg/public/tacplus/conn.go:363-385 | twelve bytes, or the end, told apart by where the data stops |
| Framing.Conn.ReadPacketBody | pkg/public/tacplus/conn.go:387-416 | completes a header to the packet that the data starts with, or reports why there is none |
| Framing.Conn.ReadLoop | pkg/public/tacplus/conn.go:440-461 | passes on exactly the packets of the stream and stops with the right error, however reads are cut up |
| Framing.FramesOfConcat | pkg/public/tacplus/conn.go:363-461 | well-formed packets in a row are recovered as that list, ending with EOF between packets and with an unexpected EOF inside one |
| Framing.FramesSound | pkg/public/tacplus/conn.go:363-461 | whatever comes out of any stream is well-formed packets whose concatenation is a prefix of it |
| Sessions.Session.WritePacket | pkg/public/tacplus/conn.go:187-199 | numbers, sizes and obfuscates the packet in place |
| Sessions.Session.ReadPacket | pkg/public/tacplus/conn.go:152-185 | accepts exactly the next number of the right parity, and then restores the packet in place |
| Sessions.IncomingOfOutgoing | pkg/public/tacplus/conn.go:152-199 | what one side writes the other side reads, header and body |
| Sessions.OutgoingWellFormed | pkg/public/tacplus/conn.go:187-199 | a written packet passes the other side's size and version checks |
| Sessions.SeqNoExact | pkg/public/tacplus/conn.go:187-199 | the n-th packet carries number n up to 255 |
| Sessions.SeqNoParity | pkg/public/tacplus/conn.go:171-183 | parity alternates from packet to packet, also across the wrap |
| Lockstep.LibraryIsFaithful | pkg/public/tacplus/conn.go:152-223 | the library's own marshalling, stamping and obfuscation is a codec that the other side reads back, for every secret |
| Lockstep.StepKeepsInv | pkg/public/tacplus/server.go:66-95 | every step of client, server or network keeps one speaker at a time and what is under way |
| Lockstep.RunKeepsInv | pkg/public/tacplus/conn.go:581-606 | and so does every run |
| Lockstep.Lockstep | pkg/public/tacplus/conn.go:494-523 | in every run no sequence, parity, version or decoding check fails, the one-slot queues are never full, client numbers are odd and server numbers even, and each side has decoded what the other sent |
| Lockstep.SequenceNumbersWrap | pkg/public/tacplus/client.go:35-50 | sessions have at most 258 packets; numbers are counts exactly up to 255 packets, that is 127 replies |
| Lockstep.LibraryRuns | pkg/public/tacplus/client.go:160-178 | both hold of the library's codec for every secret, flag and configuration |
| LongestRun.LongestRunAttained | pkg/public/tacplus/client.go:35-50 | for every secret and configuration some run has all 258 packets, its 256th with number 0, and no check fails in it |
| LongestRun.Round | pkg/public/tacplus/server.go:66-95 | an answer and another prompt add two packets and leave the client prompted again, up to 128 prompts |
| Links.Pop | pkg/public/tacplus/conn.go:440-461 | the next packet cut out of a shared stream is the next one of the session that its header names |
| Links.LinkRunKeepsInv | pkg/public/tacplus/conn.go:464-523 | whatever sessions do and however the streams are read, each session gets its own packets in order and no stream breaks |
| Connection.LibraryIsHeaded | pkg/public/tacplus/conn.go:187-223 | written packets keep the id of their header and are well formed; what is read comes on its own header |
| Connection.ManySessions | pkg/public/tacplus/conn.go:440-523 | any number of sessions interleaved over one connection: each is as a run of its own would leave it, so no check of any fails and no one-slot queue is full |
| Connection.LibraryPeers | pkg/public/tacplus/conn.go:152-223 | the library's client and server are such peers, for every secret |
| Lockstep.WrittenPacketsAreFramed | pkg/public/tacplus/conn.go:464-492 | packets written one after the other are cut apart again at the other end |
| Multiplexer.Conn.ProcessPacket | pkg/public/tacplus/conn.go:494-525 | hands a packet to its session, opens one at a server, and settles multiplexing on the first packet |
| Multiplexer.Conn.NewSession | pkg/public/tacplus/conn.go:527-542 | refuses a used id or an expired connection, else registers the session |
| Multiplexer.Conn.CloseSession | pkg/public/tacplus/conn.go:544-561 | shuts the session, removes it only if it is the one in the map, arms the timer only if the map is empty |
| Multiplexer.Conn.ServeStray | pkg/public/tacplus/conn.go:494-525 | a packet for no session opens one; while nothing asks for it to be closed it stays, the idle timer is not armed, and only a close of the connection ends the loop |
| Multiplexer.Conn.IdleExpired | pkg/public/tacplus/conn.go:505 | tells whether the timer has fired, and stops it otherwise |
| Multiplexer.Conn.Cleanup | pkg/public/tacplus/conn.go:563-579 | shuts every session ever registered, each once |
| Multiplexer.Conn.Serve | pkg/public/tacplus/conn.go:581-606 | over every run nothing is closed twice or sent to when closed, all sessions are shut on return, and an idle close finds no session open |
| Multiplexer.Session.TrySend | pkg/public/tacplus/conn.go:515-522 | a packet goes into the one-slot queue exactly if it is empty |
| AuthenHandler.FirstText | pkg/client/tac_plus/handler.go:53-106 | a text that is found is not empty and was found within the tries |
| AuthenHandler.ServerSession.Ask | pkg/public/tacplus/server.go:66-113 | one prompt takes two sequence numbers, unless the exchange fails |
| AuthenHandler.HandleAuthenStart | pkg/client/tac_plus/handler.go:53-129 | at most 11 prompts for every sequence of answers, last number at most 24, and pass exactly for an admitted user |
| AuthenHandler.ElevenPrompts | pkg/client/tac_plus/handler.go:53-106 | answers for which all 11 prompts are made |
| Strings.SplitJoin | pkg/public/db/general.go:35-39 | pieces without the separator are read back from their join |
| Strings.SplitOfJoin | pkg/server/permissionSystem/permissionSystem.go:204-205 | in general splitting a join splits each piece |
| Strings.JoinSplit | pkg/client/tac_plus/user.go:152 | joining what was split gives the text again |
| Strings.TrimSpaceEmpty | pkg/client/tac_plus/user.go:82 | trimming leaves nothing exactly of texts that are all white space, which is how blank texts are told |
| Strings.ValueOfDecimal | pkg/public/db/general.go:35-38 | a number is determined by its decimal text |
| Sorting.SortDeterminate | pkg/client/tac_plus/user.go:356-365 | sorted lists are equal exactly if the unsorted ones hold the same elements equally often |
| MetaVersion.GetTablesUpdateTime | pkg/public/db/general.go:14-40 | the joined text of the six counters, a missing row counting as 0 and later rows winning |
| MetaVersion.VersionStringExact | pkg/public/db/general.go:8-40 | two texts are equal exactly if all six counters are |
| MetaVersion.VersionStringNonempty | pkg/client/tac_plus/user.go:107-109 | no text is the empty one that a reset leaves |
| MetaVersion.Meta.BumpMetaVersion | pkg/public/db/meta.go:31-45 | counts one key up, unless triggers do |
| MetaVersion.Meta.RefreshAllMeta | pkg/public/db/meta.go:49-64 | counts all six keys up by one and nothing else |
| MetaVersion.BumpNeverUndone | pkg/public/db/meta.go:25-45 | after a bump no later bumps bring the old text back |
| Refresh.StepKeepsInv | pkg/client/tac_plus/user.go:111-224 | a write, a bump, a reset or a step of a poll keeps what a poll is heading for and what was acknowledged |
| Refresh.HeldIsCurrent | pkg/client/tac_plus/user.go:111-224 | for any snapshot: a client that holds the present version text has the present snapshot, unless a write awaits its bump |
| Refresh.UndisturbedPoll | pkg/client/tac_plus/user.go:107-224 | an undisturbed poll after a reset publishes and acknowledges the present tables, whatever bump is missing |
| Refresh.StaleUntilBumped | pkg/client/tac_plus/user.go:198-213 | without the bump a snapshot that lacks the write is acknowledged, for every two contents that differ |
| UserCache.GetAllRoleCmdsServers | pkg/client/tac_plus/user.go:67-105 | the lists of every role, names without a row and blank list names left out |
| UserCache.CompileUsers | pkg/client/tac_plus/user.go:147-197 | the map of the users of normal status, from the rows, the roles and the on-duty list |
| UserCache.CompiledUsers | pkg/client/tac_plus/user.go:148-151 | a user is in the map exactly if some row of normal status is about that user |
| UserCache.CompiledAsLast | pkg/client/tac_plus/user.go:188-196 | and is as the last such row says |
| UserCache.ReadKeepsFinish | pkg/client/tac_plus/user.go:67-143 | reading one more row or list does not change the map that the poll is heading for |
| UserCache.ReadCounts | pkg/client/tac_plus/user.go:67-143 | the reads of a poll on tables that stand still come to an end, one by one |
| UserCache.AcknowledgedIsCurrent | pkg/client/tac_plus/user.go:111-230 | over every interleaving: version text current and no bump awaited imply that the published map is that of the present tables |
| Authorization.CheckRoleMatch | pkg/client/tac_plus/user.go:314-354 | names the role exactly if command and server match it |
| Authorization.Evaluate | pkg/client/tac_plus/user.go:288-299 | the first role that matches, or none |
| Authorization.Evaluated | pkg/client/tac_plus/user.go:288-299 | passes exactly if some role matches, in whatever order they are listed |
| CacheKeys.CommandKeyExact | pkg/client/tac_plus/user.go:272 | the cache key gives back command, server and role key, for separate servers and role keys without newlines |
| CacheKeys.KeyDecides | pkg/client/tac_plus/user.go:356-365 | users with one role key get one verdict, in whatever order they list their roles |
| CacheKeys.BuildOk | pkg/client/tac_plus/user.go:147-197 | a compiled map has its roles as the templates make them, and its keys from their names |
| CacheKeys.KeyDeterminesVerdict | pkg/client/tac_plus/user.go:272-312 | one command key, one verdict, for any two users of a snapshot and any two requests that the keys tell apart |
| CacheKeys.ApartOfPlainNames | pkg/client/tac_plus/user.go:272 | for role names without newlines keys tell requests apart exactly if no server is the tail of another after a newline |
| MemoCaches.Client.UpdateTacacsUserInfoAndCache | pkg/client/tac_plus/user.go:226-230 | a new snapshot comes with empty caches |
| MemoCaches.Client.CheckUserPassword | pkg/client/tac_plus/user.go:236-265 | answers from the cache or checks and remembers |
| MemoCaches.Client.CheckCmdAndServerInRole | pkg/client/tac_plus/user.go:267-312 | answers from the cache or evaluates and remembers; no roles, no pass |
| MemoCaches.Client.HandleAuthorRequest | pkg/client/tac_plus/handler.go:197-217 | unknown users fail, on-duty users pass, others are decided by their roles; arguments only with a pass |
| MemoCaches.AskIsRight | pkg/client/tac_plus/user.go:267-312 | one request is decided as without a cache, and leaves the cache explained |
| MemoCaches.CachedIsDirect | pkg/client/tac_plus/user.go:226-312 | over every sequence of requests and refreshes, each one step, all verdicts are those of the present snapshot, for servers and role names that the keys tell apart |
| MemoCaches.CollidingRequests | pkg/client/tac_plus/user.go:272-277 | of two requests with one key the later gets the verdict of the earlier, which is wrong whenever the two differ |
| MemoCaches.CollidingServers | pkg/client/tac_plus/user.go:272-277 | a newline moved from the server into the command gets the other verdict whenever the two differ |
| CacheExactness.ApartExact | pkg/client/tac_plus/user.go:272-312 | for a set of servers and a set of role names that holds, for every library and run, exactly if the keys tell them apart |
| CacheExactness.SeparateExact | pkg/client/tac_plus/user.go:272-312 | for role names without newlines that is: exactly if no server is the tail of another after a newline |
| CacheExactness.PlainServersDirect | pkg/client/tac_plus/user.go:272-312 | so it holds of servers and role names without newlines |
| CacheExactness.NamesMatter | pkg/server/http/handler_role.go:61-70 | two servers and two role names, of which one holds a newline, that are confused although the servers are separate |
| CacheRaces.UnmixedIsSafe | pkg/client/tac_plus/user.go:275-305 | in an order of steps without such a look, every answer is what the users loaded call for and every entry is explained |
| CacheRaces.MixedIsWrong | pkg/client/tac_plus/user.go:275-305 | after such a look there is, for two requests with one key, a wrong answer |
| CacheRaces.OrderExact | pkg/client/tac_plus/handler.go:197 | for separate steps of requests and refreshes: an order of steps is right for all tables and requests exactly if no request looks in a cache after a request of other users wrote there |
| CacheRaces.PairedIsUnmixed | pkg/client/tac_plus/user.go:226-234 | so it is if every request looks only in the cache stored with its users |
| CacheRaces.SpanningMixes | pkg/client/tac_plus/user.go:226-305 | but after any run a refresh, a request that spans it and another request of the same kind are such an order |
| MemoCaches.PasswordChecksExact | pkg/client/tac_plus/user.go:236-265 | cached password checks are right exactly if no two share a key and differ |
| MemoCaches.PlainHashesDecide | pkg/client/tac_plus/user.go:236-265 | hashes without newlines suffice for that |
| Intervals.MergeRangeTimes | pkg/server/permissionSystem/permissionSystem.go:159-178 | sorts in place; the result is sorted, its ranges lie strictly apart, and their union is that of the input |
| Intervals.MergedUnique | pkg/server/permissionSystem/permissionSystem.go:156-178 | proper ranges with one union merge to one list, whatever order they come in |
| Intervals.ActiveExact | pkg/server/permissionSystem/permissionSystem.go:193-199 | some merged range is active exactly inside the union of the approvals |
| Intervals.ActiveAwayFromEnds | pkg/server/permissionSystem/permissionSystem.go:193-199 | at an instant that ends no approval: exactly if some approval contains it |
| Intervals.ActiveOnce | pkg/server/permissionSystem/permissionSystem.go:503 | at most one merged range is active, so leaving the loop loses nothing |
| Intervals.ActiveRunsUntilEnd | pkg/server/permissionSystem/permissionSystem.go:481-502 | the end of the active range is the last instant up to which the approvals run on |
| Permissions.MergePermissions | pkg/server/permissionSystem/permissionSystem.go:148-154 | every level has its ranges merged |
| Permissions.UpdateRoleInfos | pkg/server/permissionSystem/permissionSystem.go:115-146 | the approvals of present users, by user and level, merged |
| Permissions.ActiveLevelsExact | pkg/server/permissionSystem/permissionSystem.go:187-200 | a level is active exactly inside the union of the user's approvals for it |
| Permissions.ActiveLevelsAwayFromEnds | pkg/server/permissionSystem/permissionSystem.go:187-200 | at an instant that ends none of them: exactly if one contains it |
| Permissions.AlertForLevel | pkg/server/permissionSystem/permissionSystem.go:481-504 | at most one alert for a user and level |
| Permissions.ComputeRoleExpiryAlerts | pkg/server/permissionSystem/permissionSystem.go:477-508 | the alerts are exactly the due ones, one for each user and level, whatever order the maps are visited in |
| Permissions.AlertExact | pkg/server/permissionSystem/permissionSystem.go:469-508 | there is an alert exactly if the approvals cover the instant and run on for at most 72 hours; it names how long, and the band |
| Permissions.AlertsFromApprovals | pkg/server/permissionSystem/permissionSystem.go:115-178 | from the approvals themselves: exactly the alerts that are due, one for each user and level |
| RoleStrings.GetCurrentUserRoleAt | pkg/server/permissionSystem/permissionSystem.go:187-206 | the sorted join of the active levels or "null", whatever order the map is visited in |
| RoleStrings.ReadPieces | pkg/client/tac_plus/user.go:152-158 | the names read back are those that the active levels split into |
| RoleStrings.ReadExact | pkg/client/tac_plus/user.go:152-158 | they are the active levels exactly if there are some and none holds a comma |
| RoleStrings.OnceEach | pkg/client/tac_plus/user.go:152-158 | and then each is read once |
| RoleStrings.ClientRolesExact | pkg/client/tac_plus/user.go:152-186 | the client gives exactly the active roles that have a template, unless none is active and "null" is a template |
| RoleStrings.UpdateDatabase | pkg/server/permissionSystem/permissionSystem.go:210-230 | writes exactly the rows that differ from what is expected |
| RoleStrings.SecondUpdateWritesNothing | pkg/server/permissionSystem/permissionSystem.go:208-230 | afterwards every row is as expected and a second update writes nothing |
| Conjunctions.SplitJoinAnd | pkg/server/clickhouse/logstore.go:659-660 | conjuncts in which no " AND " begins are found again in their conjunction |
| Conjunctions.SelectedExact | pkg/server/clickhouse/logstore.go:244-259 | such a PREWHERE and WHERE with one placeholder to a conjunct mean what their parts mean, argument by argument |
| LogQuery.UserField | pkg/public/logquery/logquery.go:75-125 | every log type has a user field of string kind |
| LogQuery.NormalizeType | pkg/server/clickhouse/logstore.go:911-923 | strips every Nullable and LowCardinality wrapper |
| LogQuery.Unwrapped | pkg/server/clickhouse/logstore.go:911-923 | none is left |
| LogQuery.FilterAccepted | pkg/server/clickhouse/logstore.go:797-875 | which kinds, operators, column types and values make a condition, both ways |
| LogQuery.FilterSqlShape | pkg/server/clickhouse/logstore.go:797-875 | a condition is the form of its operator around the quoted column, with an argument |
| LogQuery.SqlTame | pkg/server/clickhouse/logstore.go:833-871 | every condition is one conjunct with one placeholder, for every column name |
| LogQuery.BuildFilterClauses | pkg/server/clickhouse/logstore.go:703-727 | one clause for each filter that is not blank, and the first error otherwise |
| LogQuery.ClauseOfEach | pkg/server/clickhouse/logstore.go:703-727 | no filter that is not blank is lost |
| LogQuery.FilterOfEach | pkg/server/clickhouse/logstore.go:703-727 | and no clause comes from anything else |
| QueryParts.ProjectionFilterIndexes | pkg/server/clickhouse/logstore.go:747-795 | exactly the equalities on unmapped projection keys, and the projection that they call for |
| QueryParts.BuildQueryParts | pkg/server/clickhouse/logstore.go:641-678 | promoted clauses after the event range, the others apart, their arguments alongside; errors as for the clauses |
| QueryParts.BuildWhere | pkg/server/clickhouse/logstore.go:615-626 | the single condition with all clauses, or the same error |
| QueryParts.SplitMeansAll | pkg/server/clickhouse/logstore.go:240-259 | PREWHERE and WHERE with all arguments in a row select exactly what the event range and every filter select |
| QueryParts.WhereMeansAll | pkg/server/clickhouse/logstore.go:615-626 | so does the single condition |
| LogMeaning.SqlMeans | pkg/server/clickhouse/logstore.go:802-874 | the text made for an operator reads, in the database, as the relation that the operator stands for |
| LogMeaning.ClauseMeans | pkg/server/clickhouse/logstore.go:703-727 | a clause holds of a row exactly if the column of the filter's field stands in the relation asked for to the parsed value |
| LogMeaning.RequestMeans | pkg/server/clickhouse/logstore.go:240-259 | a query selects exactly the rows whose event time lies in the range, its end excluded, and of which every filter that is not blank holds |
| LogScope.ScopeLogFilters | pkg/server/http/handler_log.go:220-237 | filters on the user are refused, and the user's own is added |
| LogScope.OwnRowsOnly | pkg/server/http/handler_log.go:217-237 | every row that an ordinary user's query selects has that user's own value in its user column: the user name exactly if the column is not of a date type, the time it spells otherwise |
| LogQueue.LogHub.Enqueue | pkg/client/logHub/logHub.go:305-323 | accepts at the end of the queue, or counts a drop when full, or ignores when stopped |
| LogQueue.LogHub.Shift | pkg/client/logHub/logHub.go:187-192 | moves the rest to the front in place and clears the slots left over |
| LogQueue.LogHub.PullBatch | pkg/client/logHub/logHub.go:169-194 | takes the first events, 1 to 300 of them, in order; done exactly if closed and empty |
| LogQueue.LogHub.SendBulk | pkg/client/logHub/logHub.go:199-251 | what one batch adds to the counters, after at most three attempts |
| LogQueue.LogHub.CountItems | pkg/client/logHub/logHub.go:219-231 | without counts the items are counted, without items the batch is taken as sent |
| LogQueue.AccountedExact | pkg/client/logHub/logHub.go:214-248 | the counters grow by the batch size exactly if the answer accounts for it |
| LogQueue.Play | pkg/client/logHub/logHub.go:90-194 | over every interleaving: batches then queue are what was accepted, the worker leaves a closed and empty queue, and pulled events are sent, failed, lost or in flight |
| LogQueue.DrainClosed | pkg/client/logHub/logHub.go:133-140 | after a stop the worker sends all that was accepted and leaves, in so many pulls |
| LoginLimiter.Limiter.Cleanup | pkg/swm/http/ratelimit.go:46-53 | deletes exactly the stale buckets |
| LoginLimiter.Limiter.GetBucketLocked | pkg/swm/http/ratelimit.go:103-135 | the bucket of a key, renewed or new, or none if the map is full of buckets in use |
| LoginLimiter.Limiter.LoginRateLimit | pkg/swm/http/ratelimit.go:62-101 | refused if some key is locked, else charged to all keys and refused if one is over its limit |
| LoginLimiter.Limiter.RecordLoginFailure | pkg/swm/http/ratelimit.go:199-220 | counts the failure on every key and locks those that reach the limit |
| LoginLimiter.Limiter.ResetLoginCounter | pkg/swm/http/ratelimit.go:224-237 | clears failures and lock of all keys but the shared one |
| LimiterRuns.GetLive | pkg/swm/http/ratelimit.go:103-135 | a bucket that would be deleted acts as if it had been, and the map never exceeds its bound |
| LimiterRuns.CleaningInvisible | pkg/swm/http/ratelimit.go:40-57 | leaving out any passes of the cleaner changes no verdict of any run |
| LimiterRuns.LockHolds | pkg/swm/http/ratelimit.go:208-218 | a locked key refuses every request of the next 15 minutes, whatever else happens, unless a login succeeds |
| LimiterRuns.LockingFailure | pkg/swm/http/ratelimit.go:209-216 | the failure that reaches the limit locks |
| LimiterRuns.FailureShutsOut | pkg/swm/http/ratelimit.go:199-220 | the failed login that reaches the limit of a key has every request for it of the next 15 minutes refused |
| LimiterRuns.AdmittedIsCharged | pkg/swm/http/ratelimit.go:77-90 | while there is room for all keys of a request once stale buckets are gone, an admitted request is charged to each of them |
| LimiterRuns.AdmissionsBounded | pkg/swm/http/ratelimit.go:77-135 | over every run in which the requests for a key find room, any 2 L + 1 admissions of it in a row, charged or not, take more than a minute |
| LimiterRuns.RateBounded | pkg/swm/http/ratelimit.go:77-90 | over every run, of any 2 L + 1 charged admissions of a key in a row the last is more than a minute after the first |
| ApprovalQuota.FilterInPlace | pkg/server/http/resource_limits.go:31-37 | keeps exactly the fresh times, in order, in the slots they came from |
| ApprovalQuota.Quota.Refilter | pkg/server/http/resource_limits.go:31-39 | filters one user's slice on its own backing array and leaves all others as they are |
| ApprovalQuota.Quota.Append | pkg/server/http/resource_limits.go:60 | adds a time in place or in a larger array, and never shares an array between users |
| ApprovalQuota.Quota.AllowApprovalCreate | pkg/server/http/resource_limits.go:23-62 | decides by the whole log of acceptances: refused exactly if blank, twenty in the window, or no entry while 100000 others are fresh; and which users are stored afterwards |
| ApprovalQuota.SweptAgrees | pkg/server/http/resource_limits.go:43-55 | a sweep loses nothing fresh and keeps exactly the users with something fresh |
| ApprovalQuota.AllowedIsDecided | pkg/server/http/resource_limits.go:23-62 | one call on the bounded store decides as the rule does on the unbounded log, and leaves the store fit for the next |
| ApprovalQuota.OneChain | pkg/server/http/resource_limits.go:23-62 | the calls of a run determine every verdict, the users stored and the log |
| ApprovalQuota.AtMostTwenty | pkg/server/http/resource_limits.go:12-16 | the ten minutes before any later instant hold no more than twenty acceptances |
| ApprovalQuota.AnyWindow | pkg/server/http/resource_limits.go:12-16 | no ten minutes, whenever they end, hold more than twenty |
| ApprovalQuota.Play | pkg/server/http/resource_limits.go:23-62 | over every run each verdict is the rule applied to all acceptances before it and the users then stored, who are all those with something fresh and none without an acceptance; that window bound holds of every user, and the store stays within its bounds |
| NonceStore.ParseSwmSigHeader | pkg/server/http/middleware_swm_auth.go:272-289 | the last part of each kind, and nothing if one is missing |
| NonceStore.Store.Clean | pkg/server/http/middleware_swm_auth.go:52-62 | deletes exactly what has expired and counts along |
| NonceStore.Store.VerifySwmSignature | pkg/server/http/middleware_swm_auth.go:182-262 | which check refuses, in their order, with the nonce measured in bytes; the count is the number of stored nonces and at most 100000 |
| NonceStore.NotTwiceBeforeExpiry | pkg/server/http/middleware_swm_auth.go:239-261 | no nonce is accepted again before it has expired |
| NonceStore.ReplayIsLate | pkg/server/http/middleware_swm_auth.go:202-261 | a second acceptance of one timestamp and nonce needs that long between time check and lock |
| NonceStore.NearExact | pkg/server/http/middleware_swm_auth.go:202-205 | the time check on 64-bit numbers lets through the timestamps within the skew and the one 2 to the 63 seconds ago |
| NonceStore.ReplayExact | pkg/server/http/middleware_swm_auth.go:195-270 | over all runs with delays up to a bound there is no second acceptance exactly if twice the skew plus the bound is less than the lifetime |
| NonceStore.ReplaySafetyExact | pkg/server/http/middleware_swm_auth.go:195-270 | for requests that take the lock in the second of their time check that is a skew from 1 to 299 seconds |

## Left out

- Sockets, TLS, the PROXY protocol, socket options, deadlines and keep-alive are foreign; a read delivers one or more bytes or ends, and a read of no bytes without an error is excluded.
- Unmarshalling into a value that keeps what was assigned before an error: callers drop the value, so the decoders give nothing.
- The client's cached connection and its redialling, and context cancellation while waiting for a packet.
- Lockstep.Lockstep: loss-free runs in which a handler does not leave after a prompt; error replies are replies like any other, while time-outs and closed connections end a run and are not steps of it.
- Strings are sequences of code points; bytes that are not UTF-8 are not told apart, and SQL matching of template names is exact equality rather than a collation.
- Counters of the version table are unbounded, and reads and bumps succeed.
- MemoCaches.CachedIsDirect: one request is one step; `CacheRaces` treats requests that overlap refreshes.
- CacheRaces.OrderExact: requests that wait for another one with the same key and share its answer (the single-flight group) are not modelled, nor is the password cache.
- The reason text of an authorization is kept by the cache but no claim is made about it: it depends on role order.
- Assembling the command text from the request arguments, and accounting requests: they would only add easy members.
- Password expiry, on-duty lists, cards and their suppression of repeats.
- SQL text outside the conditions (columns, order, limits, counting), schema discovery and the drivers.
- The growth rate of slices is not Go's; the counter of enqueued events is raised in the same step as the append.
- Deriving the limiter's keys from a request.
- LimiterRuns.RateBounded: requests that get no bucket because the map is full of buckets in use are not charged and so not counted; while there is room `LimiterRuns.AdmissionsBounded` counts all.
- The text that is signed, and the reading of bodies; the expected signature is a function of timestamp text and nonce.
- NonceStore.ReplaySafetyExact: skews beyond 292 years, whose nanoseconds overflow a duration, are excluded, and clocks show times from 0 to below 2 to the 62 seconds.
- Connection.ManySessions: the sessions of a connection are given from the start; opening and closing them, and refusals without multiplexing, are in `Multiplexer`.
- A session id is used for one session of a connection; its reuse after the session has ended is not modelled in `Connection`.
