# Verification model of Ringdrop

Ringdrop moves files and directories between peers. A daemon owns a node (an
endpoint, a blob store, a registry of rings) and serves a line protocol to local
clients; remote peers fetch blobs and the blob catalog over streams. This
project models, in Dafny, the parts the repository itself owns, and proves what
they are for:

* `Protocol`, `Connection`, `Answers`, `Server`, `Client`: the daemon server as a
  concurrent step system. Every task (accept loop, connection, dispatch,
  progress, client) takes one step at a time, in any interleaving. Main results:
  each client reads a prefix of its one well-formed answer; the owners of the
  node are counted exactly, which decides when the final unwrap panics.
* `LocalStore`: the one-time migration to `local.redb`, with a crash or a failing
  write between any two durable steps and any number of interrupted startups.
* `Base32`, `Tickets`, `CatalogCodec`, `Listing`: the ticket URI, the catalog
  stream as a printer and a parser that are inverses, and the two listings that
  must agree.
* `Rings`, `Grants`, `Peers`, `Stores`, `StoreHandlers`, `Effects`,
  `Interruptions`: the
  registry (an abstract interface), the grant table, the address book, and the
  operations over them as sequences of small durable writes that can be
  interrupted, retried or overlapped.
* `Download`, `ProgressLines`, `Destination`, `Transfers`: fetching and resuming over any
  behaviour of the network, the way from received bytes to the completion
  lines, and where a received file ends up.
* `Expiry`: durations as typed, the expiry they become, and the time shown.

Code that changes state in place is a class or a method with loops, proved
against a function of the old state; the theorems are lemmas about those
functions. `dafny verify dfyconfig.toml` checks the project.

## Assumptions

* Registry: it rejects unknown rings; `add_peer_to_ring` without an expiry keeps
  the expiry of a live member (as `ring_add_lines` documents); listing the peers
  of a ring gives its live members; attaching a ring again replaces its
  permissions; `has_permission` means that some ring attached with that
  permission is open or has the peer as a live member. Removing a peer from a
  ring it is not a live member of is an error.
* Database: a commit is atomic and durable, a rename is atomic, the source
  databases can be opened (`registry.redb` is already open at
  `src/cli/command/daemon.rs:130` when the migration opens it again; what the
  database library does then is not part of this model).
* Text: JSON parsing undoes printing, ASCII is valid UTF-8, and upper-casing
  works byte by byte on ASCII. Nothing is assumed of other text, except that tag
  names are shown as valid UTF-8. `Client.AnswerArrivesUnread` takes an error
  event to be at least as long as its message in JSON.
* `Stores.RunKeepsConsistent` takes requests one at a time and a clock that does
  not go back. The comment at `src/daemon/server/handlers/blob.rs:287-288` says
  that the daemon serialises requests; `src/daemon/server/mod.rs:111` and
  `src/daemon/server/mod.rs:184` run them concurrently.
  `Interruptions.OverlappingDetaches` and `Peers.EnsurePreservesIff` say what
  then remains.

## Where code and comments differ

The model follows the code.

* `src/daemon/server/mod.rs:184`: dispatch tasks are not in the `JoinSet`, and a
  finished dispatch task drops its channel sender before its node. The drain can
  therefore end while a dispatch task still owns the node, even in a clean
  shutdown, and the unwrap at line 134 panics.
* `src/local_store.rs:52-65`: old files are deleted only by the startup that
  renames. If it stops in between they stay for ever.
* `src/core/protocol/rings.rs:151`: a resumed fetch asks for all chunks, so
  resuming works blob by blob; the partial blob is fetched again from its start.
* `src/core/protocol/catalog.rs:18-25`: the layout comment omits the size and
  count fields that are written at lines 321-332.
* `src/core/protocol/catalog.rs:329`: a file count of 2^32 or more is cut to 32
  bits, and 2^32-1 reads as unknown.
* `src/core/protocol/rings.rs:168-228`: a sender that announces a size of zero
  ends a fetch without an error and without the blob.
* `src/daemon/client.rs:44-47`: `send` is said to deliver every event up to the
  terminal one. Its reader refuses lines of more than 512 KiB
  (`src/daemon/mod.rs:17`), while `src/daemon/server/mod.rs:205-217` writes lines of
  any length. An answer can arrive whole and `send` still fail: for instance a
  grant of a privilege of 150000 backslashes, which the error message doubles and
  its JSON doubles again.
* `src/daemon/server/handlers/blob.rs:217-218`: removing a blob that no tag names
  clears its associations and then reports an error.
* `src/core/peers.rs:94-100`: `ensure` reads and writes in two transactions, so
  its promise to preserve a nickname depends on no other request naming the peer
  in between.
* `src/daemon/server/handlers/receive.rs:49-92`: with force-overwrite, an announced
  path that is a directory is not replaced; the export goes below it.

## Model

| member | source | states |
|---|---|---|
| `Protocol.EveryHandlerIsWellFormed` | src/daemon/server/mod.rs:241-431 | for every operation and every outcome of the calls its handler makes, the events it sends carry the request id and are non-terminal ones followed by exactly one Done or Error |
| `Protocol.BodyThenDoneIsWellFormed` | src/daemon/server/mod.rs:219-239 | a handler that sends lines, records and progress and may fail anywhere before its final Done ends in one terminal event and sends nothing after it |
| `Protocol.ForwardSendsNoTerminal` | src/daemon/server/handlers/receive.rs:158-171 | the progress task sends only progress events of its own request |
| `Answers.LinesOnlyAnswer` | src/daemon/server/mod.rs:316-334 | ring add, ring remove, peer remove: an error if the lines cannot be computed, otherwise one event per line and Done |
| `Answers.LinesThenRecordsAnswer` | src/daemon/server/mod.rs:274-389 | ring new, list and members, peer add and list: an error alone, or the lines, then each record in order, then Done or the error of the first later call that fails |
| `Answers.OutputsAnswer` | src/daemon/server/mod.rs:268-290 | the operations that send as they go: each output before the first failing call in order, then its error, or Done |
| `Answers.NodeIdAnswer` | src/daemon/server/mod.rs:249-267 | the id, the QR code if asked for and drawable, the record, Done; an error after the first line otherwise |
| `Answers.ShutdownAnswer` | src/daemon/server/mod.rs:219-232 | a shutdown is answered by Done alone |
| `Answers.ReceiveAnswer` | src/daemon/server/handlers/receive.rs:100-218 | a refused destination is answered by its error alone; otherwise the announcement, the progress of the transfer and its outcome |
| `Answers.ForwardSaysEachReport` | src/daemon/server/handlers/receive.rs:158-171 | one event for each report of bytes, in order, with its own numbers and the file started last before it, if any |
| `Answers.DoneIffNothingFailed` | src/daemon/server/mod.rs:219-239 | the last event is Done if and only if no call of the operation failed, and an error otherwise |
| `Connection.StepKeepsInv` | src/daemon/server/mod.rs:143-239 | every step of the connection, dispatch and progress tasks and of the client keeps the connection invariant: what was sent plus what is still to be sent is the whole answer, the channel is FIFO and bounded, the client stops at the first terminal event |
| `Connection.StepKeepsAnswer` | src/daemon/server/mod.rs:219-239 | no step of any task loses, repeats or reorders an event of the answer, a step of the progress task included |
| `Connection.TransferKeepsAnswer` | src/daemon/server/handlers/receive.rs:153-198 | reporting, forwarding and ending a transfer in any interleaving keep the answer; its outcome is sent only after the progress task is drained |
| `Connection.StepKeepsChannel` | src/daemon/server/mod.rs:181-199 | at most 32 events wait in the channel, nothing is dropped while the connection is served, and the socket always holds a prefix of what was sent |
| `Connection.ClientReadsPrefixOfAnswer` | src/daemon/client.rs:69-86 | a client has read, in order, a prefix of the one answer, and has finished exactly when it has read all of it |
| `Connection.RefusedClientReadsOneError` | src/daemon/server/mod.rs:151-179 | a request that is too long or cannot be parsed is answered with at most one error, after which the client is finished |
| `Connection.ServerStepsUseUpWork` | src/daemon/server/mod.rs:181-199 | after the request is read every step of the server side uses up a finite amount of work |
| `Connection.NeverStuck` | src/daemon/server/mod.rs:181-199 | back-pressure never deadlocks: until both tasks are over one of them can move without an abort or a failed write |
| `Connection.FaultlessStepKeepsUndisturbed` | src/daemon/server/mod.rs:193-199 | no step of any task other than an abort or a failed write can keep part of the answer from the socket |
| `Connection.ServedInFull` | src/daemon/server/mod.rs:181-199 | in every schedule without an abort or a failed write the server side takes a bounded number of steps, can always take another until both tasks are over, and has the whole answer on the socket once the connection task is over |
| `Server.StepKeepsStateInv` | src/daemon/server/mod.rs:101-138 | every step of the accept loop, the shutdown, the drain, the abort and any connection keeps all connection invariants and the count of node owners |
| `Server.ClientsReadTheirAnswer` | src/daemon/server/mod.rs:143-239 | in every reachable state, for every interleaving, disconnect and shutdown, each client has read a FIFO prefix of the well-formed answer to its own request and is finished exactly when that is all of it |
| `Server.NodeOwnersAreCounted` | src/daemon/server/mod.rs:101-138 | in every reachable state the node has one owner for the running server, one for each connection task that has not dispatched and one for each dispatch task that is not gone |
| `Server.AnswersArriveUnlessCut` | src/daemon/server/mod.rs:101-199 | in every run of the server, with any other connections and any shutdown, a connection that was not aborted and of which no write failed has its whole answer on the socket when its task is over |
| `Server.DropsAreCounted` | src/daemon/server/mod.rs:184-191 | what each step changes about the holders of the node is what it gives up or takes |
| `Server.HoldersAfterUpdate` | src/daemon/server/mod.rs:111-115 | a step of one connection changes the number of holders by what that connection changed |
| `Server.UnwrapSucceedsIffNoDispatchLives` | src/daemon/server/mod.rs:125-137 | after the drain or the abort the unwrap of the node succeeds if and only if no dispatch task has outlived its connection task |
| `Server.CleanShutdownCanPanic` | src/daemon/server/mod.rs:184-191 | a run with one client, no abort and no failed write, in which the client reads the whole answer to its shutdown request and the unwrap still panics: the dispatch task drops its channel sender before its node |
| `Client.Send` | src/daemon/client.rs:69-86 | the read loop returns Ok exactly at the first terminal event, and the callback has seen the events up to it, no more |
| `Client.SendIsOkIffAnswerArrivedAndFits` | src/daemon/client.rs:69-86 | reading a connection of any reachable server to its end, `send` returns Ok if and only if the whole answer arrived and every event of it fits in a line of 512 KiB; the callback has seen everything up to the end or to the first event that does not fit |
| `Client.AnswerArrivesUnread` | src/daemon/client.rs:69-86 | a request within the line limit whose one answer, an error that quotes it, is longer than a line: it arrives, `send` fails and the callback sees nothing |
| `Client.MessageIsFourTimesAsLong` | src/core/grants.rs:66-71 | the backslashes of an unknown privilege are doubled by the error message and again by its JSON |
| `LocalStore.CopyGrants` | src/local_store.rs:128-146 | the target table holds its rows and every old grant row |
| `LocalStore.CopyPeers` | src/local_store.rs:148-168 | the target table holds its rows overwritten by every old peer row |
| `LocalStore.CopyRing` | src/local_store.rs:194-206 | each whole 32-byte chunk that is absent is inserted with an empty nickname, whatever the repetitions |
| `LocalStore.CopyRingPeers` | src/local_store.rs:176-212 | the loop that reads the table it writes computes the peers plus every whole chunk of every named ring, in whatever order the rings come |
| `LocalStore.FillTmp` | src/local_store.rs:90-108 | phase 1 leaves the merge of the old files in the tmp file, commit by commit |
| `LocalStore.Purge` | src/local_store.rs:110-122 | the rename and the deletions, each as one durable step |
| `LocalStore.MigrateIfNeeded` | src/local_store.rs:66-126 | the durable states a startup goes through; if one was needed, `local.redb` ends up with the merge of the old files and they are gone |
| `LocalStore.TraceLosesNothing` | src/local_store.rs:66-126 | after every durable step either `local.redb` holds the full merge or both old files are intact |
| `LocalStore.StartupsLoseNothing` | src/local_store.rs:52-65 | over any finite sequence of startups, each stopped between any two steps, no grant and no nickname is ever lost |
| `LocalStore.FirstFinishedStartup` | src/local_store.rs:66-126 | the first startup that finishes leaves exactly the merge of the original files, whatever interrupted startups and stale tmp file it met; the old files are gone if and only if no interrupted startup had already renamed |
| `LocalStore.StaleTmpIsIrrelevant` | src/local_store.rs:86-88 | nothing of a leftover tmp file reaches the result |
| `LocalStore.CrashAfterRenameLeavesOldFiles` | src/local_store.rs:110-122 | a crash between rename and deletion leaves old files that no later startup deletes |
| `LocalStore.NoMigrationNoChange` | src/local_store.rs:72-81 | startups with `local.redb` present, or without any old file, change nothing |
| `LocalStore.MergedHoldsMerge` | src/local_store.rs:170-212 | the merge, said of the files alone: exactly the old grants, every old peer with its nickname, and exactly the missing whole chunks of named rings without one |
| `CatalogCodec.WriteLengthPrefixed` | src/core/protocol/catalog.rs:336-341 | fails exactly above 65535 bytes, and then writes nothing |
| `CatalogCodec.WriteEntry` | src/core/protocol/catalog.rs:296-334 | writes the entry, or the fields before the text that is too long, and says which |
| `CatalogCodec.ReadLengthPrefixed` | src/core/protocol/catalog.rs:343-357 | reads what a prefix announces or says where the stream ended |
| `CatalogCodec.ReadEntry` | src/core/protocol/catalog.rs:234-290 | one pass of the loop takes off the stream what the entry grammar takes |
| `CatalogCodec.DecodeEntries` | src/core/protocol/catalog.rs:229-293 | the loop reads the stream as the list grammar reads it, with the tickets of the entries, or fails with its error |
| `CatalogCodec.ParseEntry` | src/core/protocol/catalog.rs:234-290 | every entry takes at least 49 bytes, so reading ends on every finite stream |
| `CatalogCodec.FromToLE` | src/core/protocol/catalog.rs:321-332 | fixed-width little-endian numbers read back |
| `CatalogCodec.EntryLayout` | src/core/protocol/catalog.rs:296-341 | where each field of an entry is on the wire, byte by byte, with its length prefixes |
| `CatalogCodec.NumbersLayout` | src/core/protocol/catalog.rs:320-332 | size and count in 8 and 4 bytes, least significant first; all bits set when unknown |
| `CatalogCodec.ToFromLE` | src/core/protocol/catalog.rs:263-279 | every word of a width is the printed form of its value |
| `CatalogCodec.ParseEncodedEntry` | src/core/protocol/catalog.rs:296-334 | a printed entry followed by anything reads as that entry, up to the sentinels and the 32-bit count, and leaves the rest |
| `CatalogCodec.ParseEncodedStream` | src/core/protocol/catalog.rs:229-334 | so does a whole printed list |
| `CatalogCodec.ReceivedIsSameIffExact` | src/core/protocol/catalog.rs:320-332 | an entry survives exactly when its size and its count are below the sentinels |
| `CatalogCodec.StreamRoundTripsIffExact` | src/core/protocol/catalog.rs:229-334 | a printed list reads back as itself if and only if every size and count is below its sentinel |
| `CatalogCodec.EncodeParsedEntry` | src/core/protocol/catalog.rs:234-290 | what reads as an entry is byte for byte its printed form |
| `CatalogCodec.EncodeParsedStream` | src/core/protocol/catalog.rs:229-334 | every byte stream that reads as a list re-encodes to itself |
| `CatalogCodec.ParseEntryOfPrefix` | src/core/protocol/catalog.rs:234-290 | a cut inside an entry is reported as a truncation, a cut after it does not change the entry |
| `CatalogCodec.PrefixReadsIffOnBoundary` | src/core/protocol/catalog.rs:229-293 | a cut stream reads without error exactly when the cut is on an entry boundary, and then as the entries before the cut |
| `CatalogCodec.BoundaryIsUnique` | src/core/protocol/catalog.rs:229-293 | the number of entries before a boundary is unique |
| `Listing.MeasureCollection` | src/core/node.rs:366-388 | the size of a collection is known exactly when every file is complete, and is then the sum |
| `Listing.OneMoreSize` | src/core/node.rs:372-381 | each further file adds its size |
| `Listing.Measure` | src/core/node.rs:362-392 | file count and size of a blob or a collection in the local listing |
| `Listing.MeasureForPeer` | src/core/protocol/catalog.rs:161-186 | the loop of the catalog handler, written separately, measures the same |
| `Listing.MeasuredIsUnique` | src/core/protocol/catalog.rs:161-186 | a measure is determined by the store and the tag, so the two loops agree |
| `Listing.PeerRingSet` | src/core/node.rs:97-115 | the named rings the peer is a live member of, and the open ring |
| `Listing.RingSetAgreesWithPermission` | src/core/node.rs:342-357 | filtering by that set with Read is the registry check `has_permission` of the peer |
| `Listing.ListBlobs` | src/core/node.rs:322-403 | exactly the tags that pass both filters, in order, each with its measures |
| `Listing.ShownTagsAreTheWanted` | src/core/node.rs:339-360 | the shown tags are exactly those in a requested ring and readable by the peer, in the order of the tags |
| `Listing.ReportsIsUnique` | src/core/node.rs:322-403 | a listing is determined by the tags it shows |
| `Listing.ServeTag` | src/core/protocol/catalog.rs:147-200 | one pass of the serving loop prints the entry if and only if the peer may read the blob |
| `Listing.HandleBlobList` | src/core/protocol/catalog.rs:133-204 | without the grant one denial byte; with it the printed list of what the peer may read, or the entries before the first one that is too long and the fields of that one before the long text |
| `Listing.StreamLayout` | src/core/protocol/catalog.rs:147-200 | a stream is its entries, one after the other |
| `Listing.PrintedListReadsBack` | src/core/protocol/catalog.rs:133-293 | the printed list of a node reads back entry for entry with the node's own tickets, sizes and counts as the codec delivers them |
| `Listing.ReceivedSameIffWithinBounds` | src/core/protocol/catalog.rs:320-332 | the delivered list is the printed one if and only if every size and count is below its sentinel |
| `Listing.CatalogConnect` | src/core/node.rs:458-484 | whatever list the node shows locally for a granted peer, the peer decodes entry by entry: hash, format, name, size and count as the codec carries them, and a ticket of this node for exactly that blob; it is the same list if and only if sizes and counts are below the sentinels; the stream breaks off exactly when some name or ticket is too long |
| `Base32.DecodeEncode` | src/core/ticket.rs:103-108 | decoding undoes encoding for every byte string |
| `Base32.EncodeDecode` | src/core/ticket.rs:113-121 | whatever decodes is the encoding of the result: stray trailing bits and impossible lengths are rejected |
| `Base32.DecodeIffEncode` | src/core/ticket.rs:103-121 | a text decodes to bytes if and only if it is their encoding (section 6 and section 3.5 of RFC 4648) |
| `Base32.DecodableLengths` | src/core/ticket.rs:113-121 | only lengths of residue 0, 2, 4, 5 and 7 modulo 8 are accepted |
| `Base32.SymbolAt` | src/core/ticket.rs:103-108 | symbol k is the letter of bits 5k to 5k+4 of the text, zeros after its end (section 6 of RFC 4648) |
| `Tickets.UriRoundTrips` | src/core/ticket.rs:95-128 | every ticket reads back from its URI, which is ASCII |
| `Tickets.UriSpelling` | src/core/ticket.rs:103-108 | a URI is `rdrop://` and the Base32 symbols in lower case |
| `Tickets.RecasedUriRoundTrips` | src/core/ticket.rs:113-128 | so does every ASCII re-casing of the encoded part |
| `Tickets.PayloadIsUniqueUpToCase` | src/core/ticket.rs:113-121 | two ASCII payload texts decode to the same bytes if and only if they are equal ignoring case |
| `Tickets.AcceptedUriIsCanonical` | src/core/ticket.rs:113-128 | an accepted ASCII URI is a re-casing of the canonical spelling of its payload |
| `Grants.SplitInvertsIffNulFree` | src/core/grants.rs:186-208 | splitting a key undoes joining for every peer id, with NUL bytes or not, exactly when the privilege name is free of NUL |
| `Grants.RawKeyIsInjective` | src/core/grants.rs:186-193 | no two pairs of name and peer share a key |
| `Grants.GrantKeySpelling` | src/core/grants.rs:185-193 | a key is the name `blob-list`, a NUL byte and the 32 bytes of the peer |
| `Grants.DecodeIffGrantKey` | src/core/grants.rs:196-208 | a key decodes to a pair if and only if it is the key of that pair |
| `Grants.TableRefinesPairs` | src/core/grants.rs:121-155 | after any sequence of grants and revokes the table of keys represents the set of pairs |
| `Grants.GrantStore.Grant` | src/core/grants.rs:121-133 | adds one pair, and is idempotent |
| `Grants.GrantStore.Revoke` | src/core/grants.rs:141-151 | removes one pair, and is idempotent |
| `Grants.GrantStore.HasGrant` | src/core/grants.rs:157-165 | membership in the set of pairs |
| `Grants.GrantStore.List` | src/core/grants.rs:172-182 | every pair exactly once, in any order of the table; an error exactly when some key does not decode |
| `Peers.PeerStore.Upsert` | src/core/peers.rs:80-92 | sets the nickname a reader sees; an empty one and none are the same |
| `Peers.PeerStore.Ensure` | src/core/peers.rs:94-118 | run alone, adds an unknown peer without a nickname and never changes a known one |
| `Peers.PeerStore.SetNickname` | src/core/peers.rs:126-146 | only for known peers, leaving the book unchanged otherwise |
| `Peers.PeerStore.Get` | src/core/peers.rs:157-171 | unknown, known without a nickname, or known with one |
| `Peers.PeerStore.List` | src/core/peers.rs:178-199 | every known peer exactly once with its nickname; an error if and only if some key is not 32 bytes long |
| `Peers.PeerStore.Remove` | src/core/peers.rs:206-215 | removes one known peer, an error otherwise |
| `Peers.EnsurePreservesIff` | src/core/peers.rs:94-118 | with writes of other requests between its read and its write, `ensure` preserves a nickname if and only if the peer was known when it looked or has no nickname when it writes |
| `Peers.EnsureCanLoseNickname` | src/core/peers.rs:94-101 | a concurrent naming of a new peer can be lost |
| `Stores.OperationKeepsConsistent` | src/daemon/server/mod.rs:292-399 | every completed operation keeps: live ring members are in the address book, this node is in no named ring, the open ring has no members, every attached ring exists |
| `Stores.RunKeepsConsistent` | src/daemon/server/mod.rs:292-399 | so does every run of completed operations, one at a time, while the clock does not go back |
| `Stores.AddKeepsConsistent` | src/daemon/server/handlers/ring.rs:53-84 | a ring addition, accepted or refused |
| `Stores.PeerRemoveKeepsConsistent` | src/daemon/server/handlers/peer.rs:70-115 | a peer removal |
| `Stores.BlobOperationKeepsConsistent` | src/daemon/server/handlers/blob.rs:234-351 | attach, import, detach and remove |
| `Effects.RingCreated` | src/daemon/server/handlers/ring.rs:18-24 | a new ring exists and is empty; nothing else changes |
| `Effects.MemberAdded` | src/daemon/server/handlers/ring.rs:53-84 | an accepted member has exactly the given expiry, or without one the expiry it still has, or none, and is in the address book; a refused addition and everybody else is as before |
| `Effects.MemberRemoved` | src/daemon/server/handlers/ring.rs:102-115 | an accepted removal leaves the peer no live member at any time, and every other membership as it was |
| `Effects.RemovedMemberLosesRing` | src/daemon/server/handlers/ring.rs:102-115 | a removed member keeps a permission exactly if it has it through another ring |
| `Effects.PeerAdded` | src/daemon/server/handlers/peer.rs:25-39 | a nickname reads back as given unless it is empty; without one a known peer keeps what it has; nothing else changes |
| `Effects.PeerRemovedEverywhere` | src/daemon/server/handlers/peer.rs:70-102 | the peer is a live member of no named ring, has no grant and no entry, now and later; every other peer keeps everything; an unknown peer changes nothing |
| `Effects.BlobAttached` | src/daemon/server/handlers/blob.rs:234-281 | each ring before the first unknown one is attached with exactly Read; other associations, blobs and stores are unchanged |
| `Effects.BlobImported` | src/daemon/server/handlers/blob.rs:15-77 | the same for an import, whose tag then names the blob |
| `Effects.BlobDetached` | src/daemon/server/handlers/blob.rs:289-351 | detaching from all leaves no association, detaching from some leaves exactly the others with their permissions; nothing else changes |
| `Effects.BlobRemovedExactly` | src/daemon/server/handlers/blob.rs:210-218 | a removed blob is attached nowhere and named by no tag; other blobs keep associations and tags |
| `Effects.GrantedExactly` | src/core/grants.rs:121-151 | one pair more, one pair fewer, and nothing else |
| `StoreHandlers.Node.HandleRingNew` | src/daemon/server/handlers/ring.rs:18-24 | creates a ring or fails without a write |
| `StoreHandlers.Node.HandleRingAdd` | src/daemon/server/handlers/ring.rs:53-84 | the accepted cases, both writes in order (registry, then address book), and no write when refused |
| `StoreHandlers.Node.HandleRingRemove` | src/daemon/server/handlers/ring.rs:102-116 | drops a live member of a named ring |
| `StoreHandlers.Node.HandlePeerAdd` | src/daemon/server/handlers/peer.rs:25-39 | a nickname always replaces, none only adds |
| `StoreHandlers.Node.HandlePeerRemove` | src/daemon/server/handlers/peer.rs:70-102 | the three-store removal: its result, and that every earlier write is a removal in progress with the address-book entry still there |
| `StoreHandlers.Node.DropFromRings` | src/daemon/server/handlers/peer.rs:82-92 | takes the peer out of every named ring it is a live member of, ring by ring |
| `StoreHandlers.Node.HandleAttach` | src/daemon/server/handlers/blob.rs:234-281 | attaches in order until a ring is unknown; `--open` adds the open ring |
| `StoreHandlers.Node.HandleImport` | src/daemon/server/handlers/blob.rs:15-77 | names the blob with a tag, then attaches in order; `--open` replaces the named rings |
| `StoreHandlers.Node.HandleDetach` | src/daemon/server/handlers/blob.rs:289-351 | the read-modify-write: its result, and that every write in between has only associations that were there before |
| `StoreHandlers.Node.Rewrite` | src/daemon/server/handlers/blob.rs:335-339 | clear and re-add; it cannot fail while the rings exist |
| `StoreHandlers.Node.HandleBlobRemove` | src/daemon/server/handlers/blob.rs:210-218 | the associations go first, then every tag of the blob; an error exactly if there was none; every write in between is a removal in progress |
| `StoreHandlers.Node.DeleteBlob` | src/core/node.rs:415-436 | collects the tags of one blob and deletes exactly them |
| `Interruptions.RetriedRemovalCompletes` | src/daemon/server/handlers/peer.rs:76-102 | a removal interrupted before its last write and run again ends like the uninterrupted one |
| `Interruptions.InterruptedAddition` | src/daemon/server/handlers/ring.rs:70-73 | between its two writes a ring addition breaks the address-book rule exactly for new peers, and running it again repairs that; until then the peer cannot be removed |
| `Interruptions.NarrowedNeverAddsAccess` | src/daemon/server/handlers/blob.rs:334-339 | at whatever write a detach stops, nobody has a permission that it did not have before |
| `Interruptions.RetriedBlobRemoval` | src/daemon/server/handlers/blob.rs:216-218 | a blob removal interrupted at any write and run again ends like the uninterrupted one, and nobody gains a permission in between |
| `Interruptions.AttachedIffAddedAfterLastClear` | src/daemon/server/handlers/blob.rs:335-339 | what overlapping rewrites leave: a ring is attached exactly if some task adds it after the last clear |
| `Interruptions.OverlappingDetaches` | src/daemon/server/handlers/blob.rs:284-351 | of two detaches, whenever each of them read the associations, a removed ring comes back exactly when the other one, having read it, writes it after the last clear |
| `Interruptions.DetachedRingCanComeBack` | src/daemon/server/handlers/blob.rs:287-288 | such an interleaving, so the comment that requests are serialised is a hypothesis |
| `Download.RingReceiver.FetchBlob` | src/core/protocol/rings.rs:137-228 | one fetch: skipped when complete, otherwise one request, its reports and what it stores |
| `Download.RingReceiver.FetchFiles` | src/core/protocol/rings.rs:115-127 | files one by one, each announced before its fetch, stopping at the first that fails |
| `Download.RingReceiver.Run` | src/core/node.rs:527-575 | a whole download with the fast path of a complete raw blob, and every way a root or its metadata can fail to be a collection |
| `Download.RetriesNeverRefetch` | src/core/protocol/rings.rs:74-152 | over any run of interrupted and retried downloads no blob is requested once it is complete, and the set of missing blobs only shrinks |
| `Download.AttemptResumes` | src/core/protocol/rings.rs:74-130 | each attempt stores needed blobs only, and a success leaves the root, the metadata and every member complete |
| `Download.SucceedsIffCompleteAndExported` | src/core/protocol/rings.rs:74-130 | a download succeeds if and only if the export did and everything the hash stands for is complete by then, and, for a directory, the sender was reached; a complete single file needs nobody |
| `Download.FetchReports` | src/core/protocol/rings.rs:168-222 | an answered fetch reports zero of its size and then the end of every verified chunk, of its own file |
| `Download.HonestAttemptSucceeds` | src/core/protocol/rings.rs:74-130 | against an honest sender an attempt succeeds once it brings one reply for each blob still missing |
| `Download.FetchWithoutBlob` | src/core/protocol/rings.rs:168-228 | a fetch ends without error and without the blob exactly when a size of zero is announced |
| `Download.FetchedFileMissingIff` | src/core/protocol/rings.rs:115-127 | a file counted as fetched, also when a later one fails, is missing in the end if and only if it was missing before, some request for it was answered with a size of zero and none with the whole blob |
| `Download.FilesKeepAccounted` | src/core/protocol/rings.rs:115-127 | each request uses up one reply, and the complete blobs are those of the beginning and those delivered |
| `ProgressLines.CollectionReports` | src/core/protocol/rings.rs:83-130 | a collection download reports the start of files 1, 2, 3, ... once each and in order, all of them on success; root and metadata stay silent; bytes are reported for started files only |
| `ProgressLines.CoherentReportsAreTaggedRight` | src/daemon/server/handlers/receive.rs:158-171 | the progress task tags every byte report with the file it was for |
| `ProgressLines.ReceiveCli.OnEvent` | src/cli/command/receive.rs:51-93 | the event closure, step by step |
| `ProgressLines.CliPrintsOrderly` | src/cli/command/receive.rs:51-93 | over every orderly stream each file has at most one completion line, in ascending order, only after a later file began or the transfer was done; an error prints none |
| `ProgressLines.CompletionLines` | src/cli/command/receive.rs:51-93 | network, receiver, progress task, server and client together, at every moment of every run: completion lines ascend, only files whose fetch succeeded have one, also when a later file fails, with the exact condition under which such a file is complete; after a success exactly the files of which bytes were reported |
| `Destination.FileSystem.CreateDirAll` | src/daemon/server/handlers/receive.rs:104-108 | creates a directory and its missing ancestors, or fails at a file |
| `Destination.FileSystem.Announce` | src/daemon/server/handlers/receive.rs:31-112 | resolve, check, create the receive directory, announce |
| `Destination.FileSystem.Export` | src/core/protocol/rings.rs:234-278 | exports one file or every file of a collection until one fails |
| `Destination.MadeDirsAddsFolders` | src/daemon/server/handlers/receive.rs:104-108 | only missing ancestors appear, as folders, and all that existed stays |
| `Destination.AnnouncingCreatesAncestorsOnly` | src/daemon/server/handlers/receive.rs:94-108 | creating the receive directory neither creates nor changes the announced path, which existed before only with force-overwrite |
| `Destination.ExplicitDestination` | src/daemon/server/handlers/receive.rs:37-64 | an existing `--dest` directory takes the blob inside, any other `--dest` is the path itself; exactly when it is refused |
| `Destination.DefaultDestination` | src/daemon/server/handlers/receive.rs:43-80 | without `--dest` the blob goes into the configured directory or the working directory; exactly when it is refused |
| `Destination.PlacesOfPaths` | src/daemon/server/handlers/receive.rs:31-47 | paths are taken from the root or from the working directory |
| `Destination.TildeIsHome` | src/daemon/server/handlers/receive.rs:14-19 | a leading tilde component stands for the home directory, and only a leading one |
| `Destination.AnnouncedIsWritten` | src/core/protocol/rings.rs:241-247 | the announced destination is where the export writes if and only if it was not, with force-overwrite, a directory already; without force-overwrite it did not exist |
| `Destination.ForcedDirectoryNests` | src/daemon/server/handlers/receive.rs:49-92 | a directory received again with force-overwrite goes into itself |
| `Destination.ExportOnlyUnder` | src/core/protocol/rings.rs:249-276 | an export writes at its target or below only, and after a success each item holds what was received |
| `Destination.RawExportIff` | src/core/protocol/rings.rs:268-275 | exactly when a single file is written |
| `Destination.CollectionExportIff` | src/core/protocol/rings.rs:250-267 | a collection whose names do not lie below each other is written into a new place exactly if that is not below a file and the store hands out every file |
| `Destination.ReceiveReplacesNothing` | src/daemon/server/handlers/receive.rs:49-112 | without force-overwrite a whole receive, successful or not, changes nothing that existed, and every new file is at the announced path or below it |
| `Transfers.ToldDoneIffReceived` | src/daemon/server/handlers/receive.rs:74-218 | a client that reads the whole answer to a receive is told Done if and only if the destination was accepted, every blob is complete and the export went through; then the files lie where that was announced, unless a directory was to be replaced by force |
| `Expiry.ParseDurationIff` | src/util.rs:220-244 | a text is a duration of so many seconds if and only if it is a number and a unit between white space whose product is that, positive, and fits in 64 bits |
| `Expiry.ParsedIsReading` | src/util.rs:220-244 | every accepted text has such a reading |
| `Expiry.ReadingIsParsed` | src/util.rs:220-244 | every such reading is accepted with its product |
| `Expiry.MoreDigits` | src/util.rs:228-230 | numbers are decimal, the most significant digit first |
| `Expiry.WhyRefused` | src/util.rs:220-244 | which error a refused text gets: no unit, no number or one that does not fit, zero, an unknown unit |
| `Expiry.ShownFallsShortOfLessThanAUnit` | src/util.rs:246-265 | the shown time reads back through the parser as at most the whole seconds left; it falls short by less than an hour from a day on, by less than a minute from an hour on, and not at all below |
| `Expiry.ExpiryExistsIff` | src/cli/command/ring.rs:30-38 | an expiry is sent exactly if it is representable and not before the epoch |
| `Expiry.ExpiryIsWithinASecond` | src/daemon/server/handlers/ring.rs:90-100 | from the typed duration to the registry: the stored expiry is within the last second before the asked one; it is accepted exactly while it lies ahead of the daemon's clock; what is shown never exceeds what was asked |

## Left out

- Listing.MeasureCollection: the sum of sizes wraps at 64 bits, as in a release build; a debug build panics there instead.
- Listing.ListBlobs: one consistent view of tags, store and registry; a listing that overlaps with writes is not modelled, nor is a registry lookup that fails.
- Stores.RunKeepsConsistent: covers serialised, completed operations; overlapping or interrupted ones are covered by `Interruptions` one property at a time.
- StoreHandlers.Node.HandleImport: reading the file or the directory and building the collection are not modelled, only the tag and the associations.
- Client.SendIsOkIffAnswerArrivedAndFits: how long an event is as JSON is a parameter; every event the server writes is taken to be well-formed JSON and UTF-8.
- Peers.PeerStore.List: that 32 bytes are a valid point of the curve is not checked.
- Connection.ServedInFull: a handler that panics, or waits for the network for ever, is not modelled.
- Destination.CollectionExportIff: states when an export into a new place goes through; into an existing folder it also depends on what is there.
- Destination.AnnouncedIsWritten: ticket names and paths are made of normal components; empty names, dot-dot, symbolic links, prefixes and separators of other platforms are not modelled, nor are changes to the file system from outside.
- Destination.ReceiveReplacesNothing: names inside a collection are taken as normal components too, and exporting a file may create its missing parents.
- Tickets.UriRoundTrips: JSON and the endpoint address are abstract; Unicode upper-casing outside ASCII is left unspecified.
- Expiry.ExpiryIsWithinASecond: the latest representable instant is a parameter, since it depends on the platform.
- Grants.DecodeIffGrantKey: that 32 bytes are a valid point of the curve is not checked; every 32-byte key counts as a peer.
- Peer ids and hashes given as text are parsed by libraries and are taken as parsed; a blob target that names an existing path is imported first, which is not modelled.
- Endpoints, connections, relays, discovery and the transport: a stream is a sequence of bytes with an end.
- Blob storage, chunk trees, hashing and garbage collection: a store knows which blobs are complete and how long they are, and no complete blob disappears.
- The internals of the registry, its storage and its request encoding.
- The wording of lines, listings of rings, peers and grants, file sizes, banner, colours, QR code and progress bar.
- The command line, configuration, starting and polling the daemon process, and the install scripts.
