# Verified model of PRO ONLINE's core

PRO ONLINE replaces the PSP's ad-hoc networking with an online one. This project models five of
its parts in Dafny and proves what they are for:

- **Heap** (`Heap*.dfy`, `TinyAlloc.dfy`): the allocator of `tinyalloc.c`. `HeapSpec` says what each
  operation does to the three lists as values, `HeapProperties` and `HeapTheorems` prove what holds over
  every run, and the class `TinyAlloc` holds one array of blocks with three lists threaded through it
  and changes it in place; its methods are proved equal to `HeapSpec`.
- **Matching** (`Matching*.dfy`, `PeerLists.dfy`, `MemberListing.dfy`): the parent, child and P2P
  handshake. `MatchingSpec` is one node as functions, `MatchingWorld` any number of nodes and a network
  that loses, duplicates and reorders, `MatchingMembers` a host with its clients, and `MatchingRooms`
  shows that the runs of the latter are runs of the former. `MatchingEffects` says what each packet, call
  and timer does to a context from what the peer was before, and `MatchingHandshake` that two nodes which
  select each other end up as partners, or as host and child. `PeerLists` and the class `MatchingContext`
  are the code: linked peers with a `live` flag that a deleted peer loses and that every read and write
  of a peer asks for, walked by loops, proved equal to `MatchingSpec`.
- **Server** (`Server*.dfy`, `LinkedLists.dfy`): the group server. `ServerSpec` is its database, packets
  and the turn of one connection as functions; `ServerInvariant`, `ServerViews`, `ServerMembership`, `ServerRuns`,
  `ServerFraming` and `ServerStatus` prove its properties over every run. `ServerWire` is the layout of the
  clients' packets and `ServerEffects` what a turn on each of them does to the database and who is sent
  what. The class `ServerDatabase.Database` does the work: it walks the doubly linked lists of
  `LinkedLists`, sends, and links and unlinks nodes. `ServerLoop.Server` is the loop above it, with a
  receive buffer for each user.
- **Workers** (`WorkerPool*.dfy`, `WorkerCalls.dfy`): callers and worker threads as an interleaving of
  atomic steps, and the parameters of the networking calls on their way through the words of a job.
- **Parsers** (`XmlText.dfy`, `XmlParser.dfy`, `XmlDocuments.dfy`, `SoapWriter.dfy`, `SoapExchange.dfy`,
  `ChunkedBody.dfy`, `XmlEscape.dfy`): the XML parser and what it makes of any document of nested
  elements, the writer of requests, the name and value list, what the three make of a request together,
  the chunked decoder, the escaper.

The pattern is the same throughout: a specification on values with theorems about all its runs, and
methods with loops whose postconditions equate their effect with the specification.

`dafny verify dfyconfig.toml` verifies everything.

## Modelling choices

- Block pointers are indices of the block array and `-1` is the null pointer; addresses are numbers.
- A MAC address stands for the five bytes that `_isMacMatch` compares, and nodes differ in it.
- A connection number stands for a socket with its user node and is not used again. Product codes
  stand for game nodes, pairs of product code and group name for group nodes. What was sent on a
  connection is kept in an inbox, what was received and acted on in a history.
- A pointer to a node of the server's lists is its key, and the `next` and `prev` of a node are entries
  of a map, which a freed node leaves. Following a pointer to a freed node is therefore an error.
- Clocks, `recv` results, the answers of the group server and the product crosslinks are parameters.
  One step reads the clock once.
- A client's own list of players is not modelled; the view theorems hold for every way a
  client may remove entries for an address, as long as a removal leaves entries of other addresses alone
  and shrinks the entries of that address until none is left.
- Bytes and unbounded integers are used where wrapping is impossible under the stated preconditions;
  rounding a request, adding up chunk sizes and the signed comparison of chunk sizes are done in 32 bits.
- Strings end like C strings: behind the last character of a text nothing matches.

Where the code differs from its comments or looks unintended, the model follows the code: in client mode
the timeout event is raised for peers in the state whose number equals the parent *mode*; an unquoted
attribute value swallows the character behind it; a character without an entity that does not fit is
skipped by the escaper and only a longer token ends the loop; a host compares its number of children with
the limit by equality when it selects; the margin of 100 bytes that the request writer keeps before each
argument does not protect its 2048 bytes, since a longer argument or action overruns them (`SoapWriter.StaysInside`
has the exact condition, `SoapWriter.OverrunExample` an input), and closing tags that no longer fit are
cut without a terminator; a host that cancels a child puts the death notice under the cancel, and the
stack is handled from its top, so the child is gone before its death and the siblings are not told
(`MatchingEffects.CancelSends`).

Alloc then free is not always an inverse: taking the top block or growing the top moves the top for good.
`HeapTheorems.AllocThenFree` gives the exact condition.

## Model

| member | source | states |
|---|---|---|
| `HeapRounding.RoundingCoversRequest` | tinyalloc-master/tinyalloc.c:162 | masking with minus the alignment gives a multiple of the alignment that covers the request exactly when the sum does not wrap around |
| `HeapProperties.InitValid` | tinyalloc-master/tinyalloc.c:114-134 | a new heap satisfies the whole invariant: tiling, alignment, every node on one list |
| `HeapProperties.AllocValid` | tinyalloc-master/tinyalloc.c:158-222 | allocation keeps the invariant: blocks disjoint, exactly tiling the range from start to top, aligned, free list sorted without touching blocks |
| `HeapProperties.FreeValid` | tinyalloc-master/tinyalloc.c:136-156 | freeing any address keeps the invariant |
| `HeapProperties.RunValid` | tinyalloc-master/tinyalloc.c:39-214 | the invariant after every sequence of allocations and frees |
| `HeapProperties.CheckAlwaysTrue` | tinyalloc-master/tinyalloc.c:268-270 | the library's own consistency check is true after every sequence of operations |
| `HeapProperties.EveryNodeOnOneList` | tinyalloc-master/tinyalloc.c:39-214 | after every sequence of allocations and frees each block node is on exactly one of the three lists, once |
| `HeapLists.CompactCovers` | tinyalloc-master/tinyalloc.c:83-111 | compaction covers exactly the bytes covered before |
| `HeapLists.CompactKeepsNodes` | tinyalloc-master/tinyalloc.c:69-111 | compaction loses and duplicates no node |
| `HeapLists.CompactSpaced` | tinyalloc-master/tinyalloc.c:83-111 | after compaction the list is sorted and no two blocks touch |
| `HeapLists.InsertOrdered` | tinyalloc-master/tinyalloc.c:39-66 | insertion keeps the list sorted |
| `HeapTheorems.GrantedBlock` | tinyalloc-master/tinyalloc.c:158-222 | a granted block is aligned, large enough, inside the heap, disjoint from all granted before, which stay as they are |
| `HeapTheorems.FirstFitIsLowest` | tinyalloc-master/tinyalloc.c:163-211 | the result is the lowest free block of at least the requested size, or at the top with room up to the limit; otherwise the old top |
| `HeapTheorems.ExactFailure` | tinyalloc-master/tinyalloc.c:158-222 | null exactly when every free block is too small and cannot grow at the top and no new top block is possible, and then nothing changed |
| `HeapTheorems.GrantedSize` | tinyalloc-master/tinyalloc.c:166-195 | a reused top block takes on the requested size and moves the top, any other keeps an excess only below the threshold or without a node for it, and otherwise the excess is free |
| `HeapTheorems.NewTopSize` | tinyalloc-master/tinyalloc.c:200-211 | a new top block has the requested size and the top is just behind it |
| `HeapTheorems.FreeGivesBack` | tinyalloc-master/tinyalloc.c:136-156 | freeing succeeds exactly for the address of a used block, whose bytes and no others become free |
| `HeapTheorems.FreedIsAvailable` | tinyalloc-master/tinyalloc.c:83-214 | a request of exactly the size of a block that was just freed never fails |
| `HeapTheorems.AllocThenFree` | tinyalloc-master/tinyalloc.c:83-214 | freeing what was just allocated restores the heap, lists, sizes and top, if and only if a non-top free block was reused, split or not |
| `HeapTheorems.AllFreedIsOneBlock` | tinyalloc-master/tinyalloc.c:83-156 | with nothing in use the free list is one block from start to top, or empty |
| `HeapTheorems.NoPermanentFragmentation` | tinyalloc-master/tinyalloc.c:83-214 | after any run that freed everything, each request that fits between start and limit succeeds at the start |
| `TinyAlloc.TinyAlloc.constructor` | tinyalloc-master/tinyalloc.c:114-134 | threads all blocks into the blank list; the heap is the initial one |
| `TinyAlloc.TinyAlloc.InsertBlock` | tinyalloc-master/tinyalloc.c:39-66 | links a block at its place in the free list, nothing else changes |
| `TinyAlloc.TinyAlloc.ReleaseBlocks` | tinyalloc-master/tinyalloc.c:69-81 | pushes a chain of nodes onto the blank list and touches no other node |
| `TinyAlloc.TinyAlloc.FindRun` | tinyalloc-master/tinyalloc.c:88-96 | finds the longest run of blocks that touch each other |
| `TinyAlloc.TinyAlloc.CompactFree` | tinyalloc-master/tinyalloc.c:83-111 | the in-place compaction equals the compaction of the free list as a value |
| `TinyAlloc.TinyAlloc.Free` | tinyalloc-master/tinyalloc.c:136-156 | equals the specified free, and keeps a valid heap valid |
| `TinyAlloc.TinyAlloc.FindFit` | tinyalloc-master/tinyalloc.c:163-199 | the search stops at the first block that fits |
| `TinyAlloc.TinyAlloc.ReuseBlock` | tinyalloc-master/tinyalloc.c:166-195 | moves a free block to the used list, resizing the top or splitting off the excess as specified |
| `TinyAlloc.TinyAlloc.AllocBlock` | tinyalloc-master/tinyalloc.c:158-214 | equals the specified allocation of a rounded size, heap and result |
| `TinyAlloc.TinyAlloc.Alloc` | tinyalloc-master/tinyalloc.c:216-222 | equals the specified allocation, and keeps a valid heap valid |
| `TinyAlloc.TinyAlloc.CountBlocks` | tinyalloc-master/tinyalloc.c:247-254 | counts the nodes of a list |
| `TinyAlloc.TinyAlloc.CheckBlocks` | tinyalloc-master/tinyalloc.c:268-270 | true exactly when the three lists together hold as many nodes as there are blocks |
| `MatchingSpec.FindPeer` | pspnet_adhoc_matching/library/functions.c:118-133 | the first peer of that MAC, or none |
| `MatchingSpec.FindState` | pspnet_adhoc_matching/library/functions.c:140-187 | the first peer in that state, or none |
| `MatchingInvariant.SelectKeeps` | pspnet_adhoc_matching/library/calls/select.c:77-168 | selecting keeps the role limits and the consent behind every relation |
| `MatchingInvariant.CancelKeeps` | pspnet_adhoc_matching/library/calls/cancel.c:50-95 | cancelling keeps them |
| `MatchingInvariant.DrainKeeps` | pspnet_adhoc_matching/library/calls/start.c:572-613 | draining the input stack keeps them and sends only joins and accepts that were selected |
| `MatchingInvariant.OnPacketKeeps` | pspnet_adhoc_matching/library/calls/start.c:637-662 | handling any packet keeps them, if a join or accept packet is honest |
| `MatchingInvariant.TimeoutWalkKeeps` | pspnet_adhoc_matching/library/calls/start.c:1549-1621 | the timeout walk keeps them |
| `MatchingInvariant.AdhocctlWalkKeeps` | pspnet_adhoc_matching/library/calls/start.c:472-507 | the walk over peers missing on the group server keeps them |
| `MatchingHandshake.PairHandshake` | pspnet_adhoc_matching/library/calls/select.c:126-168 | from an offer, two pair nodes that select each other exchange one join and one accept, and each then lists exactly the two of them |
| `MatchingHandshake.PairAccepts` | pspnet_adhoc_matching/library/calls/select.c:154-166 | a selected request makes the asker the partner and sends it one accept |
| `MatchingHandshake.PairRecords` | pspnet_adhoc_matching/library/calls/start.c:799-897 | a request at a node without a partner is recorded, reported and not answered |
| `MatchingHandshake.PairParting` | pspnet_adhoc_matching/library/calls/cancel.c:50-95 | a cancelled partner hears of it, and forgets the canceller when the removal delay and its timeout have passed |
| `MatchingHandshake.HostHandshake` | pspnet_adhoc_matching/library/calls/select.c:77-125 | from an offer, a client and a host that select each other end up as child and host that list the same members: host, earlier children as they came, client |
| `MatchingHandshake.HostAccepts` | pspnet_adhoc_matching/library/calls/select.c:77-104 | a selected request sends one birth to each earlier child and then the accept with all of them |
| `MatchingHandshake.HelloMeansRoom` | pspnet_adhoc_matching/library/calls/start.c:799-897 | a host or pair node says hello exactly as long as it would record a stranger's request and not refuse it |
| `MatchingHandshake.SelectAnswers` | pspnet_adhoc_matching/library/calls/select.c:66-196 | which result a selection gives in which situation, and that a failed one changes nothing |
| `MatchingEffects.CancelReported` | pspnet_adhoc_matching/library/calls/start.c:1007-1171 | in every mode a cancelling peer stops joining; an asked peer's cancel is a denial, a requesting one's a cancel, a child's or partner's a leave, reported once and stamped |
| `MatchingEffects.KickedByParent` | pspnet_adhoc_matching/library/calls/start.c:1056-1102 | a client its parent cancels drops its own entries, stamps all others in order and reports one leave for the parent and each child |
| `MatchingEffects.CancelSends` | pspnet_adhoc_matching/library/calls/cancel.c:50-95 | an allowed cancel sends one packet to that peer and nothing to anyone else, and forgets it, or a client everyone |
| `MatchingEffects.ByeReported` | pspnet_adhoc_matching/library/calls/start.c:1309-1407 | whose bye is reported and stamped, and what a parent's bye drops |
| `MatchingEffects.PartnerAccepted` | pspnet_adhoc_matching/library/calls/start.c:905-999 | the awaited accept makes the partner, keeps exactly the established entries in order and raises both events |
| `MatchingEffects.ParentAccepted` | pspnet_adhoc_matching/library/calls/start.c:905-999 | the awaited accept makes the parent, every named sibling is a child, the established entries keep their order, and the own entry is there |
| `MatchingEffects.BirthRecorded` | pspnet_adhoc_matching/library/calls/start.c:1215-1265 | a birth is believed of the first parent only |
| `MatchingEffects.DeathReported` | pspnet_adhoc_matching/library/calls/start.c:1273-1302 | a death takes out and reports a child on the parent's word only |
| `MatchingEffects.HelloReported` | pspnet_adhoc_matching/library/calls/start.c:731-791 | an unattached node reports every hello and records unknown senders as offers |
| `MatchingEffects.PingHeard` | pspnet_adhoc_matching/library/calls/start.c:711-723 | a ping stamps the sender and nothing else |
| `MatchingEffects.TimeoutEffect` | pspnet_adhoc_matching/library/calls/start.c:1549-1621 | in host and pair mode exactly the peers leave that were not heard of for the timeout, or are marked, are not joining and not the node itself; who is reported and who is sent a cancel |
| `MatchingEffects.HostTimeoutNotices` | pspnet_adhoc_matching/library/calls/start.c:1880-1923 | a host sends a bye to each peer that leaves and its death to exactly the children still there |
| `MatchingEffects.ClientGivesUp` | pspnet_adhoc_matching/library/calls/start.c:1549-1621 | the first peer a client gives up is cancelled, and with it the whole list goes |
| `MatchingEffects.ClientStays` | pspnet_adhoc_matching/library/calls/start.c:1549-1621 | if there is none, nobody goes |
| `MatchingEffects.MissingEffect` | pspnet_adhoc_matching/library/calls/start.c:472-507 | listed peers are stamped; those missing for more than three seconds are marked and reported |
| `MatchingEffects.StopEffect` | pspnet_adhoc_matching/library/calls/start.c:687-693 | bye to exactly the established peers, and an empty list |
| `MatchingWorld.RunInv` | pspnet_adhoc_matching/library/calls/start.c:515-704 | both hold at every node of every run |
| `MatchingWorld.MutualConsent` | pspnet_adhoc_matching/library/calls/start.c:799-999 | under loss, duplication and reordering, a parent or partner, and a child of a host, were selected by both sides |
| `MatchingWorld.SelectionsAreCalls` | pspnet_adhoc_matching/library/calls/select.c:40-196 | a selection is recorded exactly when an earlier call on that target succeeded at that node |
| `MatchingWorld.RoleLimitsHold` | pspnet_adhoc_matching/library/calls/start.c:731-999 | in every run: one parent or request, one partner or request, at most maxpeers - 1 children, unique MACs in host and P2P lists, only states of the own mode |
| `MatchingMembers.AgreedMembers` | pspnet_adhoc_matching/library/calls/getmembers.c:112-231 | in an agreed room, an accepted client lists the same members as the host in the same order |
| `MatchingMembers.SiblingsInOrder` | pspnet_adhoc_matching/library/calls/start.c:1440-1492 | unknown siblings of an accept packet end up in front of the list, in the packet's order |
| `MatchingMembers.AdmitKeepsAgreement` | pspnet_adhoc_matching/library/calls/start.c:1839-1873 | accepting the next in line and delivering accept and birth packets keeps the lists in agreement |
| `MatchingMembers.DeathKeepsAgreement` | pspnet_adhoc_matching/library/calls/start.c:1880-1923 | a death notice of the host keeps the lists in agreement |
| `MatchingMembers.MembersAgree` | pspnet_adhoc_matching/library/calls/getmembers.c:62-254 | after every run of a room, with hellos, requests, admissions, timeouts, pings both ways, member listings and refreshes from the group server, host and accepted clients report the same MACs in the same order |
| `MatchingRooms.RoomIsWorldRun` | pspnet_adhoc_matching/library/calls/start.c:515-704 | every run of a room is a run of the world that goes on from where its nodes stand |
| `MatchingRooms.RoomConsent` | pspnet_adhoc_matching/library/calls/start.c:799-999 | so a host and each child of its room have selected each other |
| `MemberListing.FullRoomShowsMembers` | pspnet_adhoc_matching/library/calls/getmembers.c:62-254 | a buffer of full size shows all members |
| `MemberListing.SmallRoomShowsBeginning` | pspnet_adhoc_matching/library/calls/getmembers.c:62-254 | a smaller buffer shows a beginning of the members, or nothing to a client in a room that has room for one |
| `MemberListing.CountIsMembers` | pspnet_adhoc_matching/library/functions.c:505-547 | the connected peers that size a buffer are as many as the members |
| `MemberListing.FullListsAgree` | pspnet_adhoc_matching/library/calls/getmembers.c:62-254 | after every such run, host and child with full-size or larger buffers are shown the same MACs in the same order |
| `MemberListing.ReverseList` | pspnet_adhoc_matching/library/calls/getmembers.c:127-195 | the nodes from last to first, and every live timer bumped |
| `MemberListing.FillListed` | pspnet_adhoc_matching/library/calls/getmembers.c:197-227 | fills the buffer with the listed MACs until it is full |
| `MemberListing.GetMembers` | pspnet_adhoc_matching/library/calls/getmembers.c:49-253 | the buffer of any size holds what is to be shown, the timers are bumped and nothing else changes |
| `PeerLists.PeerList.Find` | pspnet_adhoc_matching/library/functions.c:118-133 | the node of the first peer with that MAC |
| `PeerLists.PeerList.FindIn` | pspnet_adhoc_matching/library/functions.c:140-187 | the node of the first peer in that state |
| `PeerLists.PeerList.Children` | pspnet_adhoc_matching/library/functions.c:194-208 | counts the children |
| `PeerLists.PeerList.DeletePeer` | pspnet_adhoc_matching/library/functions.c:215-242 | takes exactly this node out, keeps the others in order, and frees it |
| `PeerLists.PeerList.Clear` | pspnet_adhoc_matching/library/functions.c:399-413 | empties the list and frees every node, following only live ones |
| `PeerLists.PeerList.Clean` | pspnet_adhoc_matching/library/calls/start.c:1413-1432 | keeps exactly the established peers and the self entry, in order |
| `PeerLists.PeerList.DropSelf` | pspnet_adhoc_matching/library/calls/start.c:1073-1101 | removes exactly the self entries, stamps the others and keeps them in order |
| `PeerLists.PeerList.AddSiblings` | pspnet_adhoc_matching/library/calls/start.c:1440-1492 | adds or updates the siblings from the last to the first |
| `MatchingContext.MatchingContext.CountPeers` | pspnet_adhoc_matching/library/functions.c:505-547 | the number of connected peers by mode |
| `MatchingContext.MatchingContext.SelectTarget` | pspnet_adhoc_matching/library/calls/select.c:40-196 | context and result of the specified selection |
| `MatchingContext.MatchingContext.CancelTarget` | pspnet_adhoc_matching/library/calls/cancel.c:24-108 | context and result of the specified cancellation |
| `MatchingContext.MatchingContext.SendAccept` | pspnet_adhoc_matching/library/calls/start.c:1630-1699 | the accept packet with the other children in list order, and the established event |
| `MatchingContext.MatchingContext.SendJoin` | pspnet_adhoc_matching/library/calls/start.c:1708-1738 | a join packet only for an outgoing request |
| `MatchingContext.MatchingContext.SendCancel` | pspnet_adhoc_matching/library/calls/start.c:1747-1787 | the cancel packet; a known peer is deleted, a client's whole list is cleared |
| `MatchingContext.MatchingContext.SendBirth` | pspnet_adhoc_matching/library/calls/start.c:1839-1873 | a birth packet to every child but the newborn |
| `MatchingContext.MatchingContext.SendDeath` | pspnet_adhoc_matching/library/calls/start.c:1880-1923 | bye to the dead child, death to the others, and the node is deleted |
| `MatchingContext.MatchingContext.Drain` | pspnet_adhoc_matching/library/calls/start.c:572-606 | the whole stack from the newest message on, and an empty stack behind it |
| `MatchingContext.MatchingContext.OnPing` | pspnet_adhoc_matching/library/calls/start.c:711-723 | refreshes the sender's timers |
| `MatchingContext.MatchingContext.OnHello` | pspnet_adhoc_matching/library/calls/start.c:731-791 | an offer is recorded and reported only while unattached |
| `MatchingContext.MatchingContext.OnJoin` | pspnet_adhoc_matching/library/calls/start.c:799-897 | records a request, ignores a known one, or refuses it without a free slot |
| `MatchingContext.MatchingContext.OnAccept` | pspnet_adhoc_matching/library/calls/start.c:905-999 | only the awaited answer establishes the peer, cleans the list and adds siblings and self |
| `MatchingContext.MatchingContext.OnCancel` | pspnet_adhoc_matching/library/calls/start.c:1007-1171 | deny, kick, leave or cancel by mode and state |
| `MatchingContext.MatchingContext.OnBirth` | pspnet_adhoc_matching/library/calls/start.c:1215-1265 | a sibling is added on the parent's word only |
| `MatchingContext.MatchingContext.OnDeath` | pspnet_adhoc_matching/library/calls/start.c:1273-1302 | a child is deleted on the parent's word only |
| `MatchingContext.MatchingContext.OnBye` | pspnet_adhoc_matching/library/calls/start.c:1309-1407 | stamps the peer, or drops self and stamps all when the parent leaves |
| `MatchingContext.MatchingContext.OnPacket` | pspnet_adhoc_matching/library/calls/start.c:637-662 | dispatch of every packet kind |
| `MatchingContext.MatchingContext.HandleTimeout` | pspnet_adhoc_matching/library/calls/start.c:1549-1621 | equals the specified walk; the saved next node is in the list again or the list is empty, so only live nodes are followed |
| `MatchingContext.MatchingContext.TimeoutMissing` | pspnet_adhoc_matching/library/calls/start.c:472-507 | equals the specified walk; the node walked on is never freed by the bye it is taken for |
| `MatchingContext.MatchingContext.Stop` | pspnet_adhoc_matching/library/calls/start.c:687-693 | bye to the established peers, and the list is cleared |
| `ServerInvariant.StepKeeps` | pspnet_adhocctl_server/user.c:41-284 | each accepted connection and each turn keeps the database consistent |
| `ServerInvariant.RunConsistent` | pspnet_adhocctl_server/user.c:41-624 | in every run: counters equal real lengths and memberships and are never 0, at most 1024 users, distinct addresses, users' groups belong to their games |
| `ServerInvariant.LogoutGone` | pspnet_adhocctl_server/user.c:194-257 | a logout removes exactly this user and leaves the others and their order alone |
| `ServerInvariant.FreeDatabaseEmpties` | pspnet_adhocctl_server/user.c:262-284 | after any run, freeing the database leaves no users, games or groups |
| `ServerViews.KnownPolicies` | pspnet_adhocctl_server/user.c:555-568 | a client that drops one entry for an address and one that drops all are both covered |
| `ServerViews.Purge` | pspnet_adhocctl_server/user.c:525-568 | as many disconnects as there are players of the address leave exactly the entries of other addresses |
| `ServerMembership.LeaveHeard` | pspnet_adhocctl_server/user.c:525-568 | a leave with its disconnects and reconnects turns a member's list into the remaining members |
| `ServerMembership.JoinHeard` | pspnet_adhocctl_server/user.c:366-408 | a join adds exactly the newcomer to a member's list |
| `ServerMembership.LastIsFounder` | pspnet_adhocctl_server/user.c:403-418 | the last of a player list is the longest-standing member |
| `ServerRuns.ViewAgreement` | pspnet_adhocctl_server/user.c:363-568 | in every run, replaying a member's packets since it joined gives exactly the other members, also when several share an address |
| `ServerRuns.BssidIsFounder` | pspnet_adhocctl_server/user.c:326-422 | the BSSID sent to a joiner is the longest-standing member's MAC, its own when the group is new |
| `ServerRuns.ScanAgreement` | pspnet_adhocctl_server/user.c:636-664 | in every run a scan reports the longest-standing member of every group |
| `ServerFraming.LiveFraming` | pspnet_adhocctl_server/main.c:226-375 | packets acted on followed by the buffer are the bytes received, they are the packets of the byte stream, and the buffer is never full before a receive |
| `ServerFraming.ClosedFraming` | pspnet_adhocctl_server/main.c:226-375 | what was acted on before a close for any reason is a beginning of the packets of the stream |
| `ServerFraming.ServerClosedFraming` | pspnet_adhocctl_server/main.c:226-375 | a connection closed for its own packets, not for a timeout, a remote close or a failure, acted on exactly the packets of its stream, whatever else is sent |
| `ServerFraming.DrainedFraming` | pspnet_adhocctl_server/main.c:226-375 | with no complete packet left, exactly the packets of the stream were acted on |
| `ServerFraming.FramingIndependence` | pspnet_adhocctl_server/main.c:226-375 | two runs that were sent the same bytes in whatever pieces acted on the same packets, whether the connection is live and drained or was closed for its packets, in either run |
| `ServerWire.WireRead` | pspnet_adhocctl_server/packets.h:23-65 | a packet laid out by its opcode and fields is read as that request with that length, whatever follows |
| `ServerWire.WireIncomplete` | pspnet_adhocctl_server/main.c:255-369 | a part of a packet is waited for |
| `ServerWire.OtherBytes` | pspnet_adhocctl_server/main.c:255-369 | every other first byte is a bad opcode |
| `ServerWire.OnlyWire` | pspnet_adhocctl_server/main.c:255-369 | nothing but these layouts is read as a packet |
| `ServerWire.TurnEnds` | pspnet_adhocctl_server/main.c:243-370 | a turn on a packet logs the user out exactly for invalid login data, an invalid group name, a second group, or a disconnect, chat or scan in the wrong place; others stay as they are |
| `ServerWire.TurnDrops` | pspnet_adhocctl_server/main.c:236-240 | so do a close, an error, fifteen seconds of silence and a bad opcode |
| `ServerEffects.PingEffect` | pspnet_adhocctl_server/main.c:290-295 | a ping is only taken out of the buffer |
| `ServerEffects.ChatEffect` | pspnet_adhocctl_server/user.c:734-810 | a message reaches each other player of the group once, and nobody else |
| `ServerEffects.ScanEffect` | pspnet_adhocctl_server/user.c:630-698 | a scan reports each group of the game with the MAC of its last player, and then its end, to the user alone |
| `ServerEffects.ConnectEffect` | pspnet_adhocctl_server/user.c:291-476 | the user comes first on the player list; each player hears of it once, it hears of each player in order and then the group's MAC |
| `ServerEffects.DisconnectEffect` | pspnet_adhocctl_server/user.c:525-607 | the user is taken off the list, an empty group is gone, and each remaining player gets one disconnect for each player of the address and then the others of it again |
| `ServerEffects.LoginEffect` | pspnet_adhocctl_server/user.c:104-188 | a credible login enters the game and counts there, and changes no other game, group or inbox |
| `ServerEffects.GameEntered` | pspnet_adhocctl_server/user.c:861-906 | the game is the text of the product code, or of the first nine characters it is crosslinked to |
| `ServerEffects.AcceptedIf` | pspnet_adhocctl_server/user.c:41-97 | a connection is accepted exactly when fewer than 1024 are there and none has its address |
| `ServerEffects.AcceptEffect` | pspnet_adhocctl_server/user.c:41-97 | it stands first on the user list, with nothing received, sent or known |
| `ServerEffects.NoticeEffect` | pspnet_adhocctl_server/user.c:705-730 | a notice of the server reaches every user in a group once, and nobody else |
| `LinkedLists.PushFront` | pspnet_adhocctl_server/user.c:72-74 | the new node is first, and all links agree in both directions |
| `LinkedLists.Unlink` | pspnet_adhocctl_server/user.c:200-206 | taking a node out through its neighbours' links removes exactly it, keeps the order, and all links agree in both directions |
| `LinkedLists.ChainOrder` | pspnet_adhocctl_server/user.c:200-206 | links that agree in both directions determine one order |
| `ServerLoop.RxBuffer.Clear` | pspnet_adhocctl_server/user.c:833-843 | moves the rest to the front; -1 or too large a size clears everything |
| `ServerDatabase.IsProductCode` | pspnet_adhocctl_server/user.c:106-114 | only capitals and digits |
| `ServerDatabase.IsGroupName` | pspnet_adhocctl_server/user.c:293-314 | letters and digits up to the terminator |
| `ServerDatabase.Database.LoginUserStream` | pspnet_adhocctl_server/user.c:41-97 | accepts exactly when there is room and the address is new |
| `ServerDatabase.Database.LoginUserData` | pspnet_adhocctl_server/user.c:104-188 | the specified login, or a logout for invalid data |
| `ServerDatabase.Database.LogoutUser` | pspnet_adhocctl_server/user.c:194-257 | the specified logout |
| `ServerDatabase.Database.CountSameIp` | pspnet_adhocctl_server/user.c:478-488 | counts the group's players of an address |
| `ServerDatabase.Database.SendLeaves` | pspnet_adhocctl_server/user.c:544-565 | that many disconnect packets to each remaining player |
| `ServerDatabase.Database.ReconnectPlayers` | pspnet_adhocctl_server/user.c:490-519 | presents each player of the address to every other player again |
| `ServerDatabase.Database.LeaveTheGroup` | pspnet_adhocctl_server/user.c:528-607 | the specified leave with all its packets, freeing an empty group |
| `ServerDatabase.Database.DisconnectUser` | pspnet_adhocctl_server/user.c:525-624 | a leave, or a logout when in no group |
| `ServerDatabase.Database.SendJoins` | pspnet_adhocctl_server/user.c:366-408 | presents newcomer and players to each other and finds the BSSID |
| `ServerDatabase.Database.ConnectUser` | pspnet_adhocctl_server/user.c:291-476 | the specified join, or a logout for a bad name or a second group |
| `ServerDatabase.Database.SendScanResults` | pspnet_adhocctl_server/user.c:630-698 | one scan packet a group and the end of scan, or a logout |
| `ServerDatabase.Database.SpreadMessage` | pspnet_adhocctl_server/user.c:705-810 | the message to every other player of the group, or a logout |
| `ServerDatabase.Database.Free` | pspnet_adhocctl_server/user.c:262-284 | notice and logout of everyone; no user, game or group is left |
| `ServerLoop.Server.Accept` | pspnet_adhocctl_server/main.c:205-223 | the specified connection with an empty buffer of its own, or nothing |
| `ServerLoop.Server.Serve` | pspnet_adhocctl_server/main.c:232-370 | the specified turn of one connection; every buffer holds its user's unhandled bytes, and only that of fd changes |
| `ServerLoop.TurnLeavesOthers` | pspnet_adhocctl_server/main.c:226-375 | a turn leaves every other user as it is, and the list in its order |
| `ServerLoop.Server.ServeAll` | pspnet_adhocctl_server/main.c:225-374 | one turn for each connection in list order, along links that turns change; the saved next user is still on the list |
| `ServerLoop.StepAllRuns` | pspnet_adhocctl_server/main.c:225-374 | such a walk continues a run, so all properties of runs hold behind it |
| `ServerStatus.GrouplessCount` | pspnet_adhocctl_server/status.c:157-192 | a game's counter less its groups' counters is the number of its players in no group |
| `ServerStatus.CountGroupless` | pspnet_adhocctl_server/status.c:157-192 | the loop adds up the groups and writes the rest only if it is positive |
| `WorkerPoolProofs.RunInv` | pspnet_adhoc/library/workers.c:22-231 | the links between callers, workers, semaphores and mutex in every interleaving |
| `WorkerPoolProofs.CallsGetTheirOwnResult` | pspnet_adhoc/library/workers.c:187-231 | a call that returned got the result of the one execution of its own type and arguments |
| `WorkerPoolProofs.OneCallerPerWorker` | pspnet_adhoc/library/workers.c:192-209 | no worker serves two callers at once |
| `WorkerPoolProofs.SemaphoresAreBinary` | pspnet_adhoc/library/workers.c:24-136 | no semaphore is ever signalled above its maximum of 1 |
| `WorkerPoolProofs.NoDeadlock` | pspnet_adhoc/library/workers.c:187-231 | as long as a call has not returned, some caller or worker can go on |
| `WorkerPoolProgress.EveryCallCanReturn` | pspnet_adhoc/library/workers.c:187-231 | whatever happened before, some continuation without new calls lets a given call return |
| `WorkerCalls.SidesAgree` | pspnet_adhoc/library/workers.c:34-130 | the worker reads as many words as main.c stores for a type, each as what it was stored as |
| `WorkerCalls.CallsGetTheirOwnParameters` | pspnet_adhoc/main.c:133-575 | a call that returned was carried out once with exactly its own parameters, negative numbers included, and got that result |
| `SoapText.RequestRoundTrip` | pspnet_miniupnc/library/miniupnpc.c:111-154 | parsing a request reports each argument once, in order, with its exact non-empty value, and no other data |
| `SoapText.ArgRead` | pspnet_miniupnc/library/minixml.c:125-223 | an element is read as its start, its exact text and its end, whatever follows |
| `SoapText.AttributeRead` | pspnet_miniupnc/library/minixml.c:56-123 | a quoted attribute is read with its exact value |
| `SoapText.PrefixedName` | pspnet_miniupnc/library/minixml.c:135-149 | a namespace prefix is left out of an element's name |
| `SoapWriter.PutArg` | pspnet_miniupnc/library/miniupnpc.c:128-144 | appends the text of one argument |
| `SoapWriter.StaysInside` | pspnet_miniupnc/library/miniupnpc.c:123-150 | the copy loops stay inside the 2048 bytes if and only if each argument begun in time, and the action behind the last, fits |
| `SoapWriter.LongArgumentOverruns` | pspnet_miniupnc/library/miniupnpc.c:123-146 | an argument that passes the margin test and is longer than what is left overruns the buffer |
| `SoapWriter.OverrunExample` | pspnet_miniupnc/library/miniupnpc.c:123-146 | a value of 2048 characters does |
| `SoapWriter.MarginsInCharacters` | pspnet_miniupnc/library/miniupnpc.c:123-127 | the margin test of all arguments in numbers of characters |
| `SoapWriter.WriteRequest` | pspnet_miniupnc/library/miniupnpc.c:107-155 | inside these bounds: null exactly when the margin runs out before some argument, else the request, cut at the end of the buffer, with zeros behind it |
| `SoapExchange.Exchange` | pspnet_miniupnc/library/miniupnpc.c:107-155 | looking up a name in what was parsed from what was written gives the value of the last argument of that name that has one, or nothing |
| `XmlDocuments.TreeRead` | pspnet_miniupnc/library/minixml.c:125-223 | every document of nested elements with prefixes, attributes in either quotes and any spacing, texts, CDATA sections and empty elements is reported as what it is |
| `XmlDocuments.SectionRead` | pspnet_miniupnc/library/minixml.c:168-188 | a CDATA section is one piece of data, brackets and all |
| `XmlDocuments.BareRead` | pspnet_miniupnc/library/minixml.c:103-115 | a value without quotes is a word, and the character behind it is swallowed |
| `XmlDocuments.DocumentLookup` | pspnet_miniupnc/library/upnpreplyparse.c:33-125 | a lookup in what was heard from a document finds the last element of that name with text |
| `XmlDocuments.DocumentListing` | pspnet_miniupnc/library/upnpreplyparse.c:43-60 | the port listing is that of the last such element, whole |
| `NameValueLists.LookupFindsLast` | pspnet_miniupnc/library/upnpreplyparse.c:33-125 | a lookup in what was heard from a request finds the last argument of that name with a value, or nothing |
| `NameValueLists.ShortIsExact` | pspnet_miniupnc/library/upnpreplyparse.c:63-71 | names and values of up to 63 characters are not cut |
| `NameValueLists.NameValues.StartElt` | pspnet_miniupnc/library/upnpreplyparse.c:33-41 | remembers the element's name, cut to its buffer |
| `NameValueLists.NameValues.GetData` | pspnet_miniupnc/library/upnpreplyparse.c:43-73 | adds a pair in front of the list, or keeps a port listing whole |
| `NameValueLists.NameValues.GetValue` | pspnet_miniupnc/library/upnpreplyparse.c:111-125 | the first pair of that name |
| `NameValueLists.NameValues.Clear` | pspnet_miniupnc/library/upnpreplyparse.c:94-109 | empties list and port listing |
| `MiniXml.XmlParser.ParseAtt` | pspnet_miniupnc/library/minixml.c:56-123 | the attribute callbacks of exactly the text's attributes, and where it stops |
| `MiniXml.XmlParser.ParseName` | pspnet_miniupnc/library/minixml.c:135-149 | an element's name without its prefix |
| `MiniXml.XmlParser.ParseContent` | pspnet_miniupnc/library/minixml.c:156-200 | the text or CDATA behind an opening tag |
| `MiniXml.XmlParser.ParseElt` | pspnet_miniupnc/library/minixml.c:127-223 | the callbacks are exactly the events of the text, in order |
| `MiniXml.ParseNameValue` | pspnet_miniupnc/library/upnpreplyparse.c:75-92 | what the handlers know is what the events of the buffer tell |
| `ChunkedCoding.EncodedDecodes` | pspnet_miniupnc/library/miniwget.c:163-223 | an encoded body decodes to its payloads, with sizes printed in hexadecimal in any mix of cases and behind any zeros, any line ends and any trailer |
| `ChunkedCoding.SpelledValue` | pspnet_miniupnc/library/miniwget.c:187-194 | digits are read as n exactly when they print n in the two alphabets |
| `ChunkedCoding.PrintedValue` | pspnet_miniupnc/library/miniwget.c:187-194 | every number printed in hexadecimal, with leading zeros, is read as itself |
| `ChunkedCoding.PrintedSize` | pspnet_miniupnc/library/miniwget.c:163-206 | such a printing is a size line exactly when it has at most 31 digits |
| `ChunkedBody.ReadSize` | pspnet_miniupnc/library/miniwget.c:168-206 | a piece of a size line moves the decoder on by at least one byte |
| `ChunkedBody.DecodePass` | pspnet_miniupnc/library/miniwget.c:166-222 | each pass of the inner loop takes at least one byte and moves the decoder on over exactly the bytes it takes |
| `ChunkedBody.AddDigits` | pspnet_miniupnc/library/miniwget.c:187-194 | the 32-bit sum of the digits is the number they print as long as that is positive as an int |
| `ChunkedBody.Store` | pspnet_miniupnc/library/miniwget.c:208-219 | appends to the content, growing it when needed |
| `ChunkedBody.CopyPayload` | pspnet_miniupnc/library/miniwget.c:207-221 | copies as much of the chunk as has arrived |
| `ChunkedBody.Decode` | pspnet_miniupnc/library/miniwget.c:160-223 | for every split into reads the content is what the byte decoder makes of the joined bytes |
| `ChunkedBody.DecodeEncoded` | pspnet_miniupnc/library/miniwget.c:160-223 | an encoded body, split into reads in any way, yields exactly its payloads |
| `XmlEscape.RoundTrip` | pspnet_adhocctl_server/status.c:217-317 | unescaping undoes escaping, for every string |
| `XmlEscape.Replaced` | pspnet_adhocctl_server/status.c:217-317 | which four characters are replaced, and by what |
| `XmlEscape.EscapedIsSafe` | pspnet_adhocctl_server/status.c:217-317 | escaped text holds no bracket and no quote |
| `XmlEscape.LongestFitUnique` | pspnet_adhocctl_server/status.c:217-317 | there is only one longest beginning whose escaped form fits |
| `XmlEscape.FitsWhole` | pspnet_adhocctl_server/status.c:217-317 | it is the whole input exactly when the whole fits |
| `XmlEscape.StrCpyXml` | pspnet_adhocctl_server/status.c:217-317 | the buffer holds the escaped longest beginning that fits with its terminator; unescaping gives that beginning |

## Left out

- Sockets, UPnP discovery, SQLite and the PSP kernel: their results are parameters or nondeterministic steps.
- `atpro`, the PPSSPP loader, shims and dummies: hooks, drawing and plumbing.
- `ta_calloc`, `memclear`: multiplication and clearing add nothing to the list invariants.
- The allocator is modelled with compaction and splitting switched on; zero-size requests and arithmetic that wraps around beyond the rounding are excluded.
- Failing `malloc` in matching, server and parsers: allocation always succeeds.
- Matching packets carry no optional data, bulk data and its `sending` flag are not modelled, and packets are complete.
- The locks of the matching stacks: a call, a drain and a handler are each one atomic step.
- Member agreement after an explicit cancel, sibling uniqueness in child mode and child-mode timeout events: the code does not promise them.
- MatchingMembers.MembersAgree: departures are death notices of the host, no client's own timer runs out and no client misses a peer on the group server, and packets arrive in order, because the LIFO stack handles a cancel before the death it belongs to.
- The server's nodes are map entries and no heap objects; two lists never share links, which the separate `next` and `group_next` fields of the source see to.
- SoapExchange.Exchange: for requests without a zero character and shorter than the buffer; a longer one is cut.
- `game_product_override` is a map of crosslinks; `update_status` is modelled for its user counts only.
- `stop_workers` and `init_workers`: shutdown with jobs in flight gives no guarantee; the pool starts with its workers created. It stays a step system, because its point is the interleaving.
- HTTP headers, `Content-Length` and unchunked bodies of `getHTTPResponse`; chunk extensions, whose treatment depends on how they are split over reads; sizes that are negative as an int.
- Reads behind the end of a text (the CDATA comparison, a colon or an equals sign as the last character): the model sees nothing there.
- Strings with a zero character inside in `upnpreplyparse.c`, and the URL parsing and sending in `simpleUPnPcommand2`.
