# A model of the servent

The program is a peer-to-peer file-sharing node. Each machine runs a *servent* (the server process), which
keeps up to five neighbours, floods searches through them and serves files, and a *client* (the user's
process), which talks to its own servent only. The Dafny files model that node, the protocol between nodes
and the two processes of one machine, and prove what holds of them.

| file | what it models |
|---|---|
| `Basics.dfy`, `Wire.dfy`, `Layout.dfy` | every packet and its bytes; reading back what was written; the layout written out |
| `Streams.dfy` | descriptors with partial reads and writes, field readers, packets under construction |
| `SearchRules.dfy` | what one node decides about one search request; the log of requests |
| `SearchHandlers.dfy` | the search handlers of a servent, their recipients and allocations |
| `Sending.dfy` | whom a packet of the search is sent to, as meant and as the code hands it on |
| `Flood.dfy`, `FloodLaws.dfy`, `FloodTermination.dfy`, `FloodConservation.dfy` | the network of nodes as a state machine, and what holds of all its runs |
| `FloodPolicies.dfy`, `FloodProgress.dfy`, `FloodRefinement.dfy` | the code and the flood its comments describe, as policies; the link to the handlers |
| `FloodDelivery.dfy`, `FloodNeighbours.dfy` | the code: where its answers arrive, and when all neighbours are heard |
| `FloodOpening.dfy`, `FloodGraphs.dfy`, `FloodResults.dfy`, `FloodDuplicates.dfy`, `FloodCoverage.dfy`, `FloodReach.dfy` | the documented flood: on which graphs it loses nothing, what it lists, how often it relays, whom it visits and whom it can miss |
| `ClientIndex.dfy` | the client's index of files and machines |
| `Lists.dfy`, `ServerLoops.dfy` | the linked list and the loops that delete from it |
| `Membership.dfy`, `Crawls.dfy`, `Overlay.dfy`, `JoinLaws.dfy` | the neighbour table, joining, leaving, the recursive search for neighbours; what joining keeps |
| `Arguments.dfy` | the two passes over `argv` |
| `Filters.dfy` | the loops that pick from a list, as one stable filter |
| `Transfer.dfy` | a file from disk to disk |

Methods follow the C functions statement by statement and are proved against functions; the laws are about
those functions, or about every run of the state machine. A run is any interleaving of searches, deliveries
in any order, handled requests, downloads and clock ticks, starting from nodes that hold files of their own.
The neighbour tables are part of the nodes; a policy says whom of its neighbours a node writes to.
One step relation covers every answer policy that answers requests without TTL; it is specialised to the
code (`FloodPolicies.AsWritten`) and to the flood the comments describe (`FloodPolicies.AsIntended`).

## Where the code and its comments disagree

The model does what the code does. Where a difference has consequences, a theorem says which.

- The code answers the *unique* requests (`server/server_requests.c:257`), where the comment wants the
  duplicates and the exhausted ones, and nothing ever enters the log of received requests. So a search goes
  to the asker's own neighbours and no further: `CodeReachesOneHop`.
- Answers go to the neighbours of the answering node and not to the asker. `ListedExact` says in whose index
  they end, `HearingExact` and `GaplessExact` on which neighbour tables the asker hears from all neighbours
  that have the file; `AnswerGoesAstray` is a table on which it does not.
- The documented flood has a gap of its own: a node that finds the file on a fresh request relays instead of
  answering, and with nobody left to relay to the discovery is lost. `ConservationExact` says on which graphs
  that happens: exactly those where a node can be asked by its only neighbour. It is what
  MIN_NEIGHBOURS, two, is there to prevent (`NoLeafExact`, `EnoughNeighboursExact`).
- The duplicate test treats an equal source port as a difference (`server/server_requests.c:546`):
  `CheckUnique` is proved against that reading. In the code itself it makes no difference, as nothing is ever
  logged (`CodeSeesOnlyNew`); with a log filled as documented it would report no duplicate where each address
  has one port (`UniqueTestsExact`).
- Log entries do not count down (`server.c:586-597` against `server.c:180-189`): `LifetimeExact` says for
  which turns of the loop this makes no difference.
- `source_sock` is never set and the array of recipients is filled by slot and used by count:
  `RecipientsExact` says when the recipients are nevertheless the right ones, `AllHearExact` when everybody
  meant is among them.
- `list_pop_at` moves the head only when the list becomes empty: `Sweep` says after which sweeps the list is
  still usable; draining it always is (`Drain`).
- The result of `read_from_fd` on success is the size and not 0 (`util.h` says 0).
- The receiver of a file opens it without truncating, and the length handed to `write_to_packet` is an
  `int`: `Download` says which files arrive unchanged.
- The packet to the client is allocated one byte too small; that shows exactly for an empty list:
  `ClientAnswerFitsExact`. A rebuilt packet is allocated without the machine a hit adds; that shows exactly
  for relayed hits on files with long names: `RelayedHitFitsExact`.
- The recursion over known neighbours is said to stop as soon as there are enough of them
  (`server/server_internal.h:81`); the code only looks before the loop. `StopExact` says from which tables it
  stops in time all the same: those that have enough neighbours before the first round. From any other, with
  a level to go, the first endpoint asked can bring two neighbours, and the second is asked nevertheless.
- Neighbours are told apart by what `getpeername` says, which for a servent that joined is not the port it is
  advertised by, and accepting a join makes no check at all (`server/server_join.c:226-289`). So nothing keeps
  a servent from advertising somebody twice: `AdvertisedDistinctExact` and `AcceptedDistinctExact` say when
  it does not.
- A servent's own address is freed right after it is stored (`server/server_join.c:71-73`); whether an
  advertised address is recognised as one's own is therefore left open in `JoinAdvertised`.

## Model

| member | source | states |
|---|---|---|
| Wire.TextRoundTrip | client/client_search.c:26-28 | a string is read back clipped to its length modulo 256, and the rest of the stream is untouched |
| Wire.RequestRoundTrip | server/server_requests.c:101-146 | CMSG_SEARCH_REQUEST with its nested machine list is read back field for field |
| Wire.JoinRoundTrip | server/server_packets.c:20-43 | CMSG_JOIN and both shapes of SMSG_JOIN are read back |
| Wire.FileRoundTrip | server/server_requests.c:703-745 | both shapes of SMSG_DOWNLOAD are read back, the content included |
| Wire.OutcomeRoundTrip | client/client_download.c:58-116 | both shapes of SMSG_INT_DOWNLOAD are read back |
| Wire.DecodedFits | server/server_requests.c:559-583 | whatever is read off a stream has short strings and lists, and reading consumes something |
| Wire.RoundTripExact | server/server_packets.c:20-131 | any packet in front of any bytes is read back as itself leaving those bytes, if and only if every string and list fits its length byte |
| Wire.SelfDelimiting | packets_doc.h:23-42 | streams that are equal begin with equal packets |
| Wire.StreamRoundTrip | server.c:478-505 | back-to-back packets on one socket parse to the sequence sent |
| Layout.PlainLayout | packets_doc.h:55-65 | the packets without fields are one opcode byte each, given by number |
| Layout.JoinLayout | packets_doc.h:68-82 | CMSG_JOIN is opcode, rescue flag and length-prefixed port; SMSG_JOIN opcode, 1 and port, or opcode and the refusal |
| Layout.NamedLayout | packets_doc.h:250-263 | a download request, a search of the own client and a success are opcode (and code 3) and length-prefixed file name |
| Layout.AddressedLayout | server/server_requests.c:660-700 | a missing file, a download order and a failure carry address, port and file name in that order behind opcode and code |
| Layout.FileLayout | server/server_requests.c:460-478 | a sent file is opcode, code, length-prefixed name, four length bytes with the low one first, and the content |
| Layout.NeighboursLayout | packets_doc.h:145-163 | an empty neighbour list is opcode and 0; one neighbour more raises byte 1 and appends address before port |
| Layout.AnswerLayout | packets_doc.h:202-212 | either search answer that lists nobody is opcode, length-prefixed file name and 0 |
| Layout.AnswerGrows | packets_doc.h:212-219 | one machine more raises the count behind the file name and appends address before port |
| Layout.ClientAnswerGrows | packets_doc.h:286-303 | the same for the answer to the client |
| Layout.RequestLayout | server/server_requests.c:195-204 | a request that lists nobody is opcode, source address, source port, file name, each behind its length, the TTL and 0 |
| Layout.RequestGrows | server/server_requests.c:307-316 | one machine more raises the count behind the TTL and appends address before port |
| Streams.WriteToFd | util.c:20-31 | everything is written whatever the partial writes, or -1 and nothing |
| Streams.ReadFromFd | util.c:34-47 | the buffer is the next `size` bytes whatever the partial reads; 0 when the stream ends first |
| Streams.ReadText | server/server_util.c:18-24 | the reads of one string give what the format says and leave the rest |
| Streams.ReadMachines | server/server_requests.c:126-146 | the loop over a counted machine list reads exactly that list |
| Streams.PacketBuffer.Write | util.c:277-280 | the bytes follow what was written before, also past the allocation |
| Streams.PacketBuffer.WriteText | server/server_packets.c:114-123 | a string goes in as length byte and characters |
| Streams.PacketBuffer.WriteEndpoints | server/server_requests.c:307-316 | the loop writes every machine in order |
| SearchRules.CodeLifetime | server.c:586-597 | an entry goes at the first turn that alone reaches its timer |
| SearchRules.IntendedLifetime | server.c:180-190 | a counted-down entry lives exactly while the accumulated time is below its timer |
| SearchRules.LifetimeExact | server.c:180-190 | the code drops an entry in the same turn as documented if and only if the turn in which its time runs out is alone as long as its timer |
| SearchRules.UniqueTestsExact | server/server_requests.c:540-556 | the test as written and the documented one agree if and only if the log has the search from the same port and from another, or from neither; with one port per address the code never reports a duplicate |
| SearchRules.RelayedExact | server/server_requests.c:250-259 | the code relays exactly the requests with TTL left whose search the log has from another port of the address, where the comments want those whose search it does not have from that port |
| Sending.RecipientsExact | server/server_requests.c:330-340 | the packet goes to each chosen socket once, whatever the array held before, if and only if the chosen slots come before all others |
| Sending.AllHearExact | server/server_requests.c:330-340 | as long as unset memory never holds a socket in use, every neighbour is sure to get the answers if and only if no free slot comes before a taken one |
| SearchHandlers.ClientAnswerFitsExact | server/server_requests.c:614-617 | the packet to the client fits its allocation if and only if it lists somebody |
| SearchHandlers.RebuiltFits | server/server_requests.c:262-266 | an answer fits although a hit adds a machine that was not counted, and so does a relay without a hit |
| SearchHandlers.RelayedHitFitsExact | server/server_requests.c:262-266 | a relayed hit fits whatever the addresses are if and only if the file's name has at most 204 characters and one more for each machine listed |
| SearchHandlers.LocalSearchFits | server/server_requests.c:179-181 | either packet of a local search fits |
| SearchHandlers.Servent.HandleRemoteSearchRequest | server/server_requests.c:101-163 | the request on the socket is queued, the rest of the socket untouched |
| SearchHandlers.Servent.HandleRemoteSearchAnswer | server/server_requests.c:559-586 | the answer on the socket is passed to the client |
| SearchHandlers.Servent.SendSearchAnswerToClient | server/server_requests.c:611-649 | the client is sent exactly SMSG_INT_SEARCH; whether it fitted is recorded |
| SearchHandlers.Servent.CheckUnique | server/server_requests.c:540-556 | the walk over the log decides the duplicate test as written |
| SearchHandlers.Servent.BuildRebuilt | server/server_requests.c:261-328 | the bytes written field by field are those of the answer or of the relay with TTL - 1 and this machine added for a hit |
| SearchHandlers.Servent.Compact | server/server_requests.c:330-338 | the loop over the slots yields the recipients, unset elements included |
| SearchHandlers.Servent.AnswerRemoteSearchRequest | server/server_requests.c:241-344 | the source's own request goes to its client; any other is answered or relayed by the code's decision to exactly those recipients |
| SearchHandlers.Servent.BroadcastTo | server/server_packets.c:143-147 | each recipient is written once, in order |
| SearchHandlers.Servent.BroadcastAll | server/server_packets.c:134-140 | every neighbour is written once |
| SearchHandlers.Servent.AnswerLocalSearchRequest | server/server_requests.c:166-238 | the client is told at once, or every neighbour is asked with a full TTL |
| FloodLaws.TtlBounds | server/server_requests.c:291-305 | in every run each request has ttl + length at most 10 and each answer at most 11 machines |
| FloodLaws.ResultsSound | server/server_requests.c:297-328 | in every run each machine listed for a file, anywhere, is a node holding that file |
| FloodLaws.FlightsRoundTrip | server/server_requests.c:261-340 | in every run with short names each packet in flight is read back as itself |
| FloodLaws.FilesExact | server/server_requests.c:747-753 | after any run a node holds exactly the files it held at first and those it has downloaded in the run |
| FloodLaws.DownloadedIsFound | server/server_requests.c:171-177 | after a download anywhere in a run, the own client's search for that file is a hit that lists the node itself and asks nobody |
| FloodLaws.QueuesAreFifo | server.c:555-562 | after any run each queue is what was queued, in order of arrival, less as many from the front as were served |
| FloodLaws.IndexExact | client/client_search.c:58-84 | after any run a client lists exactly what it listed at first and what packets it has read listed |
| FloodTermination.MeasureNext | server/server_requests.c:241-344 | every protocol step lowers the weight of what is pending, a search raises it by a constant, nothing else changes it |
| FloodTermination.WorkIsBounded | server/server_requests.c:92-98 | the protocol steps of any run are at most its initial weight plus a constant per search |
| FloodTermination.FloodTerminates | server/server_requests.c:92-98 | without new searches no run has more protocol steps than the weight of its start |
| FloodTermination.WorkOnlyTerminates | server/server_requests.c:92-98 | a run of protocol steps only is no longer than the weight of its start |
| FloodConservation.DiscoveriesConserved | server/server_requests.c:241-344 | for every policy, in every run that sends on each list it handles, each discovery is in flight, queued or listed at the asker's address |
| FloodPolicies.CodeReachesOneHop | server/server_requests.c:250-275 | in every run of the code no request is ever relayed, each went from its asker to a neighbour, logs stay empty, and an answer lists its sender or nobody |
| FloodPolicies.CodeSeesOnlyNew | server/server_requests.c:540-556 | in every reachable state of the code both duplicate tests find every request new |
| FloodGraphs.ConservationExact | server/server_requests.c:253-259 | on given neighbour tables, every run of the documented flood from any files and askers keeps each discovery carried or listed in every state, if and only if every node that is asked and serves has a second neighbour |
| FloodGraphs.NoLeafExact | server/server_defines.h:5-8 | where neighbours know each other that means that no node has exactly one neighbour |
| FloodGraphs.EnoughNeighboursExact | server/server_defines.h:5-8 | a table has at least MIN_NEIGHBOURS different neighbours if and only if it has one and each has another beside it |
| FloodResults.QuietIndexesExact | server/server_requests.c:92-97 | on tables without leaves, as soon as a run of the documented flood is quiet the clients at the asker's address list exactly the machines found |
| FloodDuplicates.EntrySurvives | server.c:180-190 | a log entry outlives every run whose time stays below what it has left |
| FloodDuplicates.RelaysAreSpaced | server/request.h:61-73 | two relays of one search by one node lie at least one entry lifetime of its loop time apart |
| FloodDuplicates.RelaysBoundedByNodes | server/server_requests.c:41-47 | within one lifetime a search is relayed at most once per node |
| FloodCoverage.QuietCoverage | server/server_requests.c:253-275 | within one lifetime, a quiet network has taken each search to every neighbour of its asker and of every node it went through, unless ten other nodes passed it to all their neighbours and the TTL has run out |
| FloodCoverage.LoggedHoldersAreLive | server/server_requests.c:291-328 | on tables without leaves, in every state of every run each node that logged a search and holds the file is in flight, queued or listed for the asker |
| FloodCoverage.FloodFindsAll | server/server_requests.c:92-98 | on tables without leaves, with up to 12 nodes at addresses of their own, or 13 where neighbours know each other, a run within one lifetime that has fallen quiet leaves each asker with every reachable node that holds the file, and everybody listed is a holder |
| FloodReach.FourteenAreTooMany | server/server_requests.c:92-98 | 14 nodes that know each other, with everything else as before, and a run that falls quiet with a reachable holder unlisted |
| FloodProgress.IntendedStepExact | server.c:292-299 | the documented flood has a next step, with all the recipients the comments ask for, if and only if something is in flight or queued at a node with neighbours |
| FloodProgress.SearchesComeToRest | server.c:292-299 | where neighbours know each other, and however a run of the documented flood has gone so far, it can fall quiet without a new search if and only if no node without neighbours has anything queued |
| FloodProgress.WrittenStepExact | server.c:292-299 | the code has a next step, whatever unset memory holds, if and only if something is in flight or queued at a node with neighbours |
| FloodProgress.WrittenSearchesComeToRest | server.c:292-299 | where neighbours know each other, and however a run of the code has gone so far, it can fall quiet without a new search if and only if no node without neighbours has anything queued |
| FloodProgress.CutOffWaits | server.c:292-299 | a search asked at a node without neighbours keeps the network from ever falling quiet |
| FloodDelivery.ListedExact | server/server_requests.c:297-340 | after a quiet run of the code the clients at an address list a machine for a file if and only if some handler of the run found the file there and its recipients, or its own client, are at that address |
| FloodNeighbours.HearingExact | server/server_requests.c:330-340 | where neighbours know each other, in every quiet run of the code each asker lists all its neighbours that had the file, if and only if every neighbour's answer gets through whatever unset memory holds |
| FloodNeighbours.GaplessExact | server/server_requests.c:330-340 | that is the case if and only if no table has a free slot before a taken one, where neighbours know each other and unset memory holds no socket in use |
| FloodNeighbours.AnyMemoryHearsNobody | server/server_requests.c:151-158 | if unset memory may hold any socket in use, that is the case only where there are no neighbours at all |
| FloodNeighbours.OnlyNeighboursListed | server/server_requests.c:297-340 | whoever is listed at an address in a quiet run of the code holds the file and is, or has a neighbour, at that address |
| FloodNeighbours.AnswerGoesAstray | server/server_requests.c:330-340 | three nodes, one table with a gap, and a run of the code that ends quiet with the holder unlisted |
| FloodRefinement.HandlersSendTheFlights | server/server_requests.c:241-344 | the packets an event of the code puts in flight are, byte by byte and socket by socket, what the handler is proved to write to neighbours |
| FloodRefinement.ServeLocal | server/server_requests.c:166-238 | the handler of a local search, called on a servent in the node's state, writes to neighbours or to the client exactly what the event puts in flight |
| FloodRefinement.ServeRemote | server/server_requests.c:241-344 | the handler of a remote search, with whatever its unset memory holds, does the same |
| FloodRefinement.ServeOwn | server/server_requests.c:241-248 | a request back at its own address goes to the client and to nobody else |
| FloodRefinement.ReadersSeeTheFlights | server/server_requests.c:101-163 | what the reader decodes is what the network model delivers |
| ClientIndex.FileLookup.HasMachine | client/client_lookup.c:24-36 | the walk finds a machine exactly when it is listed |
| ClientIndex.Client.FindRecord | client/client_lookup.c:8-21 | the walk finds the first record of a file |
| ClientIndex.Client.HandleSearchAnswer | client/client_search.c:36-85 | the index after reading a packet is the old one with the answer absorbed |
| ClientIndex.AddMissingExact | client/client_search.c:76-79 | exactly the missing machines are appended and nothing is repeated |
| ClientIndex.AddsLast | client/client_search.c:72-83 | machines go in at the end, where the answer first lists them, unless the file or the answer listed them before |
| ClientIndex.AbsorbInOrder | client/client_search.c:58-84 | an answer leaves every other record as it is, keeps the machines in front of its file's record, and puts a new file's record last |
| ClientIndex.IndexIsUnion | client/client_search.c:45-84 | after any answers files are unique, known exactly when answered, and each set of machines is the union of the answers |
| ClientIndex.DuplicatesExact | client/client_search.c:76-83 | a file's list has no repetition if and only if its first answer had none |
| ClientIndex.AbsorbRefinesMerge | client/client_search.c:45-84 | one answer read by the client is one merge of the network model's index |
| Lists.List.PushBack | list.c:27-45 | the value is appended in a new last cell |
| Lists.List.PopAt | list.c:76-91 | the cell leaves the chain and is freed; the head moves only when the list becomes empty |
| Lists.List.Sweep | server.c:406-421 | each cell is handled once in order, the live chain is the stable filter, and the list is usable afterwards if and only if the first cell stays or none does |
| Lists.KeptInOrder | server.c:406-421 | the filter is stable: as many elements stay as verdicts say so, and each stands behind as many as were kept before it |
| Lists.List.Drain | server.c:555-562 | every request is handled once, first come first served, and the list ends empty and usable |
| ServerLoops.UpdateLogTimers | server.c:586-597 | the log afterwards is one tick of the log, and is usable if and only if the oldest entry stays or none does |
| Membership.AddExact | server/server_util.c:73-93 | the table stays consistent and stores the socket if and only if a slot is free |
| Membership.LeaveExact | server/server_join.c:292-297 | a departure frees exactly one slot |
| Membership.AbsorbExact | server/server_join.c:181-202 | the free slots go to the first acceptors in request order, and the count is right |
| Membership.AgreementExact | server/server_join.c:181-202 | the joiner holds every servent that said yes if and only if there was room for all of them |
| Membership.FirstRoundAgrees | server/server_join.c:103-144 | from an empty table a round stores every acceptor |
| Overlay.Overlay.AddNeighbour | server/server_util.c:73-93 | the loop stores the socket and port in the first free slot and keeps the count |
| Overlay.Overlay.HandleJoinRequest | server/server_join.c:226-267 | a rescue is refused only by a full table, "yes" is sent if and only if the joiner is then held |
| Overlay.Overlay.ComputeNeighbours | server/server_util.c:43-65 | one endpoint per neighbour is advertised, at most five |
| Overlay.Overlay.EnsureAbsent | server/server_join.c:270-289 | the walk tells whether some neighbour is that endpoint |
| Overlay.Overlay.Join | server/server_join.c:159-178 | an endpoint is dialled if and only if no neighbour is it; at most one new socket, to that endpoint, and one join with the given flag |
| Overlay.Overlay.JoinAdvertised | server/server_join.c:98-119 | the advertised endpoints not taken for one's own are remembered in order and exactly the strangers among them dialled, in bounds |
| Overlay.Overlay.AskEveryone | server/server_join.c:98-142 | the known endpoints are the advertised ones and, unless the list was full, the contact; exactly the strangers among them are dialled, at most five requests are under way, rescues exactly when nobody was advertised |
| Overlay.Overlay.HandleJoinResponses | server/server_join.c:181-202 | the table absorbs the replies in order |
| Overlay.Overlay.JoinRound | server/server_join.c:53-144 | one request for neighbours, one round of joins to the strangers known, the replies absorbed, neighbours still pairwise different endpoints |
| Overlay.Overlay.AskKnown | server/server_join.c:146-151 | the endpoints made known are crawled through in order, each from the table the one before has left, when levels are left |
| Overlay.Overlay.JoinNetworkThrough | server/server_join.c:53-156 | the table, the requests for neighbours and the result are those of a crawl: one round, and deeper crawls through everybody made known if and only if levels are left, the contact knew somebody and fewer than two neighbours are held; if nobody answers the table is unchanged; neighbours stay pairwise different endpoints in a tidy network, and every first-round acceptor of an empty table is kept |
| Overlay.Overlay.HandleLeave | server/server_join.c:292-330 | the slot is freed and its socket closed; with two neighbours left nothing else changes; with fewer the first that can still be heard is dialled, and if no dial is answered the table has lost that slot only; result 1 if and only if nobody is left |
| Overlay.Overlay.HandleNeighbours | server.c:461-475 | whatever the departures and repairs, the table stays consistent and who does not leave keeps his slot; turn by turn a leaver's socket is closed first and its slot freed, so all leavers' sockets are closed in slot order; if no dial of the call is answered exactly the leaving are gone, whether or not somebody was dialled; fewer turns are taken only when nobody is left, which the result tells |
| Crawls.CrawlBoundClosed | server/server_internal.h:73-83 | the request bound is the geometric sum of powers of five |
| Crawls.TopLevelCrawl | server/server_defines.h:17-20 | one join sends at most 3906 requests for neighbours |
| Crawls.CrawlIsBounded | server/server_internal.h:73-83 | no crawl asks more servents for their neighbours than the request bound of its levels |
| Crawls.CrawlExtends | server/server_join.c:53-156 | no crawl disturbs a neighbour |
| Crawls.StopExact | server/server_internal.h:81 | every crawl from a table stops as soon as there are two neighbours, if and only if no level is left or two neighbours are there to begin with |
| Crawls.DeeperExact | server/server_join.c:146-151 | after its round a crawl goes through everybody made known, in order, if and only if levels are left, the contact advertised somebody, and at most one neighbour is held; otherwise through nobody |
| JoinLaws.LonelyContactAccepts | packets_doc.h:76-77 | a contact that advertised nobody accepts the rescue it is asked for, unless five others have joined it in between |
| JoinLaws.DialsExact | server/server_join.c:103-178 | a round dials nobody twice if and only if no endpoint that is no neighbour is known twice |
| JoinLaws.NeighboursDifferExact | server/server_join.c:159-202 | whatever the replies, the neighbours stay different endpoints if and only if the endpoints awaited differ from each other and from the neighbours, as far as there is room for them |
| JoinLaws.AdvertisedDistinctExact | server/server_util.c:43-65 | after a round of joins nobody is advertised twice if and only if those who joined differ, by contact ports, from each other and from everybody advertised |
| JoinLaws.AcceptedDistinctExact | server/server_join.c:226-267 | the same after accepting a join |
| JoinLaws.TwiceAdvertisedTwiceJoined | server/server_join.c:103-119 | an endpoint advertised twice that is no neighbour is dialled twice, and with room for two can become a neighbour twice |
| Filters.WantedIsFilter | server/server_requests.c:330-338 | the sockets a packet is meant for are, in slot order, those in use that are not its source's |
| Filters.KnownIsFilter | server/server_join.c:98-134 | a round makes known the advertised endpoints that are not one's own, in order, and behind fewer than five the contact |
| Filters.DialsAreFilter | server/server_join.c:98-178 | a round dials the contact first and then, in order, the known endpoints that are no neighbours |
| Filters.RefusedIsFilter | server/server_join.c:181-202 | the connections given up are, in order, those to the servents that said no |
| Filters.AdvertisedIsFilter | server/server_util.c:43-65 | what is advertised is, in slot order, each taken slot's connection address with its contact port |
| Filters.LeaversAreFilter | server.c:461-475 | whose sockets are closed as leavers: the taken slots that leave, in slot order |
| Arguments.ClientArgv.Handle | main.c:285-327 | the client's loop computes its pass |
| Arguments.ServerArgv.Handle | main.c:330-397 | the servent's loop computes its pass |
| Arguments.ServerLaw | main.c:330-397 | in any accepted command line the contact is the checked address and the checked port, in that order, behind the last contact option the pass stops at; likewise the listening port and both redirections; each is unset exactly when its option is absent |
| Arguments.ServerFails | main.c:330-397 | a command line is accepted if and only if every option the pass stops at has all its operands, addresses and ports being valid |
| Arguments.ServerProblem | main.c:345-392 | a refusal names what is wrong with an option the pass stops at: a missing word, the address, or a port |
| Arguments.ClientLaw | main.c:285-327 | the same for the client's port and redirections |
| Arguments.ClientFails | main.c:285-327 | the client's pass accepts if and only if every option it stops at has its operand, the ports being valid |
| Arguments.SpellingsAre | main.c:74-97 | the spellings of the options |
| Arguments.PortsExact | util.c:113-122 | a number as it is written is a valid port if and only if it lies strictly between 1024 and 65536 |
| Arguments.PortIsNoOption | util.c:113-122 | no valid port is an option word |
| Arguments.PassesAgree | main.c:285-397 | for every accepted vector in step the client contacts the port its servent listens on |
| Arguments.MisreadParts | main.c:305-393 | each misread operand has a command line on which both passes succeed with different ports |
| Arguments.OperandExact | main.c:305-393 | a redirection's operand is safe in front of every rest in step if and only if neither pass misreads it |
| Transfer.ReadFile | server/server_requests.c:430-450 | the buffer holds the prefix read with room for a chunk; the result is the file unless sizes would wrap |
| Transfer.SendFile | server/server_requests.c:460-478 | the packet carries the whole file if and only if its length is an `int` |
| Transfer.SendDownloadError | server/server_requests.c:660-700 | the client is sent the code, the machine and the file |
| Transfer.HandleRemoteDownloadAnswer | server/server_requests.c:703-779 | a found file is stored and announced, a missing one is reported |
| Transfer.OverwrittenAt | server/server_requests.c:751-753 | the stored file is the new content and behind it the rest of a longer old file |
| Transfer.OutcomeIs | server/server_requests.c:755-779 | the client is told of success by code 3 and of a missing file by code 2 with the machine and the name |
| Transfer.Download | server/server_requests.c:734-753 | the stored file equals the sender's if and only if it was sendable and no longer file of that name was there |

## Left out

- Sockets, `poll`, `accept`, `getaddrinfo` and the process calls: a connection is a stream of bytes, connecting succeeds or not, and looking for a file is membership in a set.
- What a read leaves in a buffer when the stream ends inside a field: the handlers go on with undefined bytes, and the readers promise nothing for such a stream.
- The terminators missing from the machines of a search answer (`server/server_requests.c:576-582`): the strings are taken as if they were terminated.
- Memory: leaks, double frees and uninitialised fields, except the recipients' array, the stale list head and the sizes of search packets.
- `list_pop`, which nobody calls, and `list_clear`: they would add easy members.
- The rescue packets CMSG_NEIGHBOUR_RESCUE and SMSG_NEIGHBOUR_RESCUE: documented, not implemented.
- The handshake between client and servent, logging, console commands, stream redirection and signals: user interface.
- The request queue of `SearchHandlers.Servent` and the index of `ClientIndex.Client` are sequences; `Lists` models the linked list itself, and its cells' contents do not change.
- Builders of the packets not named above are modelled by `Wire.Encode` alone, without their cursors.
- Overlay.Overlay.JoinNetworkThrough: that neighbours are different endpoints is stated for tidy networks, where nobody is advertised twice in one list; `NeighboursDifferExact` says what each round needs in others. A servent that refused may be asked again in a deeper round. Addresses are compared as text.
- FloodGraphs.ConservationExact: the neighbour tables stay as they are during a run; joining and leaving are modelled by `Membership` and `Overlay`. The laws of `FloodLaws`, `FloodTermination` and `FloodConservation` hold for arbitrary recipients.
- FloodCoverage.FloodFindsAll: with more nodes the TTL may run out first, depending on the order of deliveries (`FourteenAreTooMany`); `QuietCoverage` says what holds there.
- Flood.Enabled: a packet is read by the node it was sent to even where the sender is not in that node's table; where neighbours know each other, as the existence results ask for, the sender always is.
- FloodNeighbours.HearingExact: a socket is named by the node at its other end, so no table holds a node twice.
- FloodConservation.DiscoveriesConserved: "the asker" is a node at the asker's address, because the code compares addresses and not ports.
- Arguments.PassesAgree: `check_ip` is a parameter of which only is used that no option word is an address.
- Transfer.ReadFile: a failing `read` is not modelled; the loop of the code would not end.
