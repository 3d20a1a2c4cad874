# Verified model of tinySSB

tinySSB replicates append-only logs of signed entries over narrow, lossy links and
merges what they say without a server. This project models its core in Dafny and
proves what it rests on:

- `EventGraph`, `Wave`, `Scuttlesort`, `Convergence`, `Persistence`: the timeline, an
  incremental topological sort. Events name their causes, may arrive before them, and
  are kept in one list that is repaired in place. The list, the ranks and the tips turn
  out to be a function of the set of events.
- `LogFormat`, `Frontier`, `FrontierFile`, `Writing`, `Replica`, `Replication`: the log
  of a feed, a byte string of entries, side chains and back pointers, with a frontier
  beside it; crashes and restarts; what replicas of one author have in common.
- `Filters`, `RoundRobin`, `Serving`, `Node`, `Network`, `Exchange`, `Chains`: the node that
  drives the replicas, its filter banks, its answers to requests, and runs of many nodes
  on a network that may do anything with packets; how one node catches up with another
  in entries and chunks.
- `KeySets`, `Reconciliation`, `Dialogue`, `GOset`, `GOsetStation`, `Gossip`: the
  grow-only set of feed keys and the claims by which nodes find out what they lack.
- `Varint`, `Utf8`, `Bipf`, `BipfCodec`, `BipfSeek`: the binary format of frontiers and
  requests. `Formats` states it, and the other formats, byte by byte.
- `Congruence`, `Edwards`, `EdwardsGroup`, `ScalarMult`: the arithmetic of the curve.
- `Crc`, `Kiss`, `Queues`: check sums, framing and ring buffers of the link layer.

Objects that the program updates in place are classes here (`Node`, `Timeline`,
`Replica`, `PubNode`, `GOset`, `GOsetClass`, `KissBuf`, `Face`, `RingBuffer`), and their
loops are loops. Each method is proved against a pure description of what it does, and
what the program is for is proved about that description.

Hash function and signature check are function-valued parameters (`LogFormat.Crypto`).
Nothing is assumed of the hash but its length; where different inputs must have
different hashes, that is a premise about the finitely many inputs concerned
(`Replication.NoCollision`, `Node.Apart`, `Node.StatesApart`). That the signature check
accepts only what the author has signed is a premise about each packet
(`Replication.Genuine`). Clocks, random numbers and packets from the air are parameters.

The model follows the code also where it does not do what one would expect of it:

- An event that names itself after some cause that is already known makes the wave of
  ranks run for ever, instead of ending in a cycle error (`Timeline.AddDiverges`,
  `Convergence.NamesItself`).
  `Timeline.Add` requires that an event does not do that
  (`EventGraph.SelfAfterKnown`, decidable from the arguments and what was added before);
  every other event that names itself is reported as a cycle.
- `crc_check` accepts some corrupted packets, although four consecutive bytes are no more
  than the check sum has: it is stored most significant byte first, so that content and
  check sum together are no code word. `Crc.CorruptionRejected` says exactly which
  packets these are, `Crc.CorruptionAccepted` gives one.
- `pow3` with exponent zero yields the base (`ScalarMult.Pow3Exact`, `Pow3Zero`).
- An advertisement of a Python node ends in an exception as soon as an answer to a claim
  would be a single key (`GOset.Advertise`).
- A claim of three keys whose upper end is the first key held here, and whose lower end
  is unknown, also leads to the middle key, and its lower end is not added
  (`GOset.KeysAfter`). The computed key is still one that the sender holds.
- Asked for chunk -1, a replica answers with the entry (`Replica.GetChunk`).

`dafny verify dfyconfig.toml` checks the whole project.

## Model

| member | source | states |
|---|---|---|
| Convergence.Converge | android/tremola4chrome/src/scuttlesort.js:3-287 | The same acyclic events, added in any two orders, are observed in the same order, with the same ranks and the same tips; what is observed is the timeline that the set of adds defines |
| EventGraph.TimelineUnique | android/tremola4chrome/src/scuttlesort.js:3-18 | Order, ranks and tips are a function of the set of adds: two lists that satisfy the definition of a timeline are equal |
| EventGraph.RankIsLongest | android/tremola4chrome/src/scuttlesort.js:219-261 | Ranks that rise along every edge and are no larger than some edge demands are exactly the lengths of longest chains of known causes |
| EventGraph.IncreasingIsAcyclic | android/tremola4chrome/src/scuttlesort.js:243-261 | Ranks that rise along every edge exist only without cycles |
| EventGraph.CausesPrecede | android/tremola4chrome/src/scuttlesort.js:174-217 | In a timeline every known cause stands before its effects |
| Formats.EventOrder | android/tremola4chrome/src/scuttlesort.js:276-287 | Rank comes first, then the name |
| Formats.LessMeans | android/tremola4chrome/src/scuttlesort.js:276-287 | Names are compared at the first place where they part |
| Scuttlesort.Timeline.Add | android/tremola4chrome/src/scuttlesort.js:34-55 | One `add` keeps the whole invariant; it reports a cycle exactly if the new event closes one, a duplicate name exactly if the name is known; the compressed notifications replay to the new list |
| Scuttlesort.Timeline.ValidIsTimeline | android/tremola4chrome/src/scuttlesort.js:140-217 | The invariant means: strictly sorted by (rank, name), rank = length of the longest chain of known causes, tips = events without known effects, no cycle |
| Scuttlesort.Timeline.AddNew | android/tremola4chrome/src/scuttlesort.js:140-217 | The node constructor: registration, insertion, anchoring, resolution of the effects that waited; a cycle is reported exactly if there is one |
| Scuttlesort.Timeline.Register | android/tremola4chrome/src/scuttlesort.js:155-172 | Known causes are linked in both directions and stop being tips; unknown ones are waited for, once each |
| Scuttlesort.Timeline.InsertAtAnchor | android/tremola4chrome/src/scuttlesort.js:174-182 | The new node goes in front of its latest known cause and stands too far to the left at most; `indx` stays the list position |
| Scuttlesort.Timeline.AnchorAll | android/tremola4chrome/src/scuttlesort.js:184-195 | After one edge for each known cause the list is sorted, and the new node ranks one above its highest cause; it fails exactly for an event that names itself |
| Scuttlesort.Timeline.ResolvePending | android/tremola4chrome/src/scuttlesort.js:197-211 | Every effect that waited gets its edges, the map of waiting effects loses the name; otherwise there is a cycle |
| Scuttlesort.Timeline.ResolveOne | android/tremola4chrome/src/scuttlesort.js:200-209 | One edge to the new cause keeps everything in place; failure means a cycle |
| Scuttlesort.Timeline.CycleFound | android/tremola4chrome/src/scuttlesort.js:254-255 | If the wave reaches the marked cause, the adds have a cycle |
| Scuttlesort.AddEdgeToThePast | android/tremola4chrome/src/scuttlesort.js:219-241 | A sorted list with one misplaced node is sorted again after the edge, ranks are settled, the mark on the cause is gone; failure means the effect reaches its cause |
| Scuttlesort.Node.Visit | android/tremola4chrome/src/scuttlesort.js:243-261 | The stack-driven wave terminates; it raises only nodes reachable from its start, to the least ranks above their causes, or finds that it reaches the cause |
| Scuttlesort.Node.Jump | android/tremola4chrome/src/scuttlesort.js:263-274 | The node moves to the position, those it passes move one to the left, and every `indx` is the list position again |
| Scuttlesort.Node.Rise | android/tremola4chrome/src/scuttlesort.js:276-287 | The node passes exactly the nodes with smaller keys to its right, if they are sorted |
| Scuttlesort.RiseLast | android/tremola4chrome/src/scuttlesort.js:234-240 | The last misplaced node rises and is misplaced no more; nodes to its left keep their places |
| Scuttlesort.RiseAll | android/tremola4chrome/src/scuttlesort.js:234-240 | Rising in order of descending positions leaves no misplaced node |
| Scuttlesort.Timeline.Notify | android/tremola4chrome/src/scuttlesort.js:40-55 | Merging commands preserves meaning: the calls made to the listener turn the old list into the new one |
| Scuttlesort.MergeCorrect | android/tremola4chrome/src/scuttlesort.js:46-49 | Replacing a command and the move that picks its event up again by one command gives the same list |
| Scuttlesort.Timeline.Insert | android/tremola4chrome/src/scuttlesort.js:20-24 | Insertion with its command |
| Scuttlesort.Timeline.Move | android/tremola4chrome/src/scuttlesort.js:26-32 | Move with its command |
| Wave.TurnKeeps | android/tremola4chrome/src/scuttlesort.js:243-261 | One turn of the wave keeps: debts of raised nodes are on the stack, no rank exceeds what an edge demands, the path on the stack is a path |
| Wave.Done | android/tremola4chrome/src/scuttlesort.js:243-261 | An empty stack means that ranks are settled |
| Wave.EdgeJoins | android/tremola4chrome/src/scuttlesort.js:219-241 | After a wave along a new edge the ranks of the larger graph are again exact |
| Wave.NewestJoins | android/tremola4chrome/src/scuttlesort.js:174-195 | A newest node, which has no effects but perhaps itself, ranks exactly if it is one above its highest cause |
| Scuttlesort.Timeline.GraftDiverges | android/tremola4chrome/src/scuttlesort.js:155-189 | For exactly the events that `Add` excludes: the first edge leads to a cause other than the event, and the wave along it never ends |
| Scuttlesort.Timeline.AddDiverges | android/tremola4chrome/src/scuttlesort.js:34-55 | So it is for every event that `Add` excludes, from any valid timeline |
| Convergence.NamesItself | android/tremola4chrome/src/scuttlesort.js:184-195 | The smallest such run: event a, and then event b that names a and itself |
| Wave.SelfLoopRunsForever | android/tremola4chrome/src/scuttlesort.js:243-261 | A node that is its own effect but not the marked cause is raised by one in every turn for ever: the wave does not end |
| Persistence.SaveAndLoad | android/tremola4chrome/src/scuttlesort.js:68-134 | Saved as JSON text, which drops the listener, and loaded again, a timeline is equivalent: same order, ranks, tips, references, pending effects and edges, each edge as often as before, and the invariant holds |
| Persistence.FromJSON | android/tremola4chrome/src/scuttlesort.js:80-134 | Data that is in causal order builds a valid timeline |
| Persistence.DataFaithful | android/tremola4chrome/src/scuttlesort.js:68-78 | The data of a valid timeline is in causal order, because causes precede effects, and says what was added |
| Persistence.ValidAgain | android/tremola4chrome/src/scuttlesort.js:80-134 | The built graph satisfies the whole invariant of a timeline |
| Persistence.AddNode | android/tremola4chrome/src/scuttlesort.js:84-105 | A node is built with the causes found so far, and joins their effects |
| Replica.Replica.IngestEntry | py/simplepub/simplepub/replica.py:91-121 | An entry is taken exactly if it is the next one, carries the prefix, is signed and has a length field that ends; then log, frontier and list of records grow by it; otherwise nothing changes |
| Replica.Replica.IngestChunk | py/simplepub/simplepub/replica.py:123-145 | A chunk is taken exactly if its hash is waited for; it goes to its place in the log and the chain moves on or closes |
| Frontier.RecordJoins | py/simplepub/simplepub/replica.py:107-120 | A record appended with its back pointer keeps log, frontier and hash chain consistent, and no earlier record moves |
| Frontier.EntryKeeps | py/simplepub/simplepub/replica.py:103-120 | The same for an entry with zero-filled room for its side chain |
| Frontier.ChunkKeeps | py/simplepub/simplepub/replica.py:123-145 | A chunk written in place keeps log and frontier consistent |
| Frontier.WindowIsFree | py/simplepub/simplepub/replica.py:123-145 | Whatever stands in the place of the next chunk, the rest of log and frontier still fit |
| LogFormat.RecordAt | py/simplepub/simplepub/replica.py:107-111 | In a log of records each stands at its start: entry, room, and a back pointer to the start |
| LogFormat.ChunkUpdate | py/simplepub/simplepub/replica.py:127-130 | Overwriting a chunk in the file is updating it in the list of records |
| Replica.Replica.FindRecord | py/simplepub/simplepub/replica.py:158-164 | Following back pointers from the end reaches the start of the wanted record |
| Replica.Replica.GetEntry | py/simplepub/simplepub/replica.py:155-168 | The seq-th entry that was ingested, for 1 <= seq <= max_seq, and nothing otherwise |
| Replica.Replica.GetChunk | py/simplepub/simplepub/replica.py:184-204 | A chunk exactly if it has arrived, and then the right one; chunk -1 is the entry |
| Replica.Replica.Read | py/simplepub/simplepub/replica.py:206-229 | The content that a record carries |
| Replica.Replica.ReadRecord | py/simplepub/simplepub/replica.py:217-229 | Content from an entry and the chunks after it |
| Replica.Replica.Write | py/simplepub/simplepub/replica.py:254-288 | The author appends exactly one record: an entry that its own replica would accept, and the complete side chain; it does so exactly if the length fits twenty bytes, sequence number and position fit four, and the signature has 64 bytes and is valid |
| Replica.Replica.BuildChain | py/simplepub/simplepub/replica.py:260-271 | Built from its end, the side chain is the content in pieces of 100 bytes, each with the hash of the next |
| Replica.Replica.Recover | py/simplepub/simplepub/replica.py:51-78 | Start-up brings log and frontier together: an entry that is wholly in the file is completed as if ingested, anything else beyond the frontier is cut off |
| Replica.Replica.RecoverOne | py/simplepub/simplepub/replica.py:52-78 | One round of start-up |
| Replica.Replica.constructor | py/simplepub/simplepub/replica.py:42-45 | A new replica is empty and expects the first entry |
| FrontierFile.PersistAndLoad | py/simplepub/simplepub/replica.py:80-86 | The frontier that is persisted is the one that is loaded |
| FrontierFile.Restart | py/simplepub/simplepub/replica.py:36-86 | A replica that is started again from its two files is the same replica, as long as its log has less than 2^63 bytes |
| FrontierFile.ValidHasInts | py/simplepub/simplepub/replica.py:80-86 | All numbers in the frontier of such a replica fit the binary format |
| FrontierFile.StandsForOne | py/simplepub/simplepub/replica.py:46-49 | A dictionary stands for one frontier only |
| Writing.CountsAgree | py/simplepub/simplepub/replica.py:103-106 | Author and receiver use the same number of chunks; the reader agrees as long as the length field fits the entry, and beyond that exactly if the excess does not open another chunk |
| Writing.ReadsBack | py/simplepub/simplepub/replica.py:206-229 | Reading a record made by an author gives the content, whatever its length |
| Writing.ChunksChained | py/simplepub/simplepub/replica.py:264-270 | Each chunk carries the hash of the next |
| Writing.EntryHeader | py/simplepub/simplepub/replica.py:257-279 | An entry carries its content length, the first hash and the chunk count of its side chain |
| Formats.EntryBytes | py/simplepub/simplepub/replica.py:256-279 | Where prefix, type, length, hash of the first chunk and signature stand in an entry |
| Formats.ChunkBytes | py/simplepub/simplepub/replica.py:264-268 | A chunk ends with the hash of the next, or with zeros |
| Formats.NamBytes | py/simplepub/simplepub/replica.py:273-275 | The bytes that are signed together with an entry |
| Formats.LogBytes | py/simplepub/simplepub/replica.py:280-285 | The bytes of a log of two records |
| Formats.FrontierNames | py/simplepub/simplepub/replica.py:80-86 | The names in the frontier file |
| Replication.WriteThenRead | py/simplepub/simplepub/replica.py:206-288 | What was written is read, whatever its length; nothing changes exactly if it cannot be written |
| Replication.TakePlain | py/simplepub/simplepub/replica.py:103-120 | An entry that is no head of a side chain is stored with a back pointer and nothing else; one of type 0 reads as its 48 bytes |
| Replication.RestartCompletesEntry | py/simplepub/simplepub/replica.py:51-78 | A crash in the ingestion of an entry, once its 120 bytes are in the file: after restart the state is that of a completed ingestion |
| Replication.RestartRepeatsChunk | py/simplepub/simplepub/replica.py:123-145 | A crash between the writing of a chunk and the replacement of the frontier: after restart and taking the chunk again the state is that without a crash |
| Replication.RestartDropsWrite | py/simplepub/simplepub/replica.py:59-63 | A restarted author gives up what stands beyond its frontier |
| Replication.AcceptedIsNext | py/simplepub/simplepub/replica.py:96-102 | If the signature check accepts only what the author signed, an accepted entry is the next one of the author |
| Replication.CompleteIsIdentical | py/simplepub/simplepub/replica.py:91-145 | Two replicas with the same entries and all chunks have byte-identical logs, if no two different chunks among them have the same hash |
| Replication.ArrivedAgree | py/simplepub/simplepub/replica.py:123-145 | Whatever has arrived at two replicas of the same entries is the same |
| Node.PubNode.constructor | py/simplepub/simplepub/node.py:21-62 | A starting node has exact filters for all its replicas, and listens to requests with the prefixes that go with its key set |
| Node.PubNode.Rx | py/simplepub/simplepub/node.py:125-141 | Whatever packet comes: replicas keep following their authors, filters stay exact, what the node listens to besides stays, exactly the replicas that accept the packet grow by one entry, requests are answered from what was there; unless its handler ends in an exception, a packet of 120 bytes reaches exactly the side chains that wait for its hash, and each of them has it as its next chunk |
| Node.PubNode.IncomingEntry | py/simplepub/simplepub/node.py:201-239 | An accepted entry moves the filter of its feed to the next one and arms its side chain |
| Node.PubNode.IncomingChunk | py/simplepub/simplepub/node.py:241-282 | A chunk moves the filter of its chain on; filters of other chains that wait for the same hash stay |
| Node.PubNode.DeliverChunk | py/simplepub/simplepub/node.py:135-139 | All side chains that wait for the hash of the packet get it, and no others move |
| Node.PubNode.Deliver | py/simplepub/simplepub/node.py:135-139 | The same, seen from the records: the next chunk of each chain that waited is the packet, one chunk more has arrived, and nothing else has changed |
| Node.PubNode.ActivateFeed | py/simplepub/simplepub/node.py:145-152 | A new feed is armed for its first entry |
| Node.PubNode.SetWantDmx | py/simplepub/simplepub/node.py:180-192 | Changing the prefixes of requests leaves all filters of feeds in place; afterwards the node listens to the new prefixes and to the old ones no more |
| Formats.PrefixBytes | py/simplepub/simplepub/node.py:177-192 | The bytes from which the prefixes are computed |
| Node.PubNode.GetGOsetAdv | py/simplepub/simplepub/node.py:122-123 | Advertising the key set sends what the key set has to say, brings its state up to date and, if that has changed, the prefixes of requests; filters stay exact |
| Node.PubNode.GetEntryAdv | py/simplepub/simplepub/node.py:69-98 | The request lists an offset and the next sequence numbers of the feeds from there on, until they take more than 100 bytes, and the offset rotates |
| Node.PubNode.IncomingGoset | py/simplepub/simplepub/node.py:35-37 | New keys make their feeds active |
| Node.PubNode.TakerIsArmed | py/simplepub/simplepub/node.py:125-133 | The prefix of every packet that some replica would accept is armed for it |
| Filters.EntryMoves | py/simplepub/simplepub/node.py:218-224 | Re-arming one feed keeps: one filter per feed, for its next entry, and no other |
| Filters.ChainMoves | py/simplepub/simplepub/node.py:261-266 | Re-arming one chain keeps the bijection of chunk filters and pending chains |
| Filters.ChainOpens | py/simplepub/simplepub/node.py:226-231 | So does a new chain |
| Serving.IncomingWantMsg | py/simplepub/simplepub/node.py:284-327 | The answer goes round the feeds asked for, to each its next entry as long as that is held, in this order and no other, three in all |
| Serving.IncomingChnkMsg | py/simplepub/simplepub/node.py:329-365 | The answer goes round the chains asked for, of each its next chunk as long as that has arrived, in this order and no other, three in all; an exception ends the handling exactly if some request has not three parts or its first part is not the place of a feed |
| RoundRobin.ServedOnce | py/simplepub/simplepub/node.py:294-316 | Going round determines the answer: no two lists satisfy its description |
| RoundRobin.OnePlace | py/simplepub/simplepub/node.py:340-356 | If one chain or feed is asked for, it is served from where the request says, without a gap |
| Network.Run | py/simplepub/simplepub/node.py:125-282 | In every run, with any packet delivered anywhere in any order and nodes advertising keys and asking for entries at any time, every replica holds a prefix of what its author had written by then, all filter banks are exact, and nodes listen to requests under exactly the prefixes that go with the state of their key set |
| Network.Comparable | py/simplepub/simplepub/node.py:201-239 | Any two replicas of a feed are prefix-comparable |
| Network.HearOfFeed | py/simplepub/simplepub/goset.py:75-80 | A node that hears of a feed for the first time has a replica for it |
| Chains.HearChain | py/simplepub/simplepub/node.py:241-282 | A node that hears chunks of a side chain in order has them, in their places, and that many more |
| Chains.HearAndGive | py/simplepub/simplepub/replica.py:123-204 | and gives each of them to whoever asks |
| Chains.HearContent | py/simplepub/simplepub/replica.py:91-145 | A node that has an entry of an author and hears the chunks made with it reads the content, whatever its length |
| Chains.ChainAnswered | py/simplepub/simplepub/node.py:329-365 | The answer to a request for one chain is its next chunks, three if there are as many, in order |
| Chains.ChunkExchange | py/simplepub/simplepub/node.py:329-365 | One request for a chain and its answer: the asking node has those chunks more |
| Chains.FetchChain | py/simplepub/simplepub/node.py:329-365 | After as many exchanges as the other node has threes of chunks more, the asking node has all of these |
| Exchange.Exchange | py/simplepub/simplepub/node.py:69-98 | One request, its answer, and the reception of the answer: no node loses anything, and of the feed asked for first the asking node has more than before, unless it has all that the other has; everything is ready for the next request |
| Exchange.CatchUp | py/simplepub/simplepub/node.py:69-98 | After as many exchanges as there are feeds, times the most entries that are lacking of one, the asking node has every entry that the answering one had |
| Exchange.Synchronize | py/simplepub/simplepub/node.py:69-123 | The same for any two nodes with the same keys that advertise them first |
| Exchange.AskAndAnswer | py/simplepub/simplepub/node.py:284-327 | If the answering node is ahead in the feed asked for first, the answer begins with the entry that is lacking |
| Exchange.TakesNext | py/simplepub/simplepub/replica.py:91-121 | A replica that follows its author takes the next entry of the author |
| Reconciliation.HelpMakesProgress | esp32/loramesh-TBeam/goset.cpp:280-301 | An honest claim that differs and covers no more keys than are held here: its sender lacks an inner key, and some help message is that key, or has an end the sender lacks, or is a claim of strictly smaller span about it |
| Reconciliation.HelpCovers | esp32/loramesh-TBeam/goset.cpp:280-297 | Help messages speak of each inner key exactly once and of no other key |
| Reconciliation.HelpIsHonest | esp32/loramesh-TBeam/goset.cpp:280-297 | Help is true, and its claims have strictly smaller spans |
| Reconciliation.RoundHelps | esp32/loramesh-TBeam/goset.cpp:248-301 | The first claim of a round that calls for help gets it |
| Reconciliation.RoundIsHonest | esp32/loramesh-TBeam/goset.cpp:248-301 | A round sends only true messages |
| Reconciliation.RoundAt | esp32/loramesh-TBeam/goset.cpp:246-306 | Each claim of a round is asked about and helped as long as those before it leave credit, and kept if it describes more than is held or gets no help |
| Reconciliation.RoundKeeps | esp32/loramesh-TBeam/goset.cpp:246-306 | How many claims a round keeps |
| Dialogue.StationsReconcile | esp32/loramesh-TBeam/goset.cpp:232-301 | Two stations with different keys, barring accidents of the fingerprint: a claim over all keys brings its receiver a key, or the answer to it starts an exchange of claims that ends in a key for one of them, after at most as many messages as they have keys together |
| Dialogue.Reconciled | esp32/loramesh-TBeam/goset.cpp:246-301 | So does every claim about a range that differs between its ends |
| Dialogue.Helps | esp32/loramesh-TBeam/goset.cpp:280-301 | and every help for such a range |
| Dialogue.TalkEnds | esp32/loramesh-TBeam/goset.cpp:157-193 | The last message of such an exchange brings its receiver a key |
| Dialogue.NodeLearns | py/simplepub/simplepub/goset.py:68-113 | A node that hears what brings it a key holds more keys than before |
| Dialogue.StationLearns | esp32/loramesh-TBeam/goset.cpp:157-193 | So does a station |
| Reconciliation.WireRoundTrip | py/simplepub/simplepub/goset.py:232-250 | A message is recognised from its bytes |
| Formats.MessageBytes | py/simplepub/simplepub/goset.py:232-250 | The bytes of messages about keys |
| KeySets.ClaimantLacks | esp32/loramesh-TBeam/goset.cpp:248-279 | Between the same two keys, a different fingerprint over at least as many keys means an inner key that the other lacks |
| KeySets.MiddleIsHeld | py/simplepub/simplepub/goset.py:92-101 | The key computed from a claim over three keys is the one in the middle, strictly between both ends |
| KeySets.SortedUnique | py/simplepub/simplepub/goset.py:195-203 | A set has one sorted list |
| GOset.GOset.IncomingGosetMsg | py/simplepub/simplepub/goset.py:68-113 | A message brings its receiver the key of a novelty, both ends of a claim, or the key that any sender of a claim over three keys between neighbours has in the middle; nothing that nobody had comes in, nothing is lost, exactly the new keys are activated, and other claims wait to be answered |
| GOset.GOset.AddKey | py/simplepub/simplepub/goset.py:195-203 | Zero, known and surplus keys are ignored; otherwise the sorted list grows by the key |
| GOset.GOset.XorRange | py/simplepub/simplepub/goset.py:253-260 | The fingerprint of a range |
| GOset.GOset.Advertise | py/simplepub/simplepub/goset.py:116-178 | A node sends the true claim over all its keys, and the answers to the claims that wait, smallest first; it ends in an exception exactly if the keys are too many for a byte, an answer would be a single key, or fifteen claims are left |
| GOset.GOset.AnswerClaims | py/simplepub/simplepub/goset.py:131-173 | The loop over pending claims is one round, up to the first answer that would be a single key |
| GOsetStation.GOsetClass.Add | esp32/loramesh-TBeam/goset.cpp:107-138 | The same on the fixed table, sorted in place; news is passed on if no larger set has been heard of |
| GOsetStation.GOsetClass.Rx | esp32/loramesh-TBeam/goset.cpp:157-193 | The same, but for the middle key; what is news is passed on, or waits, or is dropped, exactly as credit, room and larger sets allow |
| GOsetStation.ToldMeans | esp32/loramesh-TBeam/goset.cpp:121-131 | News of a new key is sent or waits, unless a larger set is known or ten keys wait; keys that were known are no news |
| GOsetStation.NewsMeans | esp32/loramesh-TBeam/goset.cpp:232-236 | News that waits is sent in order, as far as the credit goes |
| GOsetStation.GOsetClass.Tick | esp32/loramesh-TBeam/goset.cpp:222-312 | One round: news, the claim over all keys, and the answers to pending claims, smallest first; what is kept is what the round leaves, five at most |
| GOsetStation.GOsetClass.AnswerClaims | esp32/loramesh-TBeam/goset.cpp:246-306 | The loop over pending claims, in place, is one round |
| GOsetStation.GOsetClass.AnswerOne | esp32/loramesh-TBeam/goset.cpp:247-302 | One pending claim: dropped, asked about, or helped |
| GOsetStation.GOsetClass.Help | esp32/loramesh-TBeam/goset.cpp:280-297 | Help for the keys between two others |
| GOsetStation.GOsetClass.AddPending | esp32/loramesh-TBeam/goset.cpp:84-94 | A claim is kept unless it is there already or there is no room |
| GOsetStation.GOsetClass.SortClaims | esp32/loramesh-TBeam/goset.cpp:242-243 | Pending claims by span |
| Gossip.Run | py/simplepub/simplepub/goset.py:68-113 | No run of honest nodes and stations, with loss, repetition and reordering, invents a key or loses one |
| Bipf.RoundTrip | py/simplepub/simplepub/bipf.py:241-256 | At any offset and with anything after it, an encoded value decodes to itself and its exact length |
| Bipf.LengthAgrees | py/simplepub/simplepub/bipf.py:259-264 | The computed length is the number of bytes written |
| Bipf.PrefixFree | py/simplepub/simplepub/bipf.py:241-256 | No encoding is a proper prefix of another, and encodings are unique |
| Bipf.IntRoundTrip | py/simplepub/simplepub/bipf.py:99-102 | Little-endian two's complement gives the integer back |
| Bipf.IntLengthMinimal | py/simplepub/simplepub/bipf.py:65-67 | The encoder takes the fewest bytes that hold the integer |
| BipfCodec.Encode | py/simplepub/simplepub/bipf.py:241-249 | The encoder writes the encoding at the position and touches nothing else |
| BipfCodec.EncodeEntries | py/simplepub/simplepub/bipf.py:88-93 | So do its loops over dictionaries |
| BipfCodec.EncodeItems | py/simplepub/simplepub/bipf.py:104-108 | and lists |
| BipfCodec.Decode | py/simplepub/simplepub/bipf.py:251-257 | The decoder computes the decoding, and fails where it is undefined |
| BipfCodec.DecodeInt | py/simplepub/simplepub/bipf.py:136-142 | The loop over the bytes of an integer |
| BipfCodec.DecodeItems | py/simplepub/simplepub/bipf.py:144-154 | The loop over list items |
| BipfCodec.DecodeEntries | py/simplepub/simplepub/bipf.py:156-172 | The loop over dictionary entries; a repeated key keeps its place and takes the new value |
| Bipf.StoreMeans | py/simplepub/simplepub/bipf.py:156-172 | Storing an entry in a dictionary changes the value of a known key in its place, or adds the entry at the end |
| Bipf.MergedMeans | py/simplepub/simplepub/bipf.py:156-172 | A decoded dictionary has each key once, with the value that came last |
| Utf8.TextIsUtf8 | py/simplepub/simplepub/bipf.py:180-182 | Text in any script decodes |
| Utf8.Utf8IsText | py/simplepub/simplepub/bipf.py:180-182 | and nothing else does |
| Formats.AtomBytes | py/simplepub/simplepub/bipf.py:33-42 | The type codes, as bytes of encoded values |
| Formats.IntBytes | py/simplepub/simplepub/bipf.py:95-102 | The bytes of short encoded integers |
| Formats.WideIntBytes | py/simplepub/simplepub/bipf.py:95-102 | and of longer ones |
| Formats.ContainerBytes | py/simplepub/simplepub/bipf.py:88-108 | The bytes of an encoded list and dictionary |
| BipfCodec.Dumps | py/simplepub/simplepub/bipf.py:233-236 | A buffer of the computed length is filled exactly |
| BipfCodec.DumpAndLoad | py/simplepub/simplepub/bipf.py:233-239 | `loads` after `dumps` is the identity |
| BipfSeek.PathFound | py/simplepub/simplepub/bipf.py:367-375 | Navigation in place agrees with decoding: -1 exactly if the path leads nowhere, otherwise an offset at which the value decodes |
| BipfSeek.SeekKey | py/simplepub/simplepub/bipf.py:339-365 | The walk over the entries of a dictionary |
| BipfSeek.SeekPath | py/simplepub/simplepub/bipf.py:367-375 | The walk along a path |
| BipfSeek.PartsFound | py/simplepub/simplepub/bipf.py:274-304 | Enumerating an encoded list or dictionary yields the encodings of its parts, in order |
| BipfSeek.Generate | py/simplepub/simplepub/bipf.py:274-304 | The loops of the generator |
| Varint.RoundTrip | py/simplepub/simplepub/bipf.py:187-198 | A number decodes to itself and its length, at any offset |
| Varint.LengthAgrees | py/simplepub/simplepub/bipf.py:212-213 | The length computed from the bit length is the number of bytes written |
| Varint.Decode | py/simplepub/simplepub/bipf.py:187-198 | The decoding loop |
| Varint.Encode | py/simplepub/simplepub/bipf.py:215-224 | The encoding loop |
| Varint.EncodeToBytes | py/simplepub/simplepub/bipf.py:226-229 | The encoding, if twenty bytes hold it |
| Formats.VarintBytes | py/simplepub/simplepub/bipf.py:215-224 | The bytes of encoded numbers |
| EdwardsGroup.AddOnCurve | py/simplepub/pure25519/basic.py:89-106 | The unified sum of two points of the curve is on the curve |
| EdwardsGroup.DoubleSame | py/simplepub/pure25519/basic.py:71-87 | Doubling is the same point as unified self-addition, and stays on the curve |
| Edwards.DoubleIsSelfAddition | py/simplepub/pure25519/basic.py:71-106 | Self-addition has the coordinates of the double times -4 |
| Edwards.NonUnifiedAgrees | py/simplepub/pure25519/basic.py:139-157 | The fast sum equals the unified one, cross-multiplied, in all coordinates |
| EdwardsGroup.AddSame | py/simplepub/pure25519/basic.py:89-106 | Sums do not depend on the scale of extended coordinates |
| EdwardsGroup.AddCommutes | py/simplepub/pure25519/basic.py:89-106 | Addition commutes |
| EdwardsGroup.ZeroIsNeutral | py/simplepub/pure25519/basic.py:345-346 | The neutral element |
| EdwardsGroup.AffineOnCurve | py/simplepub/pure25519/basic.py:63-65 | A pair satisfies the affine equation exactly if its extended form is on the curve |
| EdwardsGroup.BaseOnCurve | py/simplepub/pure25519/basic.py:17-61 | The base point is on the curve of Ed25519, and the constants are what the comments say |
| ScalarMult.ScalarMultElement | py/simplepub/pure25519/basic.py:120-137 | The loops over a table of 256 bits compute double-and-add, for numbers below 2^256, and raise an exception for all others |
| ScalarMult.LadderIsMultiple | py/simplepub/pure25519/basic.py:108-137 | Double-and-add stays on the curve and is the multiple by unified sums alone |
| ScalarMult.FastLadderIsMultiple | py/simplepub/pure25519/basic.py:172-189 | So is double-and-add with the fast sum, if no denominator vanishes on the way |
| ScalarMult.Pow3 | py/simplepub/pure25519/basic.py:21-28 | Square and multiply gives the power; a zero exponent gives the base |
| ScalarMult.Pow3Exact | py/simplepub/pure25519/basic.py:21-28 | The result is the power exactly if the exponent is positive or the base leaves the same remainder as one |
| ScalarMult.Pow3Zero | py/simplepub/pure25519/basic.py:21-28 | The zeroth power of 2 modulo 5 comes out as 2 |
| ScalarMult.Mod | py/simplepub/pure25519/basic.py:33-38 | Reduction byte by byte is the remainder for numbers of up to 64 bytes, and an exception for others |
| Crc.BurstDetected | esp32/loramesh-TBeam/io.cpp:45-53 | Packets of any length that differ within four consecutive bytes and nowhere else have different check sums |
| Crc.CorruptionRejected | esp32/loramesh-TBeam/io.cpp:349-353 | A packet that differs from an accepted one within four consecutive bytes, wherever they lie, is accepted exactly if it is the same, or if these bytes are the last two of the content and the first two of the check sum and differ by 61 d8 and f4 ee |
| Crc.CorruptionAccepted | esp32/loramesh-TBeam/io.cpp:349-353 | A packet, and a corruption of it, that are both accepted |
| Crc.SealsDiffer | esp32/loramesh-TBeam/io.cpp:45-53 | A change of the last one, two or three bytes of the content shows in as many last bytes of the check sum, but for that one change of two bytes |
| Crc.Crc32Ieee | esp32/loramesh-TBeam/io.cpp:45-53 | The loops compute the CRC |
| Crc.CrcCheck | esp32/loramesh-TBeam/io.cpp:349-353 | Zero exactly if the packet ends with its check sum |
| Kiss.WriteThenRead | esp32/loramesh-TBeam/kiss.h:21-59 | The frame written is the frame read, for packets of 1 to 256 bytes, from any prior state of the reader and whatever is still on the line: after one read for each end mark there, and one for the opening mark, comes the packet |
| Kiss.KissWrite | esp32/loramesh-TBeam/kiss.h:21-32 | The frame is the stuffed packet between two end marks |
| Kiss.KissBuf.KissRead | esp32/loramesh-TBeam/kiss.h:34-59 | Reading stops behind the first end mark with what was gathered, or keeps it for later |
| Kiss.StuffedFed | esp32/loramesh-TBeam/kiss.h:21-59 | A stuffed packet holds no end mark and feeds the reader the packet |
| Formats.FrameBytes | esp32/loramesh-TBeam/kiss.h:16-32 | The bytes of a frame |
| Queues.Face.Enqueue | esp32/loramesh-TBeam/io.cpp:294-327 | A packet is appended unless there is no room or it waits already; the queue stays free of duplicates |
| Queues.Face.Dequeue | esp32/loramesh-TBeam/io.cpp:331-347 | The oldest packet leaves when its time has come; the next one may leave after the delay and less than a tenth more |
| Queues.IoEnqueue | esp32/loramesh-TBeam/io.cpp:290-329 | The same for one face or all, with the prefix; when packets leave stays as it was |
| Queues.EnqueueAndSend | esp32/loramesh-TBeam/io.cpp:290-347 | What is enqueued on an idle face leaves it with its prefix in front, or bare if it has none |
| Queues.RingBuffer.FishForNewLoRaPkt | esp32/loramesh-TBeam/io.cpp:392-418 | Received packets are appended, cut to 127 bytes, while there is room; the rest is lost |
| Queues.RingBuffer.LoraGetPkt | esp32/loramesh-TBeam/io.cpp:420-432 | The oldest packet leaves |
| Queues.HearAndGet | esp32/loramesh-TBeam/io.cpp:392-432 | Packets heard while the buffer is empty are handed on in order, cut to 127 bytes, the first four of them |

## Left out

- Scuttlesort.Timeline.Add: excludes events that name themselves after a known cause, for which the program does not end; and what is left of a timeline after a cycle error, which the program itself marks as unfinished, is not described.
- Scuttlesort.Timeline.Register: names that JavaScript objects inherit, such as `toString` or `__proto__`, count as unknown names here, where the program would find a function.
- Scuttlesort.Timeline.ResolveEffect: the program compares names with references that are objects already, which JavaScript turns into the text `[object Object]`; an event of that name is treated like any other here.
- Scuttlesort.Timeline.Notify: the merged commands change the recorded ones in place in the program; here the record stays.
- Persistence.SaveAndLoad: JSON text is modelled by what it does to the data, leaving out the listener; the order in which a node lists its effects may differ after loading.
- Replica.Replica.RecoverOne: torn entries of less than 120 bytes are not modelled; the program goes on with the short packet.
- Replica.Replica.Read: for length fields of more than 28 bytes, which no author writes, the result is left open.
- Replica.Replica.Write: `write48` is not modelled; it stores an absolute position and breaks the log after the first entry.
- Replica.Replica.IngestEntry: exceptions, for packets of another length, length fields that do not end and logs beyond 4 GB, are one outcome without detail.
- Node.PubNode.Rx: nodes that only send do not keep exact filters and are excluded; time measurement is left out.
- Node.PubNode.constructor: the search for feed directories, and the start of each replica from its files (`FrontierFile.Restart`), are a parameter.
- Serving.IncomingChnkMsg: requests with negative chunk numbers are answered with other parts of the log, and those with floating-point sequence numbers as if these were whole numbers; nothing is said of either.
- Serving.IncomingWantMsg: nothing is said of what is sent for requests with floating-point sequence numbers, but for its amount.
- Exchange.CatchUp: answers are delivered in order and without loss.
- Chains.FetchChain: asks for one chain at a time, whose chunks do not start like packets that the node listens to, and which has less than 2^63 chunks.
- Node.PubNode.GetEntryAdv: the requests for chunks (`get_chain_adv`), which change nothing in the node, are not modelled.
- Network.Run: authors' logs are given as they grow; the nodes are not the authors.
- GOset.GOset.IncomingGosetMsg: the list of pending claims belongs to the object, where the program shares the initial one between all objects of the class.
- GOsetStation.GOsetClass.Tick: zap messages and timers are left out; a table place beyond the last key counts as zeros even if the table is full.
- GOsetStation.GOsetClass.AnswerOne: the program makes its own claim before it looks whether both ends are known here, and reads outside the table if they are not; here the claim is made afterwards.
- Reconciliation.HelpMakesProgress, and Dialogue.StationsReconcile: say nothing where different ranges have the same fingerprint by accident. Of the stations in `Dialogue` each answers one claim in a round, and their sets do not change in between.
- Bipf.RoundTrip: strings are ASCII, integers have 64 bits and doubles are eight opaque bytes, as in what the encoder accepts; dictionary keys that Python takes as equal across types, such as 1 and True, count as different.
- Edwards.NonUnifiedAgrees: cross-multiplied; where a denominator vanishes it says nothing about the point.
- EdwardsGroup.AddSame: associativity, the order of the group and point decompression are left out, as are inverses by Fermat's little theorem.
- ScalarMult.FastLadderIsMultiple: that denominators do not vanish is a premise about each step, since it needs the order of the group.
- Queues.Face.Enqueue: packets have less than 256 bytes, as the length byte demands.
- SHA-256, Ed25519 signing and opening, BLE, LoRa, UDP and serial drivers, the browser front end, the C++ and Kotlin twins of replica and encoder: not modelled.
- The replacement of the frontier file is atomic; crashes inside it, and between the creation of the two files of a new replica, are not modelled. `get_content_len` is not modelled.
