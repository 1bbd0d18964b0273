# Verification of the P2P chat protocol

A Dafny model of a peer-to-peer chat program: its wire format, the way a byte stream is
cut into messages, the session machine of the coroutine network manager, the handshake
between ZeroMQ nodes, the peer table and its file, the locks, and the display queue.

- `Bytes`, `Codec`: big-endian fields, messages, handshake and peer-list payloads.
- `Framing`: what the read loop of a session delivers, for every byte stream.
- `Sessions`: sessions, registry, peer table and user handler as one machine; a run is any
  interleaving of handler calls and API calls over any number of sessions.
  `SessionObjects`: the classes that take those steps.
- `Nodes`: one node of the dealer/router network, as functions and as a class.
  `Protocol`: any number of nodes over links that may lose, delay and reorder; safety.
  `Termination`: how many handshakes a dial causes. `Quiescence`: lossless runs.
  `Chats`: what the users are given.
- `Numerals`, `PeerStore`: number printing and parsing, the peer manager and its file.
- `Locks`: which thread may wait for which. `Display`: the display queue.

How the model is set up:

- A `std::string` is the sequence of its bytes. Integers are mathematical; every width,
  wrap-around and truncation of the source is written out.
- Undefined behaviour is an outcome of its own (`Undefined`, `Overflow`). There are two
  cases: a declared payload of at least 2^32 - 13 bytes defeats the 32-bit guard, and a
  time outside the clock overflows a signed integer. The clock counts nanoseconds.
- The walk order of an unordered map is a parameter `order`; times, remote endpoints and
  the unset port of a peer learned over the router are inputs.
- The user handler is installed, and the connection handler is the one that the command
  line installs.
- Interleavings are step functions on values, because a Dafny method is atomic. Where the
  source has objects, classes are proved to take exactly those steps.
- Message types follow the enumeration in `Include/Message.hpp:11-19`; the table in
  `Readme.md:140-145` has other numbers.
- In `Protocol`, the body of `SendToPeer` runs within its caller's critical section. What
  the second lock does as written is the subject of `Locks`.

Results that differ from what one might expect:

- A message survives exactly when its payload is under 2^32 bytes, an id exactly when it is
  under 65536 bytes, a peer list exactly when its counts fit 16 bits.
- A peer dialled at an address with an unreadable key (an address that starts with "::",
  say) never enters the dialling node's table: `UnreadableDialIsOneSided`.
- Handshakes die out exactly when no listening node has its own readable "address:port" as
  its id. Generated ids have no colon, so they do; with such an id one dial can cause any
  number of handshakes.
- Dealers are never found under a peer id, so disconnecting a peer by its id does nothing.
- A session that sends an empty id, and later a second handshake with a non-empty one, is
  registered under both and then gets two copies of every broadcast. An accepted session is
  answered each time it sends an empty id; without empty ids, every session is sent at most
  one handshake, except those the user sends.
- As written, connecting to a peer, or broadcasting with a dealer open, never returns.
- `Stop` is missed by the display thread exactly when its notify falls between the thread's
  test and its sleep; a push is never missed. `HandleQuit` notifies nobody after it clears
  `running`, so it is also missed by a thread that already sleeps.
- A saved peer without a key is skipped by the loader, but a bar or newline in its id or
  address can still bring in a peer that the table never held: `StowawayComesBack`.
  `SaveLoadExactly` says when a table comes back.

## Model

| member | source | states |
|---|---|---|
| Bytes.ShiftAndMask | Source/Message.cpp:24-26 | each byte of a big-endian field is the shifted and masked value, for negative numbers too |
| Codec.Millis | Source/Message.cpp:22-23 | milliseconds truncate toward zero, for times before and after the epoch |
| Codec.Serialize | Source/Message.cpp:10-31 | the pushes build exactly the encoding the laws below are about |
| Codec.Deserialize | Source/Message.cpp:33-60 | the shifts and checks compute exactly the decoder the laws below are about |
| Codec.DecodeEncode | Source/Message.cpp:10-60 | what comes back of any message, whatever follows it: same type, payload cut modulo 2^32, time cut to the millisecond |
| Codec.RoundTrip | Source/Message.cpp:10-60 | decoding undoes encoding if and only if the payload is under 2^32 bytes |
| Codec.DecodeIsExact | Source/Message.cpp:33-60 | whatever decodes re-encodes to precisely the first 13 + size bytes |
| Codec.DecodeFailures | Source/Message.cpp:34-48 | when it throws, which error, and when it is undefined, each if and only if; the guard is exact up to 2^32 - 14 declared bytes |
| Codec.PrefixFree | Source/Message.cpp:10-31 | one encoding is a prefix of another only if they are equal |
| Codec.OversizeIsAmbiguous | Source/Message.cpp:16-20 | every message past the bound has a shorter one whose encoding is a proper prefix of its own |
| Codec.CreateHandshakeMessage | Source/Message.cpp:67-80 | the pushes build the handshake payload |
| Codec.ParseBuild | Source/Message.cpp:67-80 | what parsing makes of a built payload, for ids of any length |
| Codec.HandshakeRoundTrip | Source/Message.cpp:67-80 | parsing undoes building if and only if the id is under 65536 bytes |
| Codec.HandshakeRebuild | Source/Network.cpp:305-310 | every accepted payload is rebuilt byte for byte from what was parsed |
| Codec.CreatePeerListMessage | Source/Message.cpp:82-99 | the loop builds the count and the length-prefixed strings |
| Codec.PeerListRoundTrip | Source/Message.cpp:82-99 | a decoder for the stated format gives the list back if and only if every count fits 16 bits |
| Codec.PeerListInjective | Source/Message.cpp:82-99 | lists within the bounds have different payloads |
| Codec.PeerListCollision | Source/Message.cpp:86-94 | 65537 empty strings and one string of 131072 zero bytes have the same payload |
| Codec.MillisValue | Source/Message.cpp:22-23 | a million clock ticks to the millisecond, toward zero |
| Codec.WireLayout | Source/Message.cpp:10-31 | every byte of every message: type at 0, size at 1 to 4, milliseconds at 5 to 12, payload from 13, high byte first |
| Codec.HandshakeLayout | Source/Message.cpp:67-80 | a handshake has type 1, and its payload is two length bytes, the id and the key |
| Codec.PeerListLayout | Source/Message.cpp:82-99 | a peer list has type 2, and its payload is the count and each string behind its length |
| Numerals.DecimalRoundTrip | Source/PeerManager.cpp:108 | stoul and stoi read back a printed port |
| Numerals.HexRoundTrip | Source/PeerManager.cpp:80-83 | stoul in base 16 reads back two printed hex digits |
| Numerals.DecimalForm | Source/Network.cpp:112 | printed ports have no leading zero and the last digit last |
| Numerals.DigitTable | Source/PeerManager.cpp:115 | which characters are digits in base 10 and 16, and their values |
| Numerals.ReadingOf | Source/PeerManager.cpp:108-115 | what stoul and stoi make of any text (in base 16, of any without a 0x prefix): white space, sign, digits, a rest that is ignored; when they throw, and which error |
| PeerStore.HexKeyRoundTrip | Source/PeerManager.cpp:112-116 | the key comes back from its hex digits; only an empty key prints nothing |
| PeerStore.StatusEffect | Source/PeerManager.cpp:22-29 | status and time of one existing entry change; every id, address, port and key, and all other entries, stay |
| PeerStore.SavedText | Source/PeerManager.cpp:74-85 | a saved table in characters |
| PeerStore.FieldsOf | Source/PeerManager.cpp:98-103 | the fields of a line stand between its first three bars; an empty fourth one means none |
| PeerStore.TooFewBars | Source/PeerManager.cpp:98-103 | a line with fewer than three bars is skipped |
| PeerStore.KeyByPairs | Source/PeerManager.cpp:112-116 | one key byte per pair of characters, an odd last one included, if and only if every pair can be read |
| PeerStore.LineExactly | Source/PeerManager.cpp:105-118 | what a line with four fields brings in, its port cut to 16 bits; it throws if and only if the port or some pair of the key cannot be read |
| PeerStore.FirstLineDecides | Source/PeerManager.cpp:94-119 | line by line: skipped, entered, or thrown with everything so far kept; the last newline may be missing |
| PeerStore.ParseOfLine | Source/PeerManager.cpp:98-116 | a printed line parses to its peer, offline; a peer without a key is skipped |
| PeerStore.SaveLoad | Source/PeerManager.cpp:69-120 | for every walk order, loading a saved table is a map merge: the file wins, and exactly the peers with a key come back |
| PeerStore.SecondSaveLoad | Source/PeerManager.cpp:69-120 | a second save and load changes nothing but lastSeen |
| PeerStore.LoadedIsClean | Source/PeerManager.cpp:94-119 | no file can bring in an id or address with a bar or newline, or an entry under a foreign id |
| PeerStore.CameBackIsClean | Source/PeerManager.cpp:69-120 | for every table and walk order, a table that comes back has no bar or newline in the id or address of a peer with a key |
| PeerStore.LoadMerges | Source/PeerManager.cpp:88-120 | for every file, what a load adds and whether it throws do not depend on the table: it is a map merge |
| PeerStore.SaveLoadExactly | Source/PeerManager.cpp:69-120 | every table comes back under every walk order if and only if the peers with a key have no bar or newline and the text of each peer without one is harmless by itself |
| PeerStore.PlainIsHarmless | Source/PeerManager.cpp:98-103 | a peer without a key and without a bar or newline disturbs nothing |
| PeerStore.StowawayComesBack | Source/PeerManager.cpp:74-119 | a keyless peer whose id starts with the line of another peer brings that peer in: the table does not come back |
| PeerStore.SaveLoadWithKeys | Source/PeerManager.cpp:69-120 | the special case of a table in which every peer has a key, order by order: no bar and no newline anywhere |
| PeerStore.ClockOnlyStamps | Source/PeerManager.cpp:94-119 | for every file and every clock, what is loaded and whether it throws are those of a fixed time, but for lastSeen |
| PeerStore.KeptOrStamped | Source/PeerManager.cpp:110-118 | every entry after a load is the old one or has a time that the clock gave during it |
| PeerStore.StampsInOrder | Source/PeerManager.cpp:110-118 | the i-th peer of the file has the i-th time that the clock gave |
| PeerStore.SaveLoadAt | Source/PeerManager.cpp:69-120 | the round trip with a moving clock |
| PeerStore.PeerManager.AddPeer | Source/PeerManager.cpp:12-15 | the entry replaces the one under its id, and entries stay under their own ids |
| PeerStore.PeerManager.UpdatePeerStatus | Source/PeerManager.cpp:22-29 | makes the change that StatusEffect describes, and entries stay under their own ids |
| PeerStore.PeerManager.SavePeersToFile | Source/PeerManager.cpp:69-86 | the loop writes one line per peer in walk order |
| PeerStore.PeerManager.PrintLine | Source/PeerManager.cpp:75-83 | one line: id, address, decimal port, hex key |
| PeerStore.PeerManager.PrintKey | Source/PeerManager.cpp:80-83 | the inner loop prints two digits per byte |
| PeerStore.PeerManager.LoadPeersFromFile | Source/PeerManager.cpp:88-120 | the loop loads what the laws say, with a clock that may move from entry to entry, and keeps what it had when it throws |
| PeerStore.PeerManager.DecodeKey | Source/PeerManager.cpp:112-116 | the inner loop reads two characters at a time, an odd last one included, and throws where stoul does |
| Framing.ReadMessage | Source/Network_coroutines_wip.cpp:64-88 | one turn of the read loop takes the first frame of the stream, or stops for the reason the frames give |
| Framing.FramesThenTail | Source/Network_coroutines_wip.cpp:63-93 | whole messages in front never change how the bytes after them are read |
| Framing.FramingOfMessages | Source/Network_coroutines_wip.cpp:63-93 | a list of messages and an unfinished one: exactly the list is delivered, then the read fails |
| Framing.FramingStopsAtOversize | Source/Network_coroutines_wip.cpp:76-78 | a header over 10 MB stops the loop after exactly the earlier messages |
| Framing.StopsPastTenMegabytes | Source/Network_coroutines_wip.cpp:70-78 | in bytes: the first header ends the loop as too large if and only if it declares more than 10485760 |
| Framing.FramesOfPrefix | Source/Network_coroutines_wip.cpp:63-93 | wherever the stream is cut, the messages that arrived whole are delivered |
| Framing.FramesAreExact | Source/Network_coroutines_wip.cpp:63-93 | for every byte stream, what was delivered re-encodes to the bytes consumed, and the stop explains the rest |
| Sessions.NewSession | Source/Network_coroutines_wip.cpp:178-253 | a new session is unbound; a dialled one is outgoing and was sent our handshake, an accepted one is incoming and was sent nothing; nothing else changes |
| Sessions.ReceiveEffect | Source/Network_coroutines_wip.cpp:122-173 | all that a received message does, and that no other session, registration or peer is touched |
| Sessions.SendEffect | Source/Network_coroutines_wip.cpp:274-287 | one copy on the session registered under that id, nothing on any other, nothing else changed |
| Sessions.BroadcastEffect | Source/Network_coroutines_wip.cpp:289-301 | a broadcast changes only what was written |
| Sessions.OfflineEffect | Source/Network_coroutines_wip.cpp:95-100 | an error touches only the status of its bound peer, a disconnect only that of the named one and its registration |
| Sessions.HandshakeExchange | Source/Network_coroutines_wip.cpp:122-253 | two nodes, one dial: exactly one handshake each way, both sessions carry the other's id, both tables its key and endpoint |
| Sessions.OneHandshakePerSession | Source/Network_coroutines_wip.cpp:122-301 | in every run without empty ids a session has been sent our handshake once, exactly if it was dialled or is bound, and otherwise only what the user sent |
| Sessions.EmptyIdsAreAnswered | Source/Network_coroutines_wip.cpp:123-164 | with empty ids: n handshakes on an accepted session get n answers |
| Sessions.BindKeepsInv | Source/Network_coroutines_wip.cpp:131-164 | binding a session keeps the invariant below |
| Sessions.StepKeepsInv | Source/Network_coroutines_wip.cpp:122-173 | every handler call and API call keeps: registered sessions exist and carry their id, a connected peer is registered, our handshake opens every connection |
| Sessions.ReachableStates | Source/Network_coroutines_wip.cpp:115-173 | the same in every reachable state, so different non-empty ids name different sessions |
| Sessions.PeerIdNeverChanges | Source/Network_coroutines_wip.cpp:123-132 | in every run a bound session keeps its peer id |
| Sessions.HandshakeEffect | Source/Network_coroutines_wip.cpp:122-167 | the first handshake binds and registers the session, records key and endpoint, and is answered by an accepted session only, with bytes that decode to our identity |
| Sessions.OfflineAfterwards | Source/Network_coroutines_wip.cpp:263-272 | an error or a disconnect shows the peer as offline; only the disconnect unregisters it |
| Sessions.WritesOnlyAppend | Source/Network_coroutines_wip.cpp:41-49 | in every run what was written on a session stays a prefix of what is |
| Sessions.BroadcastOnce | Source/Network_coroutines_wip.cpp:289-301 | one copy on each registered session and none elsewhere, if and only if no session is registered twice |
| Sessions.NoEmptyRegistration | Source/Network_coroutines_wip.cpp:123-138 | in a run without a handshake that carries an empty id, no session is ever registered twice |
| Sessions.BroadcastAfterRun | Source/Network_coroutines_wip.cpp:123-301 | after every such run from the start, a broadcast puts exactly one copy on each registered session and none elsewhere |
| Sessions.DoubleRegistrationIsReachable | Source/Network_coroutines_wip.cpp:123-138 | a run that registers a session under the empty id and under a second one |
| Sessions.BoundSessionDeliversAll | Source/Network_coroutines_wip.cpp:169-172 | from binding on, everything a session receives reaches the user, in order, under its id, whatever other sessions do |
| Sessions.UserSeesSuffix | Source/Network_coroutines_wip.cpp:122-173 | the user sees exactly the suffix from the first well-formed handshake with a non-empty id |
| Sessions.EndToEnd | Source/Network_coroutines_wip.cpp:63-173 | the same from bytes: for any messages within 10 MB and any cut of their stream |
| Sessions.NothingIsDropped | Source/Network_coroutines_wip.cpp:250-256 | two nodes: at any time the receiver's user has seen every whole message that arrived, under the sender's id |
| SessionObjects.Session.SendMessage | Source/Network_coroutines_wip.cpp:41-49 | one message is appended to what the socket was given |
| SessionObjects.NetworkManager.AcceptSession | Source/Network_coroutines_wip.cpp:178-188 | takes the Accept step |
| SessionObjects.NetworkManager.ConnectToPeer | Source/Network_coroutines_wip.cpp:242-253 | takes the Dial step: a new session whose first message is our handshake |
| SessionObjects.NetworkManager.HandleSessionMessage | Source/Network_coroutines_wip.cpp:122-173 | takes the Receive step |
| SessionObjects.NetworkManager.HandleHandshake | Source/Network_coroutines_wip.cpp:123-167 | the payload checks decide, as ParseHandshake does, whether the session is bound |
| SessionObjects.NetworkManager.BindSession | Source/Network_coroutines_wip.cpp:131-164 | session, registry, table and reply change together as the step says |
| SessionObjects.NetworkManager.Register | Source/Network_coroutines_wip.cpp:131-138 | the session takes its id and is registered under it, no other session changes |
| SessionObjects.NetworkManager.Reply | Source/Network_coroutines_wip.cpp:158-164 | our handshake goes out on an accepted session only |
| SessionObjects.NetworkManager.UpdatePeerInfo | Source/Network_coroutines_wip.cpp:140-156 | the entry is added unless the endpoint is unknown, then the connection handler runs |
| SessionObjects.NetworkManager.ConnectionHandler | Source/CliInterface.cpp:106-107 | the installed handler updates the status of that peer only |
| SessionObjects.NetworkManager.HandleError | Source/Network_coroutines_wip.cpp:95-100 | takes the Fail step and closes the socket |
| SessionObjects.NetworkManager.DisconnectPeer | Source/Network_coroutines_wip.cpp:263-272 | takes the Disconnect step |
| SessionObjects.NetworkManager.SendMessage | Source/Network_coroutines_wip.cpp:274-287 | takes the Send step |
| SessionObjects.NetworkManager.BroadcastMessage | Source/Network_coroutines_wip.cpp:289-301 | takes the Broadcast step, for every walk order: as many copies as registrations |
| SessionObjects.NetworkManager.SnapshotSessions | Source/Network_coroutines_wip.cpp:290-296 | the first loop collects the session of every key |
| SessionObjects.NetworkManager.SendAll | Source/Network_coroutines_wip.cpp:297-300 | the second loop sends each session one copy per occurrence |
| SessionObjects.NetworkManager.RunSession | Source/Network_coroutines_wip.cpp:63-93 | for every byte stream, the read loop makes exactly the Receive steps of its frames and stops for the reason they give |
| SessionObjects.NetworkManager.Start | Source/Network_coroutines_wip.cpp:33-39 | then takes the Fail step; the user of an unbound session was given exactly the visible part of the stream |
| SessionObjects.StreamReachesUser | Source/Network_coroutines_wip.cpp:63-173 | bytes to user with no premise on the events: the log grows by the suffix from the first opening handshake |
| SessionObjects.MessagesReachUser | Source/Network_coroutines_wip.cpp:63-173 | the same for any messages within 10 MB and any cut of their stream |
| SessionObjects.ReceivesAt | Source/Network_coroutines_wip.cpp:88-92 | the i-th handler call has the i-th message, endpoint and time |
| Nodes.OriginOfKey | Source/Network.cpp:319-325 | the dialled address and port are read back from the key if and only if the address has no colon |
| Nodes.PeerKeyInjective | Source/Network.cpp:112 | a dealer key names one address and port only, colons or not |
| Nodes.NoColonNoOrigin | Source/Network.cpp:321-325 | a sender name without a colon, and only such a one, gives no address |
| Nodes.DoubleColonIsUnreadable | Source/Network.cpp:321-325 | stoi throws for a peer dialled at an address that starts with two colons |
| Nodes.OriginAtFirstColon | Source/Network.cpp:321-325 | any name splits at its first colon; what stoi reads is cut to 16 bits, and it throws where stoi does |
| Nodes.KeyText | Source/Network.cpp:112 | a dealer key in characters |
| Nodes.GeneratedIdsQualify | Source/Crypto.cpp:265-274 | generated ids are 16 characters without colon, bar or newline |
| Nodes.ForwardedOnce | Source/Network.cpp:303-358 | each message reaches the user once; the id passed is the id recorded, and id and key there rebuild the payload |
| Nodes.ChatReachesUser | Source/Network.cpp:237-356 | from bytes to the user: the frame of any message but a well-formed handshake is handed on as that message under the sender's name, and does nothing else |
| Nodes.HandshakeReachesTable | Source/Network.cpp:303-356 | from bytes to the table: the sender is entered with its key at the address of its name or at none, the user is told, and only a router answers, with our identity |
| Nodes.RejectedFrame | Source/Network.cpp:237-242 | a frame that does not decode, or whose handling throws, changes nothing |
| Nodes.DialEffect | Source/Network.cpp:107-117 | one dealer more, one frame over it that decodes to our identity, nothing else |
| Nodes.HangUpEffect | Source/Network.cpp:124-136 | that dealer goes, a peer of the same name is shown offline, nothing else |
| Nodes.OneCopyPerDealer | Source/Network.cpp:145-148 | a broadcast goes once over every dealer whose socket takes it |
| Nodes.OneCopyPerPeer | Source/Network.cpp:150-156 | and once over the router to exactly the peers shown as connected that it reaches |
| Nodes.NothingElseIsSent | Source/Network.cpp:142-157 | a broadcast sends nothing but those copies |
| Nodes.NetworkManager.ConnectToPeer | Source/Network.cpp:94-122 | stores the dealer under "address:port" and sends the handshake over it; a socket error while connecting is thrown on and changes nothing |
| Nodes.NetworkManager.DisconnectPeer | Source/Network.cpp:124-136 | drops the dealer of that key and marks that name offline, or does nothing |
| Nodes.NetworkManager.SendToPeer | Source/Network.cpp:180-193 | one frame over the dealer of that key, if there is one and its socket takes it |
| Nodes.NetworkManager.SendViaRouter | Source/Network.cpp:195-210 | one frame addressed to that routing id, if there is a router and it reaches the peer |
| Nodes.NetworkManager.BroadcastMessage | Source/Network.cpp:142-157 | the two loops send what the two lemmas above count |
| Nodes.NetworkManager.SendOverDealers | Source/Network.cpp:145-148 | the first loop, for every walk order |
| Nodes.NetworkManager.SendOverRouter | Source/Network.cpp:150-156 | the second loop, for every walk order |
| Nodes.NetworkManager.ReceiveFrame | Source/Network.cpp:237-242 | decodes and handles a frame; one that does not decode changes nothing |
| Nodes.NetworkManager.HandleMessage | Source/Network.cpp:303-358 | takes the step that the protocol lemmas are about |
| Nodes.NetworkManager.LearnPeer | Source/Network.cpp:312-331 | the entry is added, then the connection handler runs |
| Protocol.ReceiveHandshake | Source/Network.cpp:303-341 | a handshake in flight makes its receiver learn the true sender; only a router replies |
| Protocol.HangUpKeepsPeers | Source/Network.cpp:124-136 | disconnecting a dealer key touches no peer |
| Protocol.NextKeepsInv | Source/Network.cpp:94-341 | every step, losses included, keeps truthful tables and late replies |
| Protocol.LinksAreDials | Source/Network.cpp:107-113 | every link of a run comes from a dial of that run |
| Protocol.PeerTableTruth | Source/Network.cpp:303-331 | in every run an entry sits under its id and has that node's real key; if learned over a dealer, this node dialled it where it listens, and for an address without a colon the entry has exactly the dialled address and port; if learned over the router, it has no address |
| Protocol.HandshakeOrder | Source/Network.cpp:312-338 | in every run, lossy ones too: whoever a node learned by dialling already holds that node's true key |
| Protocol.IdsNameNoDealer | Source/Network.cpp:124-140 | in every run no dealer is stored under a peer id, so disconnecting by id does nothing |
| Termination.NoReplyToReply | Source/Network.cpp:333-338 | only a node named by its own readable key replies to a reply |
| Termination.NextMeasure | Source/Network.cpp:321-338 | each handshake taken off a link lowers the measure, only a dial raises it |
| Termination.HandshakesDieOut | Source/Network.cpp:94-341 | in every run at most two handshakes are sent per dial and at most two taken off a link |
| Termination.OneDialEchoes | Source/Network.cpp:333-338 | one dial of a node named by its key can cause any number of handshakes |
| Termination.DieOutExactly | Source/Network.cpp:94-341 | for ids of any form, at most two handshakes per dial in every run if and only if no listening node is named by its own readable key |
| Quiescence.RunProgress | Source/Network.cpp:94-341 | in lossless runs every dial is on its way up, or recorded and on its way down, or recorded on both ends |
| Quiescence.QuiescenceMeansKnowledge | Source/Network.cpp:303-338 | with no handshake in flight, a node shows another as connected if and only if one of them dialled the other and the key could be read where that matters |
| Quiescence.DialsAreMutual | Source/Network.cpp:94-338 | every dial to an address without a colon has left both ends connected |
| Quiescence.QuietIsReached | Source/Network.cpp:303-338 | unless a node is named by its own readable key, deliveries alone reach a state with no handshake in flight, within the measure |
| Quiescence.DialsBecomeMutual | Source/Network.cpp:94-338 | every lossless run can be continued by at most two deliveries per dial so that all dials to addresses without a colon are mutual |
| Quiescence.UnreadableDialIsOneSided | Source/Network.cpp:319-327 | a run whose dial leaves only one end connected |
| Chats.DeliverIsHeard | Source/Network.cpp:212-356 | a delivered packet reaches the user of its target and no other, a chat message under the sender's name, a handshake under the sender's id |
| Chats.ChatsAreConserved | Source/Network.cpp:180-356 | in every run, what users heard and what is on its way are among what was sent, as multisets; without losses exactly that |
| Chats.EveryChatIsHeard | Source/Network.cpp:180-356 | from the start and without losses, each user has been given every chat message sent to it, once, when none is in flight |
| Chats.HungUpHearsNothing | Source/Network.cpp:124-136 | what arrives for a dropped dealer changes no node |
| Locks.LockOrder | Source/Network.cpp:94-193 | every call nests only peer table or display inside sockets, if and only if it does not lock the sockets mutex again |
| Locks.LocksTaken | Source/Network.cpp:69-358 | every lock of every call, with what is held when it is taken |
| Locks.NestingCalls | Source/Network.cpp:124-301 | exactly which calls take the peer table, and which the display, inside the sockets mutex |
| Locks.ProgramTakes | Source/Network.cpp:69-301 | a thread takes the locks of all its calls |
| Locks.WaitChainsAreShort | Source/Network.cpp:124-177 | whoever a waiting thread's holder waits for can go on |
| Locks.NoCyclicWait | Source/Network.cpp:69-177 | in every state that any threads reach under any schedule, a chain of waiting threads has at most three, all different |
| Locks.NoDeadlock | Source/Network.cpp:69-301 | any threads, any calls, any schedule: someone can go on, and all can finish |
| Locks.RelockNeverReturns | Source/Network.cpp:142-181 | as written, a thread on a path through SendToPeer never returns, under any schedule |
| Locks.FinishesAsWritten | Source/Network.cpp:94-181 | as written, all threads can finish if and only if none of them takes such a path |
| Display.StepKeepsInv | Source/CliInterface.cpp:42-65 | every step of every thread keeps mutual exclusion, conservation and the wake-up debt |
| Display.DisplayOrder | Source/CliInterface.cpp:42-65 | in every interleaving the pushes are what was shown, then the item in hand, then the queue |
| Display.NoPushIsLost | Source/CliInterface.cpp:42-65 | asleep with work queued, some producer has pushed and not notified, and its next steps wake the thread; past its unlock when the mutex is free |
| Display.EverythingIsShown | Source/CliInterface.cpp:42-57 | once the producers are done, the thread's own steps show everything ever pushed, told to stop or not, if and only if it is still in its loop or nothing is queued |
| Display.QueueDisplayEffect | Source/CliInterface.cpp:59-65 | an uninterrupted call adds its item at the end, frees the mutex and wakes a sleeping thread |
| Display.HistoryEffect | Source/CliInterface.cpp:42-65 | only a producer's push adds to what was pushed, only the thread to what was shown |
| Display.SpuriousWakeupIsHarmless | Source/CliInterface.cpp:46 | a spurious wake-up with nothing to do ends where it began |
| Display.StopIsSeen | Source/CliInterface.cpp:136-142 | in every reachable state in which Stop is about to notify, the thread can end without a further wake-up if and only if the notify does not fall between test and sleep; by its own steps alone if no producer holds the mutex |
| Display.StopAtOnce | Source/CliInterface.cpp:136-142 | from every reachable state, Stop ends the thread if and only if it is not between test and sleep |
| Display.QuitIsSeen | Source/CliInterface.cpp:346-349 | HandleQuit ends it if and only if it neither sleeps nor is about to |
| Display.SleepsUntilWoken | Source/CliInterface.cpp:44-46 | past its test the thread sleeps through anything but a wake-up |
| Display.StopCanBeMissed | Source/CliInterface.cpp:136-142 | the missed case is reachable: an interleaving in which the thread sleeps although it was told to stop |

## Left out

- Cryptography: keys, signatures and the hash are opaque; only the printed form of an id is modelled, and distinct ids are a premise.
- ZeroMQ, Boost.Asio and sockets: links lose or do not lose, in any order; polling, timeouts, linger, identity conflicts and overlapping writes are not modelled.
- Start and Stop of the network managers, thread and coroutine lifetimes, and the AcceptLoop around AcceptSession.
- RouteMessages and PollMessages as loops: one received frame is one step, and a dealer that was dropped receives nothing.
- GetConnectedPeers, GetAllPeers, GetPeer, RemovePeer, SetLocalPeer and GetLocalPeer: easy members; their locks are in Locks.
- CreateTextMessage, CreatePingMessage and CreatePongMessage: plain constructors.
- The command line: dispatch, prompts, colours and text shown; Main, options, signals and scripts.
- File opening and errors: a file is a sequence of characters.
- SessionObjects.NetworkManager.Start: says nothing about the state after a time that the clock cannot hold, which C++ leaves undefined.
- Nodes.NetworkManager.ReceiveFrame: a frame whose decoding C++ leaves undefined is taken to change nothing; no frame sent by a node of Protocol is of that kind.
- SessionObjects.Session.SendMessage: a write that fails, which the source swallows, is not an outcome; each write is one whole message.
- Sessions.EndToEnd: takes the framed messages as the Receive events of the session, among any others; RunSession and MessagesReachUser show that the read loop makes exactly those.
- Quiescence.QuiescenceMeansKnowledge: a reply is taken to go back over the link that its handshake came by, as it does when each peer is dialled once; what ZeroMQ does with two connections of one routing id is not modelled. Tables start empty.
- Numerals.ReadingOf: the optional "0x" prefix of stoul in base 16 is not modelled; on the one or two characters the program gives it, it makes no difference.
- Locks.NoDeadlock: joining threads and waiting on the condition variable are not lock waits; the latter is the subject of Display.
- Display.StepKeepsInv: the items are opaque and what they print is not modelled.
