# GoATAK in Dafny

GoATAK is a TAK server: it accepts Cursor-on-Target (CoT) events from clients over
streaming connections, in XML or in protocol buffers, routes them to other clients,
keeps the state of map items, chats and missions, and logs what passed. This project
models the parts of it that decide what a client or an operator gets to see, and
proves what they promise over all inputs, all runs and all interleavings.

`dafny verify dfyconfig.toml` checks everything.

| module | files | what is modelled |
|---|---|---|
| `Strings`, `Numbers`, `Wrappers`, `ByteStream` | library calls | `strings.Split`/`Join`/`Trim…`, `strconv`, `%f`, `bufio.Reader` |
| `Filter` | `pkg/cot/filter.go` | the two-path type pattern matcher |
| `CotTypes` | `pkg/cot/types.go` | the type forest, built from a map in any order |
| `TagReader` | `pkg/cot/tagreader.go` | the XML stream reader, byte by byte |
| `ProtoFraming` | `pkg/cot/protoreader.go` | the framing of protocol buffer messages |
| `ReplayLog` | `processors.go`, `takreplay` | the message log and its replay |
| `XmlNode`, `CotMessages`, `Converter`, `DetailKept` | `node.go`, `cotmessage.go`, `converter.go` | detail trees and the conversion between XML events and typed messages, in both directions |
| `ClientHandler`, `Link` | `client_handler.go` | one connection, and two handlers that negotiate the protocol version |
| `Routing`, `ChatStorage` | `main.go`, `storage.go`, `processors.go` | live routing, offline messages, replay of stored chats |
| `Items` | `unit.go`, `items_repo.go`, `processors.go` | the life of map items |
| `MissionSync` | `manager.go`, `change_query.go` | mission contents, the change log, and the squashed view of it |
| `ChatThreads` | `pkg/model/chat.go` | chat threads of the web client |
| `Server` | `main.go`, `messages.go`, `invite_subscribe.go` | routing over the handlers, the missions and the items at once: what a message changes, whom it is told to, and what a closed connection leaves |
| `Cache`, `CacheKeys`, `CacheAge` | `cache.go` | the cache with a time to live, under every interleaving |

Objects that the source updates in place are classes here, and their methods are
proved against functions on values; the main results are lemmas about runs of those
functions. Where an order is not determined (a map iteration, a set), it is a
parameter or a free choice, and the results hold for all of them.

## Where the code and its description differ

Each of these is stated by a lemma or by the contract of a method; the code is modelled as it is.

- `MatchPattern` and the uniform reading of patterns part ways on the pattern `.-` and on
  patterns without wildcards that end in two dashes or more, and nowhere else
  (`Filter.UniformExactlyWhen`, `Filter.OutsideUniform`).
- `MakeProtoPacket` panics on payloads of 2^21 bytes and more, because the slice it returns
  is longer than the buffer it made (`ProtoFraming.MakeProtoPacket`).
- A logged message of 65536 bytes or more is written with a length that cannot be read back
  (`ReplayLog.LengthExactlyWhen`), and a log cut right after a length field ends like a whole one
  (`ReplayLog.ReplayReadsBack`).
- Receiver rule 5 of `protobuf/detail.proto` says that an element of `xmlDetail` is to be left alone and the
  typed message of its name ignored. The code appends every typed attribute to the element, so it is left
  alone exactly when there is no typed message (`Converter.LeftAloneExactlyWhen`). What `GetAttr` reads from it
  is unchanged exactly when each typed value is empty or for an attribute that it has
  (`Converter.ReadsSameExactlyWhen`), but `GetAttrs` reads the typed values (`Converter.GetAttrsReadsTyped`), and
  an attribute stands there twice, which XML does not allow, as soon as a typed one is there already
  (`Converter.NoRepeatsExactlyWhen`; `Converter.TwoCallsigns` is such a message).
- Whole elements are to be converted, says `protobuf/detail.proto`, or none. The code drops what the typed message
  has no place for: `DetailKept.KeptExactlyWhen` says which details come back.
- An event that becomes a message and an event again loses its version, which the message has no field for and
  which always comes back as 2.0, and the part of its times below a millisecond. The header comes back
  exactly when neither is there to lose (`DetailKept.HeaderKeptExactlyWhen`; `DetailKept.HeaderChanged` has an input).
- An event whose `<detail>` tag has attributes of its own keeps its typed elements in `xmlDetail`
  (`Converter.ResidualExactlyWhen`).
- When a version request is read and the queue is full, the server switches although its answer is
  dropped (`Link.RequestExactlyWhen`), and the client never learns of it, whatever happens afterwards
  (`Link.DroppedAnswerIsUnheard`, `Link.UnheardForEver`).
- The server's filter stops version requests that clients send as messages, but not version responses. A
  "true" response that one client sends is routed to the others, and one that reads it at version 0
  switches while the server's side of its connection does not (`Link.StrayResponseWitness`). The negotiation
  holds in a run exactly as long as neither this nor a full queue spoils it (`Link.RunNegotiatedExactlyWhen`),
  and a spoiled one can go on to a wrong version or a frame in the wrong encoding exactly if the client is still
  running and no frame under way will stop it (`Link.CanBreakExactlyWhen`).
- The cleaner of the items collects what is to be deleted first and removes it afterwards. A contact that comes back
  in between is removed although it was just seen: exactly when its newest sign of life is later than the
  visit that collected it (`Items.LostAliveExactlyWhen`; `Items.FreshContactLost` is such a run).
- A change in a mission is told to the first 100 of its subscribers only, since the query for them has the limit
  of all queries. All are told exactly if there are no more (`Server.AllToldExactlyWhen`).
- A mission message without a uid attaches some other point to the mission and logs no uid
  (`MissionSync.EmptyUidKeepsExactlyWhen`); a mission object that holds more than the table brings
  deleted contents back when something is added (`MissionSync.AppendKeepsExactlyWhen`).
- `ReadProto` makes the buffer before it reads the payload: a declared length that cannot be allocated is a
  panic and not an error (`ProtoFraming.ReadProto`).
- The cache counts the age of a value from a stamp that is taken after the loader has returned. If stamps
  are at most L late, a value can be ttl + L old and no older (`CacheAge.AgeBoundExactly`).
- Two threads can run the loader of one key at once, on two entries, for every ttl (`CacheKeys.TwoLoadersOfOneKey`). It
  takes a deletion by `Clean` that finds a `Load` of the key under way: without one it cannot happen
  (`CacheKeys.OneLoaderPerKey`), and from the moment of one it can (`CacheKeys.CanMeetExactlyWhen`,
  `CacheKeys.OneLoaderExactlyWhen`). When two threads clean, the entry that goes need not be the old one that
  was visited: it is exactly if nobody has deleted the key since (`CacheKeys.DeletesVisitedExactlyWhen`), and it can
  be one stamped at that moment (`CacheKeys.FreshEntryDeleted`).

## Model

| member | source | states |
|---|---|---|
| Filter.MatchesUniformly | pkg/cot/filter.go:5-40 | the equality and prefix shortcuts and the wildcard loop together are one uniform segment matcher, for every type string |
| Filter.UniformExactlyWhen | pkg/cot/filter.go:5-40 | the patterns with the uniform reading on all types: all but `.-` and those that end in `--` and have no wildcard |
| Filter.DoubleDashWitness | pkg/cot/filter.go:14-20 | for each pattern of the second family, a type that the two readings tell apart |
| Filter.OutsideUniform | pkg/cot/filter.go:5-20 | what the code does on both families instead: `.-` matches everything, the others are prefixes |
| Filter.MatchSurvivesExtension | pkg/cot/filter.go:5-40 | a match of a dash-ended pattern survives every extension of the type |
| CotTypes.Registry.Load | pkg/cot/types.go:24-36 | the lines of the text, trimmed, without blank ones, cut at semicolons; a later line of a code replaces an earlier one; a panic on a line without a name |
| CotTypes.TableReadsBack | pkg/cot/types.go:24-36 | a table written as lines is read back whole, in order |
| CotTypes.Registry.Link | pkg/cot/types.go:38-62 | a code is appended to the list of its owner and to no other |
| CotTypes.Registry.LinkAll | pkg/cot/types.go:38-62 | after the second loop, in any order of the map, every list holds its owner's children, each once |
| CotTypes.Registry.SortNext | pkg/cot/types.go:64-74 | sorting a list keeps its elements and no other list changes |
| CotTypes.Registry.SortEach | pkg/cot/types.go:64-70 | after the third loop, in any order of the map, every list is sorted and holds the same codes |
| CotTypes.Registry.Init | pkg/cot/types.go:23-75 | init builds the forest of the text's table: every list is strictly sorted and holds exactly its owner's children |
| CotTypes.ParentIsLongestPrefix | pkg/cot/types.go:46-61 | a code hangs under the longest of its proper dash-prefixes in the table, under Root iff there is none |
| CotTypes.LevelGrows | pkg/cot/types.go:77-83 | the level of a child is greater than that of its parent |
| CotTypes.NextListUnique | pkg/cot/types.go:38-74 | the lists are determined by the table alone, whatever the iteration orders |
| CotTypes.ListedExactlyOnce | pkg/cot/types.go:38-62 | every code is in exactly one list, once |
| CotTypes.Reachable | pkg/cot/types.go:38-62 | every code is reached from Root by following the lists |
| CotTypes.NoCycles | pkg/cot/types.go:38-62 | no chain of the forest comes back to where it was |
| ByteStream.Reader.ReadByte | pkg/cot/tagreader.go:32-35 | the next byte, or the end of the input |
| ByteStream.Reader.ReadFull | pkg/cot/protoreader.go:45-74 | a whole buffer, or how it was cut short (io.EOF or io.ErrUnexpectedEOF) |
| TagReader.ReadTag | pkg/cot/tagreader.go:25-117 | the byte automaton with its buffer resets refines naive search for the tag and its first closing tag, with all error outcomes and the position it leaves |
| TagReader.SkipText | pkg/cot/tagreader.go:31-40 | stops just after the first `<`, or at the end |
| TagReader.ReadOpen | pkg/cot/tagreader.go:43-69 | the opening tag through its `>`, or bad xml, too long, closed tag |
| TagReader.ReadBody | pkg/cot/tagreader.go:89-116 | everything through the first later closing tag, or too long, or the end |
| TagReader.TailMatches | pkg/cot/tagreader.go:98-111 | the buffer equals the closing tag exactly when the text read so far ends in it, although it is reset at every `<` and `>` |
| TagReader.ReadsDocument | pkg/cot/tagreader.go:25-117 | a document is returned whole iff it is at most maxBufLen + 1 bytes long, and is too long otherwise |
| TagReader.StreamReadsBack | pkg/cot/tagreader.go:25-117 | any sequence of such documents, with text without `<` between them, reads back exactly and in order, and then the end |
| ProtoFraming.UvarintLength | pkg/cot/protoreader.go:31-43 | the varint of a length has at most 3 bytes exactly below 2^21 |
| ProtoFraming.PutUvarint | pkg/cot/protoreader.go:36-39 | writes the varint at its place in the buffer and nothing else |
| ProtoFraming.ReadUvarint | pkg/cot/protoreader.go:45-74 | reads a varint, with its end-of-input and overflow errors |
| ProtoFraming.MakeProtoPacket | pkg/cot/protoreader.go:31-43 | magic byte, length, payload and one zero byte; a panic exactly from 2^21 bytes on |
| ProtoFraming.ReadProto | pkg/cot/protoreader.go:45-74 | skips to the magic byte and returns the payload of the given length, or the error, or the panic on a length that cannot be allocated |
| ProtoFraming.UvarintReads | pkg/cot/protoreader.go:31-74 | a written varint reads back; cut short it is the end of the input |
| ProtoFraming.FrameReads | pkg/cot/protoreader.go:45-74 | a frame after any bytes but 0xbf is returned if all of it is there, and is an error otherwise |
| ProtoFraming.CompleteExactly | protobuf/protocol.txt:77-111 | which frames lie wholly in a prefix of the stream |
| ProtoFraming.EveryPrefixYieldsItsFrames | pkg/cot/protoreader.go:31-74 | any prefix of a stream yields exactly the payloads whose frames lie in it, in order, and then an error |
| ProtoFraming.StreamYieldsAll | pkg/cot/protoreader.go:31-74 | ReadProto undoes MakeProtoPacket on whole streams, in spite of the trailing zeros |
| ReplayLog.LengthExactlyWhen | cmd/goatak_server/processors.go:221-225 | the length read is the length written exactly for data under 65536 bytes |
| ReplayLog.LogFile.LogMessage | cmd/goatak_server/processors.go:203-226 | appends one record |
| ReplayLog.ReadRecord | cmd/takreplay/main.go:75-94 | one record, or how the file ends there |
| ReplayLog.ReadFile | cmd/takreplay/main.go:75-112 | what the dumper is given and how reading ends, for every file |
| ReplayLog.ReplayReadsBack | cmd/takreplay/main.go:75-112 | a log cut anywhere: exactly the complete records that pass the filters, in order, and how it ends |
| ReplayLog.WholeLogReadsBack | cmd/takreplay/main.go:75-112 | the whole log is replayed to a clean end |
| Numbers.AtoiItoa | pkg/cot/converter.go:155-160 | a battery level that was printed with Itoa is read back |
| Numbers.ParseFormat | pkg/cot/converter.go:66-72 | a whole number of millionths printed with `%f` is read back |
| Numbers.GetFloatFormat | pkg/cot/converter.go:221-228 | getFloat, which turns commas into points, reads back what `%f` printed |
| XmlNode.GetDestFor | pkg/cot/node.go:103-118 | destinations are never empty strings |
| XmlNode.Element.AddChild | pkg/cot/node.go:240-260 | the new child, with its non-empty attributes in some order, comes last |
| XmlNode.Element.AddOrChangeChild | pkg/cot/node.go:262-272 | the first child of the name gets the attributes, or a new child comes last |
| XmlNode.Element.RemoveTags | pkg/cot/node.go:124-139 | the children with these names go, and the text |
| XmlNode.ValueOfAttrs | pkg/cot/node.go:175-187 | every parameter is read back from a child, whatever the order of the map |
| XmlNode.WithoutNone | pkg/cot/node.go:124-139 | exactly the children with other names stay |
| XmlNode.FirstWithout | pkg/cot/node.go:124-153 | removing tags does not disturb the search for other names |
| Converter.CotToEvent | pkg/cot/converter.go:21-103 | the event of a message: header, xmlDetail, and the typed elements merged in |
| Converter.EventToProto | pkg/cot/converter.go:106-182 | the message of an event: typed fields, and the residual tree |
| Converter.GetXMLDetails | pkg/cot/converter.go:195-219 | the residual tree, with the re-reading of its text |
| Converter.RoundTripExactlyWhen | pkg/cot/converter.go:21-182 | to XML and back is the identity exactly on messages in normal form |
| Converter.LeftAloneExactlyWhen | protobuf/detail.proto:45-51 | receiver rule 5: the element of xmlDetail is left alone exactly when there is no typed message of its name |
| Converter.ReadsSameExactlyWhen | pkg/cot/node.go:175-187 | GetAttr reads the same from the merged element exactly when every typed value is empty or for an attribute that the element has |
| Converter.GetAttrsReadsTyped | pkg/cot/node.go:189-200 | GetAttrs reads the element's attributes overridden by the typed ones |
| Converter.NoRepeatsExactlyWhen | pkg/cot/node.go:262-272 | no attribute of the merged element is repeated exactly when none was and no typed one is there already |
| Converter.TwoCallsigns | pkg/cot/converter.go:21-103 | a message whose event carries two callsigns, of which GetAttr reads one and GetAttrs the other |
| Converter.ResidualExactlyWhen | pkg/cot/converter.go:195-219 | sender rule 1: the residual is the original children in order without the typed ones, exactly when the detail tag has no attributes |
| Converter.AccessorsAgree | pkg/cot/cotmessage.go:108-171 | callsign, endpoint, team and role are the attributes of the event's first contact and group, with the one exception spelled out |
| CotMessages.TimeKeptExactlyWhen | pkg/cot/cotmessage.go:316-322 | a time survives as milliseconds in 64 bits exactly if it is a whole number of them within range |
| DetailKept.HeaderKeptExactlyWhen | pkg/cot/converter.go:21-131 | an event that is turned into a message and back is the same apart from its detail exactly if its version is 2.0 and its three times are whole milliseconds |
| DetailKept.HeaderChanged | pkg/cot/converter.go:21-131 | an event of version 1.0 sent a microsecond after a second, which comes back as version 2.0 and sent at the second |
| DetailKept.TagKeptExactlyWhen | protobuf/detail.proto:18-23 | the elements of a typed name come back the same exactly when there are none, or one that the typed message can hold whole, or contacts that stay in xmlDetail |
| DetailKept.KeptExactlyWhen | pkg/cot/converter.go:21-219 | the whole detail comes back exactly when that holds of every typed name and the detail tag has neither attributes nor text |
| DetailKept.OthersKept | pkg/cot/converter.go:195-219 | children of other names come back as they were, in order |
| ClientHandler.ConnClientHandler.TryAddPacket | internal/client/client_handler.go:537-550 | accepted if the handler is active and the queue has room, dropped if it is full |
| ClientHandler.ConnClientHandler.SendEvent | internal/client/client_handler.go:485-502 | events are sent at version 0 only |
| ClientHandler.ConnClientHandler.SendCot | internal/client/client_handler.go:512-535 | the packet is in the encoding of the version |
| ClientHandler.ConnClientHandler.SendMsg | internal/client/client_handler.go:504-510 | only messages of a visible scope, or local ones |
| ClientHandler.ConnClientHandler.Stop | internal/client/client_handler.go:438-455 | removeCb is called by the first stop only |
| ClientHandler.ConnClientHandler.ProcessXMLRead | internal/client/client_handler.go:327-373 | of a decoded event: the negotiation events and their replies; every other event becomes a message |
| ClientHandler.ConnClientHandler.ProcessMessage | internal/client/client_handler.go:252-294 | contacts, removals, pings and what is passed on |
| ClientHandler.ConnClientHandler.ReadFrame | internal/client/client_handler.go:224-316 | one pass of the read loop: events, the documents passed over, messages, and errors |
| ClientHandler.ConnClientHandler.HandleRead | internal/client/client_handler.go:213-296 | all frames are processed in order until one ends the loop, and then the handler is stopped |
| ClientHandler.ConnClientHandler.WriteFrame | internal/client/client_handler.go:421-436 | the oldest packet is written, or its write fails and the handler stops |
| ClientHandler.RunBalanced | internal/client/client_handler.go:421-455 | in every run: accepted is written, then at most one failed write, then the queue; the queue is at most 50; removeCb runs once however many stop |
| ClientHandler.RunAccounted | internal/client/client_handler.go:537-550 | in every run the frames offered are those accepted and those dropped, merged in order, and a frame is dropped exactly when the queue is full |
| ClientHandler.NothingSentAfterStop | internal/client/client_handler.go:438-455 | after Stop nothing is offered, accepted, dropped or written, and removeCb is not called again |
| ClientHandler.NothingReadAfterStop | internal/client/client_handler.go:213-296 | after Stop the contacts and what was passed on stay as they are |
| ClientHandler.RunContacts | internal/client/client_handler.go:255-276 | in every run the contact map is the fold of the messages read, and the new-contact callback fires exactly on absent-to-present transitions |
| Link.RunNegotiatedExactlyWhen | internal/client/client_handler.go:299-535 | in every run of any moves the negotiation invariant holds up to a state exactly if no move before it spoils it |
| Link.ClientReadsWhatServerWrote | internal/client/client_handler.go:299-373 | in every such run versions are 0 or 1, the client is at 1 only if the server is, and the next frame is in the encoding the client reads |
| Link.CanBreakExactlyWhen | internal/client/client_handler.go:213-550 | after a move of such a run the client can still come to be at 1 with the server at 0, or to meet a frame in the wrong encoding, without further spoiling, exactly if that move spoiled the link, the client is running, and no frame that was under way will stop it |
| Link.XmlUpToTheResponse | protobuf/protocol.txt:245-254 | step 7a, of all that the server has queued in every such run: XML up to and including the positive response, protocol buffers after it |
| Link.VersionsOnlyGrow | internal/client/client_handler.go:391-397 | versions never go back, in any run at all |
| Link.EncodedKeepsReadable | internal/client/client_handler.go:512-535 | a packet sent by the server keeps the stream readable exactly if it is not itself a negotiation event sent at version 0 |
| Link.RequestExactlyWhen | internal/client/client_handler.go:327-339 | answering a version request keeps the stream readable exactly if the queue has room for the answer |
| Link.MoveKeepsExactlyWhen | internal/client/client_handler.go:213-550 | a move of either side keeps the negotiation invariant exactly if it is neither a negotiation event sent as a message at version 0 nor a request answered at a full queue |
| Link.ForwardedSpoilsExactlyWhen | cmd/goatak_server/processors.go:199-201 | of the messages that pass the server's filter exactly the positive responses spoil the negotiation |
| Link.StrayPassesFilter | pkg/cot/cotmessage.go:226-238 | a version response is not a control message |
| Link.StraySwitchesClient | internal/client/client_handler.go:357-370 | three moves after such a message is sent the client has switched and the server has not |
| Link.StrayResponseWitness | cmd/goatak_server/processors.go:199-201 | a message that passes the server's filter, spoils a fresh link, and three moves later has switched the client and not the server |
| Link.DroppedAnswerIsUnheard | internal/client/client_handler.go:537-550 | a request answered at a full queue leaves the server switched, the client not, and nothing on its way that could tell it |
| Link.UnheardForEver | internal/client/client_handler.go:299-389 | and no later moves of either side change that |
| Routing.Router.SendBroadcast | cmd/goatak_server/main.go:389-399 | every handler but the sender is offered the message |
| Routing.Router.SendToCallsign | cmd/goatak_server/main.go:401-419 | every handler with the callsign is offered the message |
| Routing.Router.SendToUid | cmd/goatak_server/main.go:421-431 | every handler with the uid is offered the message |
| Routing.Router.NewCotMessage | cmd/goatak_server/main.go:142-158 | queued up to 128 messages, dropped beyond |
| Routing.Router.Deliver | cmd/goatak_server/main.go:329-349 | without missions: to the callsigns, or else to the uids, or else to all but the sender |
| Routing.RoutedCopies | cmd/goatak_server/main.go:318-431 | the exact number of copies: none for missions, else one per matching callsign, else one per matching uid, else one unless it is the sender; none outside its scopes |
| Routing.OfflineRemovesUid | internal/client/client_handler.go:272-276 | a client that reads an offline message, in either encoding, loses exactly that contact |
| Routing.OfflineIsBroadcast | cmd/goatak_server/main.go:181-196 | an offline message goes once to each of the other handlers that see the scope |
| Server.App.Route | cmd/goatak_server/main.go:318-387 | each named mission is found in the scope of the message and changed, or not found; each change that is logged is told once, in order, and nothing else is; and each handler is offered exactly the copies of the message and of the notifications that its contacts and scopes call for |
| Server.App.ProcessMissionPoint | cmd/goatak_server/main.go:352-376 | the effect on the tables, at most one change logged, and the subscribers are told of it exactly if there is one |
| Server.App.NotifyMissionSubscribers | cmd/goatak_server/main.go:378-387 | the handlers that have one of the subscribers are offered the notification of the change |
| Server.App.GetSubscribers | internal/database/invite_subscribe.go:53-63 | the first 100 subscribers of the mission, in the order of the table |
| Server.App.FindMission | internal/database/mission_query.go:114-144 | a mission with the name and the scope if there is one; scope `*` is every scope |
| Server.App.RemoveHandlerCb | cmd/goatak_server/main.go:181-196 | the handler goes; every item registered on it is offline and no other changes; and one offline message with an id of its own is generated for each |
| Server.InformedEach | cmd/goatak_server/main.go:378-387 | each handler is offered the news in order, each once for every subscriber told that is a contact of its, if it sees the mission's scope |
| Server.ToldExactlyWhen | cmd/goatak_server/main.go:378-387 | a handler is told exactly if it sees the scope and has one of the subscribers told |
| Server.AllToldExactlyWhen | internal/database/subscription_query.go:16-25 | every handler that has a subscriber and sees the scope is told exactly if the mission has at most 100 subscribers |
| Server.RoutingKeepsInSync | cmd/goatak_server/main.go:318-376 | a message with a uid, routed to any missions, keeps the contents of all missions what their logs say |
| ChatStorage.Storage.Add | pkg/chat/storage.go:22-24 | a message is kept under its uid |
| ChatStorage.Storage.Clean | pkg/chat/storage.go:36-44 | exactly the stale messages go |
| ChatStorage.Storage.GetFor | pkg/chat/storage.go:46-90 | exactly the messages that are fresh and address the item, in the order visited |
| ChatStorage.SelectedReturned | pkg/chat/storage.go:46-90 | the same of the specification, for every visiting order |
| ChatStorage.Takes | pkg/chat/storage.go:53-87 | the tests on one message are freshness and addressing |
| ChatStorage.PickedExactly | pkg/chat/storage.go:46-90 | whatever the visiting order, each selected message is returned once |
| ChatStorage.ReplayMatchesLive | pkg/chat/storage.go:62-87 | for a handler whose only contact is the item, GetFor addresses a message iff live routing would offer it, but for a sender's own broadcasts |
| ChatStorage.Replay | cmd/goatak_server/processors.go:141-158 | the greeting of a contact never seen before and the selected messages are sent to the handlers with the uid |
| ChatStorage.ReplayedTo | cmd/goatak_server/processors.go:149-157 | each handler with the uid is offered the selected messages that it may see, once each and in the same order; the others nothing |
| ChatStorage.ReplayIsLateRouting | cmd/goatak_server/processors.go:141-158 | a new contact is replayed a stored message of somebody else iff it is fresh and live routing would have offered it |
| Items.FromMsg | pkg/model/unit.go:175-201 | a new item with its first position if it has one, or nil for a message without a class |
| Items.Item.Update | pkg/model/unit.go:207-232 | class, times and message are replaced, the track grows and is cut to its last 5000 positions |
| Items.Item.Old | pkg/model/unit.go:89-99 | a contact is old when offline and unseen for a day, anything else when stale |
| Items.ItemsRepo.Store | internal/repository/items_repo.go:52-57 | the item is stored under its uid and the change callback gets it |
| Items.ItemsRepo.Remove | internal/repository/items_repo.go:83-87 | the delete callback gets the uid iff it was stored |
| Items.ItemsRepo.SaveItem | cmd/goatak_server/processors.go:113-139 | the whole repository after a message, the callback, and when a contact counts as new; keys stay uids and replayed callbacks give the stored set |
| Items.ItemsRepo.RemoveByMessage | cmd/goatak_server/processors.go:68-94 | a contact goes offline, a unit or point goes, with the matching callback |
| Items.ItemsRepo.MarkOffline | cmd/goatak_server/main.go:184-187 | the mark set for the uids of a closed connection |
| Items.ItemsRepo.MarkOnline | cmd/goatak_server/processors.go:172-197 | the mark set for contacts by metrics |
| Items.ItemsRepo.SweepOne | internal/repository/items_repo.go:115-130 | what one visit of the cleaner decides and marks |
| Items.ItemsRepo.CleanOldUnits | internal/repository/items_repo.go:112-136 | the whole repository after a pass that nothing interrupts, in any order of the map |
| Items.UninterruptedPass | internal/repository/items_repo.go:112-136 | that pass is what the separate visits and removals of runs do when nothing comes between them |
| Items.MapItemHasClass | cmd/goatak_server/processors.go:130-131 | a map item always has a class, so no nil item is stored |
| Items.RunWellKept | pkg/model/unit.go:207-232 | in every run each key is its item's uid and each track is the last 5000 of the positions recorded |
| Items.LastSeenIsNewest | pkg/model/unit.go:115-126 | in every run lastSeen is the time of the item's newest sign of life |
| Items.ContactRemovedExactlyWhen | internal/repository/items_repo.go:133-135 | in every run a contact leaves exactly when the cleaner removes its uid after a visit that collected it, whatever came between; nothing else removes it |
| Items.ContactCollectedExactlyWhen | internal/repository/items_repo.go:115-130 | in every run a visit collects a contact exactly when it is offline and all its messages and metrics are over 24 hours old |
| Items.LostAliveExactlyWhen | internal/repository/items_repo.go:112-136 | a contact that is removed although it was alive within the 24 hours before the visit, or since: exactly when its newest sign of life came after the visit |
| Items.FreshContactLost | internal/repository/items_repo.go:112-136 | for every message of a contact, a run in which it is stored anew, online, and then removed |
| Items.ItemsComeAndGo | cmd/goatak_server/processors.go:68-139 | an item comes only by its own message; a unit or point goes only when named, or collected by a visit and then removed |
| MissionSync.DatabaseManager.AddMissionPoint | internal/database/manager.go:168-211 | the tables, the loaded object and the change, for known and new points, and when it fails |
| MissionSync.DatabaseManager.DeleteMissionPoint | internal/database/manager.go:213-244 | association and log after a removal, nothing if the point is not loaded |
| MissionSync.DatabaseManager.AddMissionResource | internal/database/manager.go:246-283 | association and log after an addition, nothing if loaded already or no such file |
| MissionSync.DatabaseManager.DeleteMissionContent | internal/database/manager.go:285-316 | association and log after a removal, nothing if the hash is not loaded |
| MissionSync.DatabaseManager.ProcessMissionPoint | cmd/goatak_server/main.go:352-376 | with a fully loaded mission: removal by message, or addition, and the change that was logged, if any |
| MissionSync.DatabaseManager.FindPoint | internal/database/point_query.go:66-98 | the row of the uid; without a uid, any row |
| MissionSync.AppendKeepsExactlyWhen | internal/database/manager.go:193-208 | an addition keeps association and log in agreement exactly when the loaded object holds nothing that the table does not |
| MissionSync.EmptyUidKeepsExactlyWhen | internal/database/manager.go:182-208 | what a message without a uid does to the agreement |
| MissionSync.RunInSync | internal/database/manager.go:168-316 | over every run, a uid or hash is in a mission iff its newest change there is an addition, and the log is in order of time |
| MissionSync.OtherMissionsUntouched | internal/database/manager.go:168-316 | a call on one mission changes neither the contents nor the log of another |
| MissionSync.ChangeQuery.Get | internal/database/change_query.go:83-103 | the rows that pass the filters, newest first, up to the limit |
| MissionSync.GetChanges | internal/database/manager.go:318-344 | the window, or one squashing pass over it |
| MissionSync.WindowExactly | internal/database/change_query.go:18-99 | the window holds exactly the mission's changes later than the given time and among its newest 100 |
| MissionSync.SquashedExactly | internal/database/manager.go:325-341 | the squashed view lists exactly the newest changes of their keys in the whole log that lie in the window and are not removals |
| MissionSync.SquashedOnce | internal/database/manager.go:325-341 | each key at most once, newest first |
| MissionSync.SquashedIsContents | internal/database/manager.go:318-344 | when the window covers the log, the keys listed are exactly the mission's contents |
| MissionSync.RunSquashedIsContents | internal/database/manager.go:168-344 | the same after every run of additions and removals |
| ChatThreads.Chat.GetMsg | pkg/model/chat.go:149-157 | a message with the ID iff the thread has one |
| ChatThreads.Chat.Add | pkg/model/chat.go:159-171 | put first unless its ID is there already |
| ChatThreads.ChatMessages.Add | pkg/model/chat.go:53-82 | filed under the right key, the title filled in if empty, no other thread changed |
| ChatThreads.ThreadIsHistory | pkg/model/chat.go:53-82 | each thread, oldest first, is the history of arrivals restricted to its key without repeated IDs |
| ChatThreads.ThreadHasId | pkg/model/chat.go:149-171 | a thread has an ID iff a message with it was filed there |
| ChatThreads.AddChangesExactlyWhen | pkg/model/chat.go:159-171 | which additions change a thread; a redelivery changes none |
| ChatThreads.EachInItsThread | pkg/model/chat.go:53-82 | every message is in the thread of its key by ID, no thread holds a message of another key or an ID twice |
| ChatThreads.BothDirectionsShareAThread | pkg/model/chat.go:57-67 | what a peer sends me directly and what I send the peer are in one thread |
| ChatThreads.TitleIsFirst | pkg/model/chat.go:69-80 | the title is the first one that is not empty |
| Cache.StepKeepsInv | internal/cache/cache.go:28-65 | every step of any thread keeps the invariant: locks have one holder, stamped values come from the loader of their key, and fresh ones are within the ttl |
| Cache.LoadReturnsFresh | internal/cache/cache.go:46-65 | in every interleaving a returned value was produced by the loader for that key and stamped no more than ttl before the freshness check |
| Cache.OnlyStaleIsReplaced | internal/cache/cache.go:36-61 | in every interleaving the loader runs only on an entry never loaded or older than ttl at the check, and Clean goes on to delete only after visiting an entry of the key ten times as old |
| Cache.OneLoaderPerEntry | internal/cache/cache.go:55-62 | no two threads run the loader on one entry at once |
| CacheKeys.TwoLoadersOfOneKey | internal/cache/cache.go:28-65 | for every ttl, a run in which Clean deletes an entry just stored, and two threads load its key at once |
| CacheKeys.StepOrphansExactlyWhen | internal/cache/cache.go:28-65 | a step leaves a Load on an entry that its key no longer has exactly if it is a deletion that finds a Load on the key |
| CacheKeys.NoOrphanExactlyWhen | internal/cache/cache.go:28-65 | a run leaves no Load behind exactly if no deletion in it finds one on the key |
| CacheKeys.OneLoaderPerKey | internal/cache/cache.go:46-65 | in a run without such a deletion no two threads run the loader of the key at once, whatever other deletions there are |
| CacheKeys.CanMeetExactlyWhen | internal/cache/cache.go:28-65 | two loaders of the key can be reached without a further such deletion exactly from the states in which a Load was left behind, also when its entry is held by other threads |
| CacheKeys.OneLoaderExactlyWhen | internal/cache/cache.go:28-65 | over every run: up to here two loaders of the key could never be reached, exactly if no deletion so far found a Load on the key |
| CacheKeys.StaysBoundExactlyWhen | internal/cache/cache.go:28-53 | an entry stays the one of its key exactly until the key is deleted, and never comes back |
| CacheKeys.DeletesVisitedExactlyWhen | internal/cache/cache.go:28-44 | in every interleaving Clean takes out the old entry that it visited exactly if nobody has deleted the key since the visit |
| CacheKeys.FreshEntryDeleted | internal/cache/cache.go:28-44 | for every ttl a run of two threads in Clean and two in Load after which Clean deletes an entry stamped at that moment |
| CacheAge.AgeIsTtlAndLag | internal/cache/cache.go:58-62 | if no stamp of the run is more than L late, a value returned is at most ttl + L older than the return of its loader |
| CacheAge.AgeBoundExactly | internal/cache/cache.go:58-62 | an age limit holds in all such runs if and only if it is at least ttl + L |

## Left out

- Sockets, TLS, HTTP and websocket handlers, configuration, logging and metrics: I/O and user interface.
- SQL and gorm: only tables, filters, order and limit are modelled, and calls succeed. `Association.Append` is taken to write a join row for everything that the mission object holds, ignoring rows that exist.
- XML text and protocol buffer encoding: a tree stands for its text and bytes for the message they decode to; a TakMessage without a CotEvent, NaN and XML namespaces are not modelled.
- XmlNode.Element.AddChild: children are values, so the child that the source returns for further changes is not modelled, nor are nodes shared between trees.
- XmlNode.Element.AddOrChangeChild: likewise; the source chains calls on the child, and such trees are written out as values here.
- Track speed and course: whole millionths, since they are printed with `%f`; every other syntax of `strconv.ParseFloat` is a parameter.
- Two buffered readers on one connection and their read-ahead: a handler reads whole frames.
- Interleavings inside a handler finer than one send, read, write or stop; the interleavings of the cache are modelled in full.
- Link: the client-to-server direction claims nothing about encodings, because a client keeps sending XML until the answer arrives.
- Items.ItemsRepo.CleanOldUnits: one pass that nothing interrupts, as a single method; what comes between the visits and the removals is in the runs, whose operations are single visits and removals.
- Server: one call on the tables is one step, and so is one routed message; two handlers that change one mission at the same time are not modelled.
- Times are instants, counted in nanoseconds: time zones, the clock's monotonic reading and the parsing of times in XML are not modelled.
- Mission deletion, invitations, subscribing and unsubscribing, and the creation of mission rows; a new mission is its log entry.
- Mission scope `*`: join rows are kept by hash, so that two rows of different scopes with one hash are one file of such a mission.
- Points are shared between missions: a message of one mission updates the row for all of them; the claims are about membership and the log, not about the row's other columns.
- Nil receivers and nil arguments, except where they stand for something absent in a message.
- MissionSync.SquashedIsContents: uids and hashes are assumed not to collide, since both are keys of one squashing pass.
- ChatStorage.ReplayMatchesLive: a broadcast of the contact's own connection is replayed to it although live routing does not send it back.
- Converting chats to and from CoT, item DTOs, preference tables, profiles, the blob store, icons and geodesy: easy, or dependent on libraries.
