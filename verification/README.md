# Verified models of bumper

This project models the parts of bumper (a local stand-in for the Ecovacs cloud) whose correctness
depends on long runs, on interleaving or on byte-level arithmetic, and proves what they are for. It
covers five components:

1. **The MQTT sniffer** (`configs/mitm-mqtt.py`): parsing CONNECT, PUBLISH and SUBSCRIBE packets of
   MQTT 3.1.1, and reassembling them from WebSocket messages that cut and join them.
2. **Requests over MQTT**: the helper bot, which matches answers to commands through a cache whose
   items expire, and the proxy, which hides the cloud's sender behind `proxyhelper` and restores it.
3. **XMPP sessions** (`bumper/xmpp/xmpp.py`): connection states, the registry of clients, STARTTLS, the
   connection flags in the database, and the forwarding of stanzas.
4. **Subject alternative names** (`bumper/utils/certs.py`): the domain tree and the wildcards read off it.
5. **Tokens** (`bumper/db/tokens.py`, `bumper/db/base.py`, `bumper/web/auth_service.py`): who owns which
   credential, and when it expires.

Check it with `dafny verify dfyconfig.toml`.

## How the model is built

Code that changes state step by step is a class whose methods are proved to compute a function of the
old state: `MQTTControlPacket`, `Sniffer`, `MQTTHelperBot`, `CommandDto`, `ProxyClient`,
`BumperMQTTServerPlugin`, `XMPPServer`, `XMPPAsyncClient`, `DomainTree`, `TokenRepo`, `AuthService`.
Those functions make a state machine (`Step`), and the theorems are about all its runs. A coroutine
is cut at its awaits, so every interleaving is a sequence of steps.

Some things come in as parameters: UTF-8 decoding (`decode`; `Utf8.Decode` is proved to be such a
decoder), what `json.loads` makes of a string, `str.lower`, `sorted`, the time zone, the clock and freshly
generated values. `cachetools.TTLCache`, a library, is modelled by its documented behaviour: items expire, and
the least recently used one makes room.

Some theorems have a proviso that the code needs. Each is paired with a lemma that says what happens
without it:

- A Remaining Length of more than 2,097,151 is rejected, although section 2.2.3 of MQTT 3.1.1 allows a
  fourth length byte; overlong encodings are accepted (`CanonicalExactlyWithoutTrailingZero`).
- A packet whose body does not parse blocks its flow for good (`FailureIsPermanent`).
- A command hears its answers exactly until 1.1 timeouts after it was registered or until it is displaced
  (`FoundExactly`). So a wait outlasts its cache entry exactly when publishing took more than a tenth of
  the timeout (`WaitOutlastsEntryExactlyAfterSlowPublish`), a command sent under the id of another one in
  flight takes over its answers (`EqualIdDivertsReplies`), and one sent into a full cache makes the least
  recently used command deaf (`FullCacheForgets`).
- A proxy client answers every open request as long as fewer than 32,400 are open (`PublishedExactly`); one more
  request makes its mapper forget the least recently used one (`FullInsertForgets`). A robot that
  authenticates again starts with no open requests (`ReconnectForgets`).
- An XMPP connection that authenticates under another name after binding leaves the flag of its first
  uid set when it is lost, so that flags can outlast all connections (`ChangedUidStrandsFlag`,
  `FlagWithoutConnections`); and one of two connections with the same uid clears the flag for both
  (`SharedUidClearsFlag`). `FlagIsExact` says when a flag is set.
- A listed root such as `*.com` covers hosts that nobody listed (`CoverageIsExact`).
- Expiry times are compared as strings, and are computed on the wall clock. When clocks go forward, a
  token that still has time left can be revoked (`SpringRevokesEarly`); when they go back, expired tokens
  are kept (`AutumnKeepsExpired`), and a token inserted in the first half of the repeated hour has expired
  at once (`AutumnTokenHasExpired`). `OrdersDifferExactly` and `VerifiesForItsLifetime` say when and for
  how long.
- An IT token found in a token that has just expired is answered with that token's auth code, although
  the code may be gone with it (`NewAuthWorksExactly`).
- An empty access token presented for checking is answered although it is not stored (`AnswerIsStored`).

## Model

| member | source | states |
|---|---|---|
| MqttLength.DecodeEncode | configs/mitm-mqtt.py:238-257 | Decoding inverts the encoder of section 2.2.3 of MQTT 3.1.1 for every value up to 2,097,151, whatever follows, and rejects every larger value. |
| MqttLength.AcceptedLengthBound | configs/mitm-mqtt.py:238-257 | Any accepted length is at most 2,097,151 and takes at most three bytes. |
| MqttLength.MalformedExactlyOnFourthByte | configs/mitm-mqtt.py:243-257 | A length is malformed exactly when three continuation bytes are followed by a fourth byte, and the bytes run out exactly when at most three bytes are there and all continue. |
| MqttLength.PrefixFree | configs/mitm-mqtt.py:238-257 | No accepted length code is a proper prefix of another. |
| MqttLength.CanonicalExactlyWithoutTrailingZero | configs/mitm-mqtt.py:238-257 | An accepted code is the standard's own encoding exactly when it is one byte long or does not end in a zero byte. |
| Utf8.DecodeInverts | configs/mitm-mqtt.py:206-213 | Strict UTF-8 decoding inverts encoding for all strings and accepts nothing but encodings. |
| MqttControlPacket.MQTTControlPacket.Parse | configs/mitm-mqtt.py:63-94 | Building a packet object from any bytes ends as the packet function says: complete with these attributes and extra bytes, waiting for a named length, or one of the exceptions. |
| MqttControlPacket.MQTTControlPacket.ParseFixedHeader | configs/mitm-mqtt.py:67-70 | The fixed header attributes, or the exception for a cut or malformed header. |
| MqttControlPacket.MQTTControlPacket.ParseRemainingLength | configs/mitm-mqtt.py:238-257 | The loop over value and multiplier computes the decoded length and its width. |
| MqttControlPacket.MQTTControlPacket.ParseLengthPrefixedBytes | configs/mitm-mqtt.py:124-130 | A field and the bytes it announces; a cut length prefix is an error, a cut content is not. |
| MqttControlPacket.MQTTControlPacket.ParsePublishVariableHeaders | configs/mitm-mqtt.py:132-140 | Topic and, for QoS 1 and 2, the identifier after it. |
| MqttControlPacket.MQTTControlPacket.ParsePublishPayload | configs/mitm-mqtt.py:142-151 | The message is everything after the topic and the identifier. |
| MqttControlPacket.MQTTControlPacket.ParseSubscribePayload | configs/mitm-mqtt.py:156-169 | The loop over the topic filters leaves the dictionary, or the exception, of the filters taken in order. |
| MqttControlPacket.MQTTControlPacket.ParseConnectVariableHeaders | configs/mitm-mqtt.py:172-189 | The header slices and, if the flag byte is there, its flags. |
| MqttControlPacket.MQTTControlPacket.CollectFields | configs/mitm-mqtt.py:193-199 | The first loop of the CONNECT payload collects the length-prefixed fields in order. |
| MqttControlPacket.MQTTControlPacket.NameFields | configs/mitm-mqtt.py:201-218 | The second loop stores them under their names, or raises at the first that has none or is no text. |
| MqttPacket.AppendKeepsOutcome | configs/mitm-mqtt.py:63-94 | A complete or failed parse is unchanged by bytes appended; only the extra bytes grow. |
| MqttPacket.ParseOwnBytes | configs/mitm-mqtt.py:78-94 | Parsing looks at the packet's own bytes only: its raw bytes alone give the same packet. |
| MqttPacket.WaitingUntilNeed | configs/mitm-mqtt.py:71-77 | A waiting parse goes on waiting for the same length until that many bytes are there, and then completes or fails for good. |
| MqttPacket.IndexErrorIsCutHeader | configs/mitm-mqtt.py:243-244 | An index error means exactly that the fixed header is cut, which takes at most four bytes. |
| MqttPacket.BodyFailures | configs/mitm-mqtt.py:82-94 | A body fails only by a cut length prefix, bad UTF-8 or a surplus field; the flags are never missing when they are needed. |
| MqttFields.SplitIsFields | configs/mitm-mqtt.py:194-199 | Splitting by moving an offset is taking fields from the front of what is left. |
| MqttFields.ParseIsFilters | configs/mitm-mqtt.py:157-169 | Storing topic filters by moving an offset is splitting the rest into filters and storing them in order. |
| MqttFields.FieldsTile | configs/mitm-mqtt.py:193-199 | Fields that split tile their bytes: written back they give the same bytes, up to a cut of the last one. |
| MqttFields.FiltersTile | configs/mitm-mqtt.py:161-169 | The same for topic filters and their QoS bytes. |
| MqttFields.StoreDistinct | configs/mitm-mqtt.py:168-169 | With distinct topics every filter keeps its own QoS byte and nothing else is stored. |
| MqttRoundTrips.ConnectFieldsByPosition | configs/mitm-mqtt.py:203-218 | The chain of name tests stores fields by position: it succeeds exactly when there is an announced name for each field and the text fields are UTF-8, and then the k-th name holds the k-th field. |
| MqttRoundTrips.FlagsRoundTrip | configs/mitm-mqtt.py:183-189 | The flag byte built from any flags parses to those flags. |
| MqttRoundTrips.ConnectRoundTrip | configs/mitm-mqtt.py:172-218 | Writing any CONNECT as section 3.1 of MQTT 3.1.1 lays it out and parsing it gives back every field under its name, for all combinations of flags. |
| MqttRoundTrips.SurplusFieldRejected | configs/mitm-mqtt.py:216-218 | One field more than the flags announce makes the packet be rejected. |
| MqttRoundTrips.PublishRoundTrip | configs/mitm-mqtt.py:132-151 | Any PUBLISH with QoS 0 to 2 parses back to its topic, identifier, message and flags if its length is within the bound, and is malformed otherwise. |
| MqttRoundTrips.PublishTiles | configs/mitm-mqtt.py:132-151 | Length, topic, identifier and message of any parsed PUBLISH tile its body. |
| MqttRoundTrips.SubscribeRoundTrip | configs/mitm-mqtt.py:153-169 | Any SUBSCRIBE with distinct topic filters parses back to its identifier and exactly those filters with their QoS bytes, if within the bound. |
| MqttRoundTrips.SubscribeTiles | configs/mitm-mqtt.py:153-169 | Identifier and filters of any parsed SUBSCRIBE tile its body, up to a cut at the very end. |
| MqttReassembly.DrainConserves | configs/mitm-mqtt.py:312-324 | The bytes of the dumped packets followed by the buffer are the bytes that were there. |
| MqttReassembly.DrainStopsStuck | configs/mitm-mqtt.py:313-324 | Each dumped packet is what its own bytes parse to, and the loop stops only when nothing, too little or a failing packet is left, raising that failure. |
| MqttReassembly.DrainUnique | configs/mitm-mqtt.py:312-324 | There is only one way to read bytes as packets and a rest, and the loop finds it. |
| MqttReassembly.DrainAppend | configs/mitm-mqtt.py:312-324 | Draining after each of two messages is draining once after both. |
| MqttReassembly.ChunkingIndependence | configs/mitm-mqtt.py:307-324 | However a byte stream is cut into messages, the same packets are dumped, the same bytes are left and the last message ends in the same way. |
| MqttReassembly.PacketsSurviveChunking | configs/mitm-mqtt.py:307-324 | A sequence of packets cut anywhere is dumped packet by packet and leaves nothing. |
| MqttFlows.FlowIsolation | configs/mitm-mqtt.py:291-324 | In any interleaving of flows each flow behaves as its own events would alone. |
| MqttFlows.FlowReassembled | configs/mitm-mqtt.py:294-324 | From its start on, a flow has dumped and buffered what draining all its bytes once gives, whatever other flows did in between. |
| MqttSniffer.MqttParserIsLocal | configs/mitm-mqtt.py:63-94 | The packet parser has the locality that the reassembly results need. |
| MqttSniffer.Sniffer.WebsocketStart | configs/mitm-mqtt.py:294-297 | A flow starts with an empty buffer. |
| MqttSniffer.Sniffer.WebsocketMessage | configs/mitm-mqtt.py:307-324 | The handler's loop dumps and buffers exactly what draining gives, and raises its exception or KeyError for an unknown flow. |
| MqttSniffer.Sniffer.WebsocketEnd | configs/mitm-mqtt.py:300-304 | The flow's buffer goes, and what was left of it is reported. |
| MqttSniffer.FailureIsPermanent | configs/mitm-mqtt.py:315-322 | A buffer whose first packet fails to parse dumps nothing ever again. |
| MqttSniffer.IndexErrorIsTransient | configs/mitm-mqtt.py:243-244 | A cut header leaves at most four bytes, and whatever packet they begin is dumped when its other bytes arrive. |
| MqttSniffer.CutHeaderRecovers | configs/mitm-mqtt.py:238-257 | A header stays cut exactly while at most four bytes are there and the length goes on; up to three bytes are completed by a byte without the continuation bit, and after four any byte is malformed. |
| HelperTopics.CommandTopicParts | bumper/mqtt/helper_bot.py:123-128 | The command topic splits into iot, p2p, the command, helperbot, bumper, helperbot, the device's did, type and resource, q, the request id and the payload type exactly when no attribute contains a slash. |
| HelperTopics.CommandReachesDevice | bumper/mqtt/helper_bot.py:123-128 | The topic matches what the addressed device subscribes to, and no other device's subscription, exactly then. |
| HelperTopics.ReplyMirrorsCommand | bumper/mqtt/helper_bot.py:123-128 | The answer's topic is the command's with parts 3 to 5 and 6 to 8 exchanged and p for q, exactly then. |
| HelperTopics.ReportsAreLogged | bumper/mqtt/helper_bot.py:348-362 | A report under the second subscription is logged with the robot's did and rid exactly if it is about statistics, and passed over otherwise. |
| HelperTopics.TwelvePartsExactlyWhenPlain | bumper/mqtt/helper_bot.py:123-128 | It has twelve parts exactly when no attribute contains a slash, and more otherwise. |
| HelperTopics.ReplyReachesCommand | bumper/mqtt/helper_bot.py:123-128 | The answer with sender and receiver exchanged matches the bot's subscription and is recognised by the command's id exactly when no attribute contains a slash. |
| HelperTopics.OwnCommandHeard | bumper/mqtt/helper_bot.py:331-337 | The bot hears its own command exactly when no attribute contains a slash and the command is addressed to the bot. |
| HelperTopics.SubscribedTopicsAreLongEnough | bumper/mqtt/helper_bot.py:331-378 | No subscribed topic makes the handler fail on an index. |
| TtlCache.InsertKeepsExactly | bumper/mqtt/helper_bot.py:142 | Inserting keeps exactly the items that have not expired, except the least recently used one of a full cache. |
| TtlCache.InsertMirrors | bumper/mqtt/helper_bot.py:142 | While nothing has expired and there is room, inserting into the cache is inserting into a dictionary. |
| TtlCache.OperationsMirror | bumper/mqtt/helper_bot.py:142 | And so are looking up, touching and popping. |
| HelperCorrelation.NoStaleIds | bumper/mqtt/helper_bot.py:285-310 | In every reachable state each registered id belongs to a command in flight under that id. |
| HelperCorrelation.ExitedIdsAreGone | bumper/mqtt/helper_bot.py:308-309 | The id of a command that has exited is not registered, unless another command with it is in flight. |
| HelperCorrelation.ResultsComeFromAnswers | bumper/mqtt/helper_bot.py:285-310 | In every run a non-empty result is the rendered payload of a message that arrived after its command was registered, with p2p in part 1 and the command's id in part 10. |
| HelperRefinement.CacheRefinesDictionary | bumper/mqtt/helper_bot.py:142 | If publishing takes less than a tenth of the timeout, waits end on time and at most 60 times the timeout commands are in flight, the cached bot and a bot with a dictionary have the same runs. |
| HelperRefinement.NoReplyLost | bumper/mqtt/helper_bot.py:285-310 | Then, with distinct ids, a command in flight holds exactly the last answer since it was sent, even one that came before its wait began. |
| HelperRefinement.AnsweredCommandFinishes | bumper/mqtt/helper_bot.py:391-398 | A command that waits and has been answered can finish at once, with the last answer. |
| HelperRefinement.CommandsEndRightly | bumper/mqtt/helper_bot.py:299-329 | If moreover answered waiters run before their deadlines: a command that finishes returns its last answer as rendered, one that times out had no answer at all, and no other end gives a result. |
| HelperLimits.FoundExactly | bumper/mqtt/helper_bot.py:285-310 | In every run of the cached bot, a command in flight is found by its id exactly if 1.1 timeouts have not passed since it was registered and nothing has displaced it: no command with its id registered or ended, and it did not make room in a full cache. |
| HelperLimits.DisplacedHearsNothing | bumper/mqtt/helper_bot.py:339-347 | No answer reaches a displaced command, for the rest of the run. |
| HelperLimits.OrderIsByUse | bumper/mqtt/helper_bot.py:142 | In every run the cache orders its ids by the last event that registered or answered them, so that the one making room is the least recently used. |
| HelperLimits.FullCacheForgets | bumper/mqtt/helper_bot.py:142 | A command sent into a full cache makes the least recently used command unfindable, and no other. |
| HelperLimits.HeardExactlyUntilExpiry | bumper/mqtt/helper_bot.py:142 | With distinct ids and room in the cache, but any timing, a command in flight is found by its answers exactly until 1.1 timeouts after its registration. |
| HelperLimits.WaitOutlastsEntryExactlyAfterSlowPublish | bumper/mqtt/helper_bot.py:294-300 | A wait ends after its cache entry expires exactly when publishing took more than a tenth of the timeout. |
| HelperLimits.EqualIdDivertsReplies | bumper/mqtt/helper_bot.py:292-296 | In every run, once a second command is sent under the id of one in flight, no message reaches the first any more. |
| HelperBotClass.MQTTHelperBot.Send | bumper/mqtt/helper_bot.py:288-297 | Registering a command is the send step, on a fresh object for the created topic. |
| HelperBotClass.MQTTHelperBot.OnMessage | bumper/mqtt/helper_bot.py:339-380 | Handling a message is the message step, and ends as the topic says: an answer, a clean log, nothing, or an index error. |
| HelperBotClass.MQTTHelperBot.BeginWait | bumper/mqtt/helper_bot.py:319-322 | The wait starts when publishing is done. |
| HelperBotClass.MQTTHelperBot.Finish | bumper/mqtt/helper_bot.py:299-309 | A set event gives the rendered response and takes the command out of the cache. |
| HelperBotClass.MQTTHelperBot.GiveUp | bumper/mqtt/helper_bot.py:306-329 | A failed publish, a timeout and a cancellation give no result and take the command out of the cache. |
| HelperBotClass.MQTTHelperBot.Abort | bumper/mqtt/helper_bot.py:288-309 | A command that ends before it is registered takes its id out of the cache all the same. |
| HelperBotClass.CommandDto.AddResponse | bumper/mqtt/helper_bot.py:400-403 | The response replaces an earlier one and sets the event. |
| Proxy.RequestsGoToTheRobot | bumper/mqtt/proxy.py:66-91 | In every state, what an open proxy client publishes to the robot: a p2p request with part 3 replaced by proxyhelper and all else kept, any other message as it is, and nothing for messages that are unreadable, incomplete or from proxyhelper. |
| Proxy.NothingLeaks | bumper/mqtt/proxy.py:77-84 | In every run each topic published to the cloud has at least seven parts with proxyhelper in neither part 3 nor part 6, and no request mapper remembers proxyhelper. |
| Proxy.RepliesGoToTheRequester | bumper/mqtt/server.py:331-355 | In every run, a publication for a message addressed to proxyhelper has the topic's parts with part 6 replaced by the non-empty sender of the last request with its id, made less than 198 seconds before and not answered since, and the message's own text; any other accepted message is published as it is. |
| Proxy.PublishedExactly | bumper/mqtt/server.py:331-355 | With room in the mapper, whatever other requests there were in between, such a message is published exactly if there is such a request. |
| Proxy.ReconnectForgets | bumper/mqtt/server.py:257-262 | Requests made before a robot authenticates again are not answered. |
| Proxy.OnlyProxiedAreHeard | bumper/mqtt/server.py:376-380 | Messages of a robot that has disconnected, or has no proxy client, are not published. |
| Proxy.NoMoreRepliesThanRequests | bumper/mqtt/server.py:336-355 | In every run and for every id, a proxy client publishes no more answers than the cloud made requests. |
| Proxy.RequestReplyRoundTrip | bumper/mqtt/proxy.py:75-89 | From any state, a request is published to the robot as from proxyhelper, and a reply within 198 seconds is published to the cloud under the request's sender, each with its own text. |
| ProxyClass.ProxyClient.HandleMessage | bumper/mqtt/proxy.py:66-91 | The loop body changes the mapper and publishes as the translation says, also where an exception ends it early. |
| ProxyClass.ProxyClient.Translate | bumper/mqtt/server.py:331-355 | The mapper loses the request that is answered, and the publication is the broker step's. |
| ProxyClass.BumperMQTTServerPlugin.OnBrokerMessageReceived | bumper/mqtt/server.py:304-359 | The handler is the broker step, and publishes what the laws above speak of. |
| ProxyClass.BumperMQTTServerPlugin.OnBrokerClientDisconnected | bumper/mqtt/server.py:376-380 | A client that disconnects loses its proxy client, which is closed. |
| ProxyClass.BumperMQTTServerPlugin.Authenticate | bumper/mqtt/server.py:257-262 | A robot that authenticates gets a new proxy client with an empty mapper. |
| ProxyClass.BumperMQTTServerPlugin.OnCloudMessage | bumper/mqtt/proxy.py:60-91 | A cloud message in the loop of one of the plugin's proxy clients is the cloud step. |
| XmppSessions.StatesOnlyGrow | bumper/xmpp/xmpp.py:184-196 | Over any run the state of a connection never decreases, and DISCONNECT is final. |
| XmppSessions.RegistryIsExact | bumper/xmpp/xmpp.py:73-90 | In every run the registry holds each live connection exactly once, and no lost one. |
| XmppSessions.OneConnectionPerProtocol | bumper/xmpp/xmpp.py:73-83 | However often connection_made is called, in every run each protocol it was called for has exactly one connection, over the transport it was last called with, and there are no others. |
| XmppSessions.AtMostOneProceed | bumper/xmpp/xmpp.py:446-467 | In every run a connection is sent a proceed exactly once if it was upgraded and never otherwise, however many coroutines were scheduled. |
| XmppSessions.StarttlsProceeds | bumper/xmpp/xmpp.py:446-453 | A starttls stanza on a connection that is not upgraded leads to its upgrade and one proceed, and changes nothing else. |
| XmppSessions.LeavingDisconnects | bumper/xmpp/xmpp.py:85-90 | A connection that is lost, unavailable or closes its stream is in DISCONNECT then. |
| XmppFlags.FlagsAreBacked | bumper/xmpp/xmpp.py:523-532 | In every run a set connection flag has a connection that bound under its uid and is live, unless that connection has changed its uid since. |
| XmppFlags.FlagMeansLiveConnection | bumper/xmpp/xmpp.py:85-90 | If no connection changes its uid after binding, a set flag has a connection in the registry bound under that uid, in the table for its class. |
| XmppFlags.NoConnectionsNoFlags | bumper/xmpp/xmpp.py:159-174 | And then, once all connections are lost, all flags are false. |
| XmppFlags.ChangedUidStrandsFlag | bumper/xmpp/xmpp.py:472-485 | In every run, if the last connection there is changes its uid and is lost, no connection is left and the flag of its old uid stays set. |
| XmppFlags.FlagWithoutConnections | bumper/xmpp/xmpp.py:472-485 | Such a run: a bot connects, binds, authenticates under another name and is lost. |
| XmppFlags.SharedUidClearsFlag | bumper/xmpp/xmpp.py:85-90 | In every run, if one of two bound connections with the same uid is lost, the other one is live without its flag. |
| XmppFlags.FlagIsExact | bumper/xmpp/xmpp.py:159-174 | In every run a flag is set exactly when a connection of that name bound while there was a record, and since then none of that name was lost or went to DISCONNECT, the server did not shut down with one, and the record was not removed. |
| XmppRouting.ControlRoutedExactly | bumper/xmpp/xmpp.py:198-254 | In every reachable state a command that reaches the loop is written, with the sender's jid filled in, exactly once to each registered bot in READY with another jid whose uid occurs in the address, and to nobody else. |
| XmppRouting.PingRoutedExactly | bumper/xmpp/xmpp.py:256-282 | The same for pings with a user address, over all connections in session; a ping to the server is forwarded to nobody. |
| XmppRouting.ResultRoutedExactly | bumper/xmpp/xmpp.py:357-375 | The same for results, addressed at ecouser.net or, without a user, to everybody else in session; with errno 103 nothing is forwarded. |
| XmppRouting.BroadcastExactly | bumper/xmpp/xmpp.py:360-363 | A bot's result to de.ecorobot.net is broadcast once to every registered connection; no other result is. |
| XmppRouting.RosterIsRefused | bumper/xmpp/xmpp.py:200-222 | Rosters and discoveries are refused, and nothing else is written. |
| XmppRouting.ControlAnswersExactly | bumper/xmpp/xmpp.py:224-229 | Of the commands only a com:sf set to rl.ecorobot.net is answered by the server. |
| XmppRouting.ServerPingIsAnswered | bumper/xmpp/xmpp.py:260-263 | A ping to the server is answered under its address, and nothing else happens. |
| XmppRouting.MissingPermissionsExactly | bumper/xmpp/xmpp.py:308-355 | With errno 103 a bot gets three stanzas for the addressed user exactly when users are not checked and the named user is not one of bumper's own. |
| XmppLogin.BindGivesAddress | bumper/xmpp/xmpp.py:534-556 | A bind gives the connection the address of its uid, class, server and resource, and answers with it. |
| XmppLogin.JidIsLastAddress | bumper/xmpp/xmpp.py:534-544 | In every run the jid of a connection is the address its last bind gave it, and empty before. |
| XmppLogin.LoginSucceeds | bumper/xmpp/xmpp.py:379-565 | In any state, connecting, authenticating, binding and opening a session ends with exactly this connection in READY, its flag set, and exactly these five answers. |
| XmppLogin.StreamAnsweredExactly | bumper/xmpp/xmpp.py:379-440 | What a stream header is answered with in each state, before and after STARTTLS; it sets the device class in CONNECT and changes nothing else. |
| XmppLogin.LeavingAnsweredExactly | bumper/xmpp/xmpp.py:623-629 | A closed stream is answered, an unavailable presence is not. |
| XmppLogin.UnauthorizedIsRefused | bumper/xmpp/xmpp.py:503-518 | A controller without authorization gets a failure, and keeps its state, kind and flags. |
| XmppLogin.CommandReachesBot | bumper/xmpp/xmpp.py:241-251 | From events: after a bot and a user have logged in under different names, and whatever else happened meanwhile, a command that names the bot is written to it exactly once, with the user's jid as sender. |
| XmppLogin.ResultReachesUser | bumper/xmpp/xmpp.py:365-375 | And the bot's result to the user's jid is written to the user exactly once, with the bot's jid as sender. |
| Xmpp.InExactlyWhenSomewhere | bumper/xmpp/xmpp.py:249 | The substring test holds exactly when the text occurs at some position. |
| XmppClass.XMPPServer.ConnectionMade | bumper/xmpp/xmpp.py:73-83 | A new client in the registry, or a new transport for the client there is. |
| XmppClass.XMPPServer.ConnectionLost | bumper/xmpp/xmpp.py:85-90 | The client leaves the registry and is disconnected. |
| XmppClass.XMPPServer.SetState | bumper/xmpp/xmpp.py:184-196 | A smaller state is refused, and DISCONNECT clears the flag. |
| XmppClass.XMPPServer.SetXmpp | bumper/xmpp/xmpp.py:163-170 | The flag of the record found under the uid, in the table for the client's class. |
| XmppClass.XMPPServer.Disconnect | bumper/xmpp/xmpp.py:49-55 | Shutting down clears the flags of all registered clients in turn. |
| XmppClass.XMPPServer.HandleConnect | bumper/xmpp/xmpp.py:379-444 | The stream header sets the device class in state CONNECT only, and is answered with the features of the state. |
| XmppClass.XMPPServer.HandleSaslAuth | bumper/xmpp/xmpp.py:472-521 | The uid is set in any case; bots are admitted always, others if authorised, with a record and state INIT. |
| XmppClass.XMPPServer.HandleBind | bumper/xmpp/xmpp.py:523-558 | The handler is the bind step, whose jid and answer BindGivesAddress states. |
| XmppClass.XMPPServer.HandleSession | bumper/xmpp/xmpp.py:560-565 | The session is the step to READY, and is answered. |
| XmppClass.XMPPServer.HandleUnavailable | bumper/xmpp/xmpp.py:591-596 | An unavailable presence is the step to DISCONNECT. |
| XmppClass.XMPPServer.HandleStreamClosed | bumper/xmpp/xmpp.py:623-629 | A closed stream is answered and is the step to DISCONNECT. |
| XmppClass.XMPPServer.ScheduleStarttls | bumper/xmpp/xmpp.py:665-667 | A starttls stanza schedules a coroutine while the connection is not upgraded. |
| XmppClass.XMPPServer.HandleStarttls | bumper/xmpp/xmpp.py:446-453 | The first coroutine that runs upgrades the connection and sends the proceed; the others do nothing. |
| XmppClass.XMPPServer.HandleCtl | bumper/xmpp/xmpp.py:198-254 | Answers for roster, discovery and com:sf stanzas, and the loop over the clients. |
| XmppClass.XMPPServer.HandlePing | bumper/xmpp/xmpp.py:256-282 | An answer for a ping to the server, and the loop for others. |
| XmppClass.XMPPServer.HandleResult | bumper/xmpp/xmpp.py:298-377 | The three stanzas of errno 103, or the broadcast and the loop. |
| San.CoverageIsExact | bumper/utils/certs.py:192-216 | Under single-label wildcards, the entries match exactly the roots and the hosts one label below a suffix of an accepted domain; for all hosts this holds if and only if no accepted root begins with a wildcard. |
| San.DomainsAreWanted | bumper/utils/certs.py:192-216 | Every accepted domain and every host one label below it is covered, without any proviso. |
| San.StarRootCoversStrangers | bumper/utils/certs.py:204-208 | A root that begins with a wildcard covers a host that is neither a root nor below a suffix. |
| San.OrderAndDuplicatesDoNotMatter | bumper/utils/certs.py:200-215 | The entries depend neither on the order of the domains nor on duplicates. |
| SanTree.DomainTree.SetDefault | bumper/utils/certs.py:161 | Inserting in place adds exactly one path to the tree, or none if it is there. |
| SanTree.DomainTree.AddDomain | bumper/utils/certs.py:153-161 | A domain adds exactly the paths of its suffixes of at least two labels; a single label adds none. |
| SanTree.BuildDomainTree | bumper/utils/certs.py:140-163 | The finished tree has exactly the paths of the suffixes of all accepted domains. |
| SanTree.DomainTree.GenerateWildcards | bumper/utils/certs.py:166-189 | The recursive walk adds exactly one wildcard for each suffix under its node to the set passed in. |
| SanList.CollectWildcards | bumper/utils/certs.py:200-212 | Tree and walk together give the set of roots and wildcards defined by label suffixes. |
| SanList.BuildSanList | bumper/utils/certs.py:192-216 | The list is the two fixed entries and the sorted set with its prefix. |
| SanList.ParseSanList | bumper/utils/certs.py:236-244 | Every entry is turned into the name it stands for, in order. |
| SanList.NoEntryDropped | bumper/utils/certs.py:236-244 | No entry is dropped: the names are the loopback address, localhost and exactly the entries. |
| TinyDb.FirstFinds | bumper/db/base.py:29-37 | A lookup finds a document exactly when one matches, and then the one inserted first. |
| TinyDb.ChangedMembers | bumper/db/base.py:49-58 | Adding to a list field makes the value a member and removing makes it none, with no duplicates. |
| Timestamps.SameOffsetOrder | bumper/db/tokens.py:85-86 | Under one UTC offset and for years 1 to 9999, the order of isoformat strings is the order of times, with and without microseconds. |
| Timestamps.IsoOrder | bumper/db/tokens.py:85-86 | In general the strings are ordered by local time, and then by the text of the offset. |
| Timestamps.OrdersDifferExactly | bumper/db/tokens.py:85-86 | Under any two offsets: exactly when a stamp is the smaller string without being the earlier time, and exactly when it is the earlier time without being the smaller string. |
| Timestamps.DaysOfYears | bumper/db/tokens.py:85-86 | The calendar counts 365 days a year, and one more for each leap year of the Gregorian calendar. |
| Timestamps.DaysOfMonths | bumper/db/tokens.py:85-86 | The days before each month of a year, with and without a leap day. |
| Tokens.RevokesExactly | bumper/db/tokens.py:95-101 | With any offsets, exactly the tokens stay that have not expired and over whose expiration clocks did not go forward, or that have expired and before whose expiration clocks went back. |
| Tokens.RevokesExactlyOfUser | bumper/db/tokens.py:83-89 | The same among one user's tokens, all others staying. |
| Tokens.OneOffsetOutlasts | bumper/db/tokens.py:95-101 | Under one offset the tokens that stay are exactly those whose expiry is not before now. |
| Tokens.RevokingAndVerifying | bumper/db/tokens.py:47-51 | With any offsets: when revoking takes a token that verifies, and when it leaves one that does not. |
| TokenRuns.RunSound | bumper/db/tokens.py:24-106 | Every run with fresh values, whatever the clock does, keeps ownership, one value per user, unique pairs and expiry dates. |
| TokenRuns.LookupsGiveTheOwner | bumper/db/tokens.py:65-81 | In every such run rows that share an IT token or auth code belong to one user, pairs of user and token are unique, and a lookup by value gives its owner or nobody. |
| TokenRuns.VerifiesOnlyForTheOwner | bumper/db/tokens.py:70-76 | IT tokens and auth codes verify only for the user they were issued to. |
| AuthAnswers.LastCodeVerifies | bumper/db/tokens.py:74-76 | The last auth code issued to a user verifies exactly as long as one of the tokens the user had then is stored. |
| AuthAnswers.LastItTokenVerifies | bumper/db/tokens.py:70-72 | The same for the last IT token. |
| AuthAnswers.RevokesOnlyThose | bumper/db/tokens.py:91-106 | Revoking a token, or all tokens of a user, takes exactly those, and changes no other. |
| TokenRuns.VerifiesForItsLifetime | bumper/db/tokens.py:24-51 | Whatever the clock and the zone do, a stored token verifies exactly until TOKEN_VALIDITY_SECONDS after its insertion, plus what clocks go back until the wall time of its expiration. |
| TokenRuns.VerifiedIsRecent | bumper/db/tokens.py:24-51 | Under one offset and with a steady clock, a token that verifies was inserted less than TOKEN_VALIDITY_SECONDS ago. |
| TokenRuns.SpringRevokesEarly | bumper/db/tokens.py:95-101 | A run over the change to summer time: a token inserted at 01:50 is revoked at 03:05 although it still verifies. |
| TokenRuns.AutumnKeepsExpired | bumper/db/tokens.py:95-101 | A run over the change back: a token inserted at 02:10 is still there 50 minutes after it expired. |
| TokenRuns.AutumnTokenHasExpired | bumper/db/tokens.py:24-51 | A token inserted at 02:10 for the second time that day has expired as soon as it is inserted. |
| TokenRepository.TokenRepo.Add | bumper/db/tokens.py:24-30 | A new row with its expiry, unless the pair is there already. |
| TokenRepository.TokenRepo.Verify | bumper/db/tokens.py:47-51 | A token verifies exactly when it is stored and expires after now. |
| TokenRepository.TokenRepo.AddAuthCode | bumper/db/tokens.py:53-57 | The code goes to all rows of the user, and nothing happens without a row. |
| TokenRepository.TokenRepo.AddItToken | bumper/db/tokens.py:59-63 | The same for the IT token. |
| TokenRepository.TokenRepo.RevokeUserExpired | bumper/db/tokens.py:83-89 | Removing the rows found one by one removes exactly those that match. |
| TokenRepository.TokenRepo.RevokeExpired | bumper/db/tokens.py:95-101 | The same for all users. |
| TokenRepository.TokenRepo.RevokeAllForUser | bumper/db/tokens.py:103-106 | All rows of the user go. |
| Users.AddBotsKeeps | bumper/web/auth_service.py:138-145 | After the loop the user has every bot with a did, each once, and no other user changes. |
| Users.AddUserKeeps | bumper/db/users.py:18-23 | A user that is new gets one document with its home, and nothing else changes. |
| AuthFlow.AuthAnyAnswersStoredToken | bumper/web/auth_service.py:89-132 | The answered access token is stored for the user exactly when the presented one is not an empty string to be checked, or an empty one is stored. |
| AuthFlow.LoginLeavesNoneExpired | bumper/web/auth_service.py:115-130 | After a login none of the user's tokens would be revoked; in particular the answered one, if it is stored. |
| AuthFlow.AnswerHasNotExpired | bumper/web/auth_service.py:115-130 | Under one offset, the answered token, if it is stored, verifies or expires this very moment. |
| AuthAnswers.LoginAnswersExactly | bumper/web/auth_service.py:89-132 | Once the user's expired tokens are revoked, a check of a token stored for the user answers that token and inserts nothing; any other check of a non-empty token, and every login, answers the generated token, inserted with the expiry of now. |
| AuthAnswers.StoredTokenIsAnswered | bumper/web/auth_service.py:117-130 | A presented token that is stored and not revoked is answered as it is, and the tokens are those the revocation left. |
| AuthAnswers.LoginExtendsUserExactly | bumper/web/auth_service.py:100-148 | The user, the default one if none is named, is there with the device and every bot added to what it had, or new with its home; other users stay as they are. |
| AuthFlow.GetNewAuthIssues | bumper/web/auth_service.py:212-241 | The code an IT token is traded for was issued to the user of that IT token. |
| AuthFlow.GetAuthCodeV2Issues | bumper/web/auth_service.py:247-278 | The code answered for a user was issued to that user. |
| AuthFlow.CodeResolvesToOwner | bumper/web/auth_service.py:286-292 | An auth code stands for the user it was issued to or for nobody, now and after any further run. |
| AuthFlow.ChainEndsWithItsUser | bumper/web/auth_service.py:156-292 | IT token, auth code and callback, with any run in between, end with the user they began with, or with nobody. |
| AuthFlow.LoginChainSucceeds | bumper/web/auth_service.py:89-292 | Right after a login, fetching an IT token, trading it and redeeming the code succeeds and gives the user who logged in. |
| AuthFlow.NewAuthWorksExactly | bumper/web/auth_service.py:221-231 | When get_new_auth answers and when its code works: a code found with the IT token is answered even if its tokens were just revoked, and works exactly when a token of the user that was not revoked carries a code. |
| AuthFlow.GetAuthCodeV2WorksExactly | bumper/web/auth_service.py:265-272 | It answers exactly for users with a token that is not revoked then, and its code always works. |
| AuthAnswers.ItTokenExactly | bumper/web/auth_service.py:195-202 | A user with a token gets the generated IT token, which all the user's tokens carry then. |
| AuthAnswers.NewAuthExactly | bumper/web/auth_service.py:221-231 | The first token with the IT token decides: its own non-empty code is answered and no other given, or else the generated code goes to all of its user's tokens that were not revoked. |
| AuthAnswers.NewAuthKeepsCodeInUse | bumper/web/auth_service.py:226-229 | In every run, an IT token is traded for the code in use of its user, which stays in use. |
| AuthAnswers.CodeV2Exactly | bumper/web/auth_service.py:265-272 | After the revocation, the code of the user's oldest token is answered and nothing changed; a code is generated only if that token carries none, and then goes to all tokens of the user. |
| AuthAnswers.SecondCallAgrees | bumper/web/auth_service.py:265-272 | Two calls in a row answer the same code, and the second changes nothing. |
| AuthAnswers.V2AnswersCodeInUse | bumper/web/auth_service.py:265-272 | In every run, a code carried by a token that is not revoked is the one answered, and it still resolves to its user. |
| AuthService.AuthService.AuthAny | bumper/web/auth_service.py:89-132 | The handler changes both tables and answers as the flow says, which LoginAnswersExactly and LoginExtendsUserExactly pin down. |
| AuthService.AuthService.ExtendUser | bumper/web/auth_service.py:135-148 | Device, bots and revocation, in one pass over the bots. |
| AuthService.AuthService.GenerateItToken | bumper/web/auth_service.py:195-202 | An IT token is generated only for a user with a token. |
| AuthService.AuthService.GenerateAuthCode | bumper/web/auth_service.py:394-401 | An auth code is generated only for a user with a token. |
| AuthService.AuthService.GetNewAuth | bumper/web/auth_service.py:212-241 | The handler finds the token, revokes what expired, and reuses or generates the code. |
| AuthService.AuthService.GetAuthCodeV2 | bumper/web/auth_service.py:247-278 | The handler does what CodeV2Exactly says. |

## Left out

- File output of the sniffer: dumping a packet appends to a log that cannot fail; `tcp_message` and the text that `pprint` makes are not modelled.
- Sockets, TLS, aiohttp, amqtt, aiomqtt, JWT, password hashing and certificate signing: library calls, which become steps or values.
- XML parsing and the clean-up of forwarded stanzas: a stanza is a record of what the handlers look at, and answers are named by short texts.
- Periodic pings and presence answers of XMPP, which only write to their own connection.
- `str.lower` is a parameter, so that routing holds for any such function.
- Reconnection of the helper bot: messages that arrive while it is not connected are messages that do not arrive.
- MQTT authentication apart from the creation and removal of proxy clients; a client without a proxy client is not proxied.
- Message bodies of the proxy are passed through; a cloud message that is not UTF-8 is dropped before anything else.
- The order in which `sorted` lists the entries: only that it lists each once.
- TinyDB's files and cache, and the insert branch of `upsert`, which the guards before each call of the token table rule out.
- Time zones: a zone gives the offset of a wall time as a whole number of minutes, as `ZoneInfo` does for times with fold 0; the offset of the clock itself is what the clock says. The last half hour of the year 9999 is excluded where a token is inserted.
- The login branch with USE_AUTH, which answers with a freshly generated token of the user found by device id.
- `scripts/clean-domains.py`, a copy of the domain tree.
- Users are removed and lists shortened nowhere in the modelled flow, so only additions are followed through a run.
