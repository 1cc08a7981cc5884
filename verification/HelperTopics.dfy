/**
 Topics of the helper bot (bumper/mqtt/helper_bot.py): the command topic, the subscriptions, and what
 _on_message makes of a topic.
 */
module HelperTopics {
  import opened Results
  import opened Text

  /** The attributes of MQTTCommandModel that make the topic; one that is missing prints as None. */
  datatype Command = Command(
    requestId: string, payloadType: string,
    cmdName: Option<string>, did: Option<string>, toType: Option<string>, toRes: Option<string>)
  {
    function TopicParts(): seq<string> {
      ["iot", "p2p", Str(cmdName)] + HELPER_BOT + [Str(did), Str(toType), Str(toRes), "q", requestId, payloadType]
    }

    function CreateTopic(): string {
      Join(TopicParts(), '/')
    }

    /** No attribute brings a slash of its own. */
    predicate Plain() {
      && !Has(requestId, '/') && !Has(payloadType, '/')
      && !Has(Str(cmdName), '/') && !Has(Str(did), '/') && !Has(Str(toType), '/') && !Has(Str(toRes), '/')
    }

    /** The topic on which the addressed bot answers: sender and receiver change places, q becomes p. */
    function ReplyTopic(): string {
      Join(ReplyParts(), '/')
    }

    function ReplyParts(): seq<string> {
      ["iot", "p2p", Str(cmdName), Str(did), Str(toType), Str(toRes)] + HELPER_BOT + ["p", requestId, payloadType]
    }
  }

  /** HELPER_BOT_CLIENT_ID_MQTT, by its parts. */
  const HELPER_BOT := ["helperbot", "bumper", "helperbot"]

  const REPLIES := ["iot", "p2p", "+", "+", "+", "+"] + HELPER_BOT + ["+", "+", "+"]

  const REPORTS := ["iot", "atr", "+", "+", "+", "+", "+"]

  function Str(s: Option<string>): string {
    if s.Some? then s.value else "None"
  }

  /** Whether a topic matches a filter that has single-level wildcards only. */
  predicate Matches(filter: seq<string>, topic: string) {
    var parts := Split(topic, '/');
    |parts| == |filter| && forall k :: 0 <= k < |filter| ==> filter[k] == "+" || filter[k] == parts[k]
  }

  /** What _on_message does with a topic: hand the payload to a command, log a report, nothing, or fail with IndexError. */
  datatype Handling = Answer(id: string) | CleanLog(did: string, rid: string) | Ignore | Fail

  function Handle(topic: string, registered: set<string>): Handling {
    var parts := Split(topic, '/');
    if |parts| <= 1 then Fail
    else if parts[1] == "p2p" then
      if |parts| <= 10 then Fail else if parts[10] in registered then Answer(parts[10]) else Ignore
    else if parts[1] == "atr" then
      if |parts| <= 2 then Fail
      else if parts[2] == "onStats" || parts[2] == "reportStats" then
        if |parts| <= 5 then Fail else CleanLog(parts[3], parts[5])
      else if |parts| <= 6 then Fail
      else Ignore
    else Ignore
  }

  /** A message answers a command with this id: part 1 is p2p and part 10 is the id. */
  predicate Answers(topic: string, id: string) {
    var parts := Split(topic, '/');
    |parts| > 10 && parts[1] == "p2p" && parts[10] == id
  }

  lemma TopicPartsPlain(c: Command)
    ensures c.Plain() <==> forall part :: part in c.TopicParts() ==> !Has(part, '/')
  {
    var parts := c.TopicParts();
    assert parts[2] == Str(c.cmdName) && parts[6] == Str(c.did) && parts[7] == Str(c.toType) && parts[8] == Str(c.toRes);
    assert parts[10] == c.requestId && parts[11] == c.payloadType;
    assert forall k :: k in {2, 6, 7, 8, 10, 11} ==> parts[k] in parts;
  }

  /** A slash in an attribute always makes the topic longer, so that no subscription of twelve parts matches it. */
  lemma TwelvePartsExactlyWhenPlain(c: Command)
    ensures |Split(c.CreateTopic(), '/')| >= 12
    ensures |Split(c.CreateTopic(), '/')| == 12 <==> c.Plain()
  {
    TopicPartsPlain(c);
    AsManyPartsExactlyWhenPlain(c.TopicParts(), '/');
  }

  lemma PlainTopicSplits(c: Command)
    requires c.Plain()
    ensures Split(c.CreateTopic(), '/') == c.TopicParts() && Answers(c.CreateTopic(), c.requestId)
  {
    TopicPartsPlain(c);
    SplitJoin(c.TopicParts(), '/');
  }

  /** The topic has these twelve parts exactly if no attribute has a slash. */
  lemma CommandTopicParts(c: Command)
    ensures var parts := Split(c.CreateTopic(), '/');
            (&& |parts| == 12
             && parts[0] == "iot" && parts[1] == "p2p" && parts[2] == Str(c.cmdName)
             && parts[3] == "helperbot" && parts[4] == "bumper" && parts[5] == "helperbot"
             && parts[6] == Str(c.did) && parts[7] == Str(c.toType) && parts[8] == Str(c.toRes)
             && parts[9] == "q" && parts[10] == c.requestId && parts[11] == c.payloadType)
            <==> c.Plain()
  {
    TwelvePartsExactlyWhenPlain(c);
    if c.Plain() { PlainTopicSplits(c); }
  }

  /** What a device subscribes to for the commands addressed to it. */
  function CommandsTo(did: string, toType: string, toRes: string): seq<string> {
    ["iot", "p2p", "+", "+", "+", "+", did, toType, toRes, "q", "+", "+"]
  }

  /** The topic reaches the device the command names, and no other, exactly if no attribute has a slash. */
  lemma CommandReachesDevice(c: Command, did: string, toType: string, toRes: string)
    requires did != "+" && toType != "+" && toRes != "+"
    ensures Matches(CommandsTo(did, toType, toRes), c.CreateTopic())
            <==> c.Plain() && did == Str(c.did) && toType == Str(c.toType) && toRes == Str(c.toRes)
  {
    TwelvePartsExactlyWhenPlain(c);
    if c.Plain() {
      CommandTopicParts(c);
      var filter := CommandsTo(did, toType, toRes);
      assert filter[6] == did && filter[7] == toType && filter[8] == toRes;
    }
  }

  /** The answer's topic is the command's with sender and receiver exchanged, and p for q. */
  lemma ReplyMirrorsCommand(c: Command)
    ensures var q, r := Split(c.CreateTopic(), '/'), Split(c.ReplyTopic(), '/');
            (&& |q| == |r| == 12 && r[..3] == q[..3] && r[3..6] == q[6..9] && r[6..9] == q[3..6]
             && q[9] == "q" && r[9] == "p" && r[10..] == q[10..])
            <==> c.Plain()
  {
    TwelvePartsExactlyWhenPlain(c);
    if c.Plain() {
      PlainTopicSplits(c);
      ReplyPartsPlain(c);
      SplitJoin(c.ReplyParts(), '/');
    }
  }

  /** A report is logged for the robot it comes from exactly if it is about statistics; other reports are passed over. */
  lemma ReportsAreLogged(topic: string, registered: set<string>)
    requires Matches(["iot", "atr", "+", "+", "+", "+", "+"], topic)
    ensures var parts := Split(topic, '/');
            Handle(topic, registered)
            == if parts[2] == "onStats" || parts[2] == "reportStats" then CleanLog(parts[3], parts[5]) else Ignore
  {
    var filter, parts := ["iot", "atr", "+", "+", "+", "+", "+"], Split(topic, '/');
    assert filter[1] == "atr" && parts[1] == filter[1];
  }

  lemma ReplyPartsPlain(c: Command)
    ensures c.Plain() <==> forall part :: part in c.ReplyParts() ==> !Has(part, '/')
  {
    var to := c.ReplyParts();
    assert to[2] == Str(c.cmdName) && to[3] == Str(c.did) && to[4] == Str(c.toType) && to[5] == Str(c.toRes);
    assert to[10] == c.requestId && to[11] == c.payloadType;
    assert forall k :: k in {2, 3, 4, 5, 10, 11} ==> to[k] in to;
  }

  /** The answer to a command reaches the helper bot and is recognised by the command's id exactly if no attribute has a slash. */
  lemma ReplyReachesCommand(c: Command, registered: set<string>)
    requires c.requestId in registered
    ensures Matches(REPLIES, c.ReplyTopic()) && Handle(c.ReplyTopic(), registered) == Answer(c.requestId) <==> c.Plain()
  {
    ReplyPartsPlain(c);
    AsManyPartsExactlyWhenPlain(c.ReplyParts(), '/');
    if c.Plain() { SplitJoin(c.ReplyParts(), '/'); }
  }

  /** The bot hears its own command exactly when no attribute has a slash and the command is addressed to the bot itself. */
  lemma OwnCommandHeard(c: Command)
    ensures Matches(REPLIES, c.CreateTopic()) <==> c.Plain() && [Str(c.did), Str(c.toType), Str(c.toRes)] == HELPER_BOT
  {
    TwelvePartsExactlyWhenPlain(c);
    if c.Plain() {
      CommandTopicParts(c);
      RepliesMatched(c.CreateTopic());
    }
  }

  /** The subscription to answers fixes the first two parts and the three parts of the receiver. */
  lemma RepliesMatched(topic: string)
    requires |Split(topic, '/')| == 12
    ensures var parts := Split(topic, '/');
            Matches(REPLIES, topic) <==>
              parts[0] == "iot" && parts[1] == "p2p" && [parts[6], parts[7], parts[8]] == HELPER_BOT
  {
    var parts := Split(topic, '/');
    assert REPLIES == ["iot", "p2p", "+", "+", "+", "+", "helperbot", "bumper", "helperbot", "+", "+", "+"];
    if Matches(REPLIES, topic) {
      assert parts[6] == REPLIES[6] && parts[7] == REPLIES[7] && parts[8] == REPLIES[8];
      assert parts[0] == REPLIES[0] && parts[1] == REPLIES[1];
    }
  }

  /** No topic the bot is subscribed to makes the handler fail on an index. */
  lemma SubscribedTopicsAreLongEnough(topic: string, registered: set<string>)
    requires Matches(REPLIES, topic) || Matches(REPORTS, topic)
    ensures Handle(topic, registered) != Fail
  {
    var parts := Split(topic, '/');
    if Matches(REPLIES, topic) {
      assert REPLIES[1] == "p2p" && parts[1] == REPLIES[1];
    } else {
      assert REPORTS[1] == "atr" && parts[1] == REPORTS[1];
    }
  }
}
