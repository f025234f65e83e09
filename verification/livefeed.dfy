/** The live feed of the terminal interface: the hub's event stream,
    filtered down to the messages the interface reacts to. The stream is
    given as the events it delivers and the way it ends. */
module LiveFeed {
  import opened Wrappers
  import opened Text
  import opened Farcaster
  import Enclosure

  /** How the stream ended after its last event. */
  datatype StreamEnd = Eof | StreamError(msg: string)

  /** The outcome of subscribing: a failure, or the events and the end. */
  datatype Subscription =
    | SubscribeFailed(msg: string)
    | Stream(events: seq<HubEvent>, end: StreamEnd)

  /** What the subscription produces: the error that stops the interface
      when subscribing fails, the messages sent on the message channel and
      the errors sent on the error channel, each in order. */
  datatype Feed = Feed(systemError: Option<string>, messages: seq<Message>, errors: seq<string>)

  /** An embed URL that links an enclosure. */
  predicate LinksEnclosure(e: Embed) {
    HasPrefix(Url(e), Enclosure.EnclosureScheme)
  }

  /** The loop over a cast's embeds from `i` on: the first embed that links
      an enclosure sends the cast, and the loop stops there. The result is
      how many times the cast is sent. */
  function Sends(es: seq<Embed>, i: nat): (n: nat)
    requires i <= |es|
    ensures n <= 1
    ensures n == 1 <==> exists k :: i <= k < |es| && LinksEnclosure(es[k])
    decreases |es| - i
  {
    if i == |es| then 0
    else if !LinksEnclosure(es[i]) then Sends(es, i + 1)
    else 1
  }

  /** Whether the event's message is sent on: merged casts with an enclosure
      link, and the viewer's own follows and unfollows. */
  function Forwarded(e: HubEvent, viewer: nat): (b: bool)
    ensures e.eventType != MergeMessage ==> !b
    ensures e.eventType == MergeMessage && e.message.data.msgType == CastAdd ==>
              (b <==> exists k :: 0 <= k < |CastAddBodyOf(e.message.data).embeds|
                                  && LinksEnclosure(CastAddBodyOf(e.message.data).embeds[k]))
    ensures e.eventType == MergeMessage && e.message.data.msgType in {LinkAdd, LinkRemove} ==>
              (b <==> e.message.data.fid == viewer)
    ensures e.message.data.msgType !in {CastAdd, LinkAdd, LinkRemove} ==> !b
  {
    if e.eventType != MergeMessage then false
    else
      var d := e.message.data;
      match d.msgType
      case CastAdd => Sends(CastAddBodyOf(d).embeds, 0) == 1
      case LinkAdd => d.fid == viewer
      case LinkRemove => d.fid == viewer
      case _ => false
  }

  /** The messages of the forwarded events, in stream order. */
  function Filter(events: seq<HubEvent>, viewer: nat): (ms: seq<Message>)
    ensures |ms| <= |events|
    ensures forall m :: m in ms ==> exists e :: e in events && Forwarded(e, viewer) && e.message == m
  {
    if |events| == 0 then []
    else
      var rest := Filter(events[1..], viewer);
      if Forwarded(events[0], viewer) then [events[0].message] + rest else rest
  }

  /** Filtering a stream piece by piece gives the filtered stream. */
  lemma {:induction false} FilterAppend(a: seq<HubEvent>, b: seq<HubEvent>, viewer: nat)
    ensures Filter(a + b, viewer) == Filter(a, viewer) + Filter(b, viewer)
  {
    if |a| > 0 {
      assert (a + b)[1..] == a[1..] + b;
      FilterAppend(a[1..], b, viewer);
    } else {
      assert a + b == b;
    }
  }

  /** One event contributes its message exactly when it is forwarded. */
  lemma FilterOne(e: HubEvent, viewer: nat)
    ensures Filter([e], viewer) == if Forwarded(e, viewer) then [e.message] else []
  {
    assert [e][1..] == [];
  }

  /** The number of forwarded events among `events`. */
  function CountForwarded(events: seq<HubEvent>, viewer: nat): nat {
    if |events| == 0 then 0
    else (if Forwarded(events[0], viewer) then 1 else 0) + CountForwarded(events[1..], viewer)
  }

  /** Each forwarded event is sent once and no other is sent. */
  lemma {:induction false} FilterCounts(events: seq<HubEvent>, viewer: nat)
    ensures |Filter(events, viewer)| == CountForwarded(events, viewer)
  {
    if |events| > 0 {
      FilterCounts(events[1..], viewer);
    }
  }

  /** SubscribeToFcEvents: a failed subscription becomes a system error;
      otherwise the forwarded messages, followed on a receive error other
      than end-of-stream by exactly one wrapped error. */
  function Subscribe(s: Subscription, viewer: nat): (f: Feed)
    ensures s.SubscribeFailed? ==> f == Feed(Some(s.msg), [], [])
    ensures s.Stream? ==> f.systemError.None?
    ensures s.Stream? ==> f.messages == Filter(s.events, viewer)
    ensures s.Stream? && s.end.Eof? ==> f.errors == []
    ensures s.Stream? && s.end.StreamError? ==>
              f.errors == ["error receiving from stream: " + s.end.msg]
  {
    match s
    case SubscribeFailed(e) => Feed(Some(e), [], [])
    case Stream(events, end) =>
      var errors := if end.StreamError? then ["error receiving from stream: " + end.msg] else [];
      Feed(None, Filter(events, viewer), errors)
  }

  /** The messages on the channel are exactly those of the forwarded
      events, whatever the stream delivered around them. */
  lemma SubscribeForwardsExactly(events: seq<HubEvent>, end: StreamEnd, viewer: nat, e: HubEvent)
    ensures Subscribe(Stream(events + [e], end), viewer).messages
            == Subscribe(Stream(events, end), viewer).messages + (if Forwarded(e, viewer) then [e.message] else [])
  {
    FilterAppend(events, [e], viewer);
    FilterOne(e, viewer);
  }

  /** InitFollows: every link message the hub returns for the viewer, in
      the hub's order; nothing when the query fails. */
  function InitFollows(hub: Hub, viewer: nat): (ms: seq<Message>)
    ensures hub.linksByFid(viewer).Err? ==> ms == []
    ensures hub.linksByFid(viewer).Ok? ==> ms == hub.linksByFid(viewer).value
  {
    match hub.linksByFid(viewer)
    case Err(_) => []
    case Ok(links) => links
  }
}
