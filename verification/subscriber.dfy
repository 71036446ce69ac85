/**
 * A p2p subscriber: the message type it listens to, an optional sender
 * filter, and where messages go (a handler that answers on the stream or
 * a channel). Subscribers are pointers in the source, so two subscribers
 * are the same only if they are the same allocation; `id` stands for that
 * identity.
 */
module P2PSubscriber {
  import opened Wrappers
  import opened P2PMessage

  /** Where a subscriber hands messages; the payloads name the handler object or channel. */
  datatype Sink = ToHandler(handler: nat) | ToChannel(channel: nat)

  datatype Subscriber = Subscriber(id: nat, typ: MessageType, from: string, sink: Sink)

  /**
   * The untyped `v` given to NewSubscriber: a value implementing Handler, a
   * `chan *XuperMessage` (None for a nil channel), or anything else.
   */
  datatype Endpoint = HandlerValue(handler: nat) | ChannelValue(channel: Option<nat>) | OtherValue

  /** The option closures this file defines; WithFrom is the only one. */
  datatype SubscriberOption = WithFrom(from: string)

  function ApplyOption(s: Subscriber, opt: SubscriberOption): Subscriber
  {
    match opt
    case WithFrom(f) => s.(from := f)
  }

  /** Applies the options in order; only the sender filter can change. */
  function ApplyOptions(s: Subscriber, opts: seq<SubscriberOption>): (r: Subscriber)
    ensures r.id == s.id && r.typ == s.typ && r.sink == s.sink
    decreases |opts|
  {
    if |opts| == 0 then s else ApplyOptions(ApplyOption(s, opts[0]), opts[1..])
  }

  /** With several WithFrom options the last one wins; with none the filter is kept. */
  lemma {:induction false} LastOptionWins(s: Subscriber, opts: seq<SubscriberOption>)
    ensures ApplyOptions(s, opts).from == if |opts| == 0 then s.from else opts[|opts| - 1].from
    decreases |opts|
  {
    if |opts| > 1 {
      LastOptionWins(ApplyOption(s, opts[0]), opts[1..]);
      assert opts[1..][|opts[1..]| - 1] == opts[|opts| - 1];
    }
  }

  /**
   * NewSubscriber: a subscriber only for a handler or a non-nil channel;
   * the type is the one given, the sender filter starts empty and the
   * options are applied to it.
   */
  function NewSubscriber(id: nat, typ: MessageType, v: Endpoint, opts: seq<SubscriberOption>): (r: Option<Subscriber>)
    ensures r.Some? <==> v.HandlerValue? || (v.ChannelValue? && v.channel.Some?)
    ensures r.Some? ==> r.value.id == id && r.value.typ == typ
    ensures r.Some? && v.HandlerValue? ==> r.value.sink == ToHandler(v.handler)
    ensures r.Some? && v.ChannelValue? ==> r.value.sink == ToChannel(v.channel.value)
  {
    match v
    case OtherValue => None
    case ChannelValue(None) => None
    case ChannelValue(Some(c)) => Some(ApplyOptions(Subscriber(id, typ, "", ToChannel(c)), opts))
    case HandlerValue(h) => Some(ApplyOptions(Subscriber(id, typ, "", ToHandler(h)), opts))
  }

  function GetMessageType(s: Subscriber): MessageType
  {
    s.typ
  }

  /** A constructed subscriber reports the type it was built with and filters on the last WithFrom. */
  lemma NewSubscriberFields(id: nat, typ: MessageType, v: Endpoint, opts: seq<SubscriberOption>)
    requires NewSubscriber(id, typ, v, opts).Some?
    ensures GetMessageType(NewSubscriber(id, typ, v, opts).value) == typ
    ensures NewSubscriber(id, typ, v, opts).value.from == if |opts| == 0 then "" else opts[|opts| - 1].from
  {
    match v
    case ChannelValue(Some(c)) => LastOptionWins(Subscriber(id, typ, "", ToChannel(c)), opts);
    case HandlerValue(h) => LastOptionWins(Subscriber(id, typ, "", ToHandler(h)), opts);
  }

  /** Match: a subscriber takes a message unless it filters on a different sender. */
  function Match(s: Subscriber, msg: XuperMessage): (ok: bool)
    ensures ok <==> s.from == "" || s.from == GetFrom(msg)
  {
    if s.from != "" && s.from != GetFrom(msg) then false else true
  }

  /**
   * A subscriber built without a WithFrom option (or with a last WithFrom of
   * "") takes every message; otherwise exactly the messages from that sender.
   */
  lemma MatchOfNewSubscriber(id: nat, typ: MessageType, v: Endpoint, opts: seq<SubscriberOption>, msg: XuperMessage)
    requires NewSubscriber(id, typ, v, opts).Some?
    ensures |opts| == 0 ==> Match(NewSubscriber(id, typ, v, opts).value, msg)
    ensures |opts| > 0 ==>
      (Match(NewSubscriber(id, typ, v, opts).value, msg) <==>
         opts[|opts| - 1].from == "" || opts[|opts| - 1].from == GetFrom(msg))
  {
    NewSubscriberFields(id, typ, v, opts);
  }

  datatype HandleError = ErrHandlerError | ErrResponseNil | ErrStreamSendError | ErrChannelBlock

  /** What the user handler did: failed, or returned a response (None for nil). */
  datatype HandlerOutcome = HandlerFailed | HandlerReturned(resp: Option<XuperMessage>)

  /**
   * The end of the handler branch: the response went out on the stream, or
   * an error with the message handed to the stream if one was, or a nil
   * header was dereferenced.
   */
  datatype HandleResult =
    | Sent(resp: XuperMessage)
    | Failed(err: HandleError, attempted: Option<XuperMessage>)
    | NilHeaderPanic

  /** The response with its header's log id replaced by the request's. */
  function StampLogid(resp: XuperMessage, logid: string): XuperMessage
    requires resp.header.Some?
  {
    resp.(header := Some(resp.header.value.(logid := logid)))
  }

  /** The handler returned a response, and both it and the request have a header to copy the log id between. */
  predicate Stampable(msg: XuperMessage, outcome: HandlerOutcome)
  {
    outcome.HandlerReturned? && outcome.resp.Some? && outcome.resp.value.header.Some? && msg.header.Some?
  }

  /**
   * The handler branch of HandleMessage, given the handler's outcome and
   * whether stream.Send fails. Copying the log id dereferences both
   * headers, so a returned response with a nil header on either side panics.
   */
  function HandleWithHandler(msg: XuperMessage, outcome: HandlerOutcome, sendFails: bool): (r: HandleResult)
    ensures outcome.HandlerFailed? ==> r == Failed(ErrHandlerError, None)
    ensures outcome == HandlerReturned(None) ==> r == Failed(ErrResponseNil, None)
    ensures r.NilHeaderPanic? <==> outcome.HandlerReturned? && outcome.resp.Some? && !Stampable(msg, outcome)
    ensures r.Sent? <==> Stampable(msg, outcome) && !sendFails
    ensures Stampable(msg, outcome) && sendFails ==> r.Failed? && r.err == ErrStreamSendError
    ensures r.Sent? ==> r.resp.header.Some? && msg.header.Some?
                        && r.resp.header.value.logid == msg.header.value.logid
    ensures r.Failed? && r.err == ErrStreamSendError ==> sendFails && r.attempted.Some?
  {
    match outcome
    case HandlerFailed => Failed(ErrHandlerError, None)
    case HandlerReturned(None) => Failed(ErrResponseNil, None)
    case HandlerReturned(Some(resp)) =>
      if resp.header.None? || msg.header.None? then NilHeaderPanic
      else
        var stamped := StampLogid(resp, msg.header.value.logid);
        if sendFails then Failed(ErrStreamSendError, Some(stamped)) else Sent(stamped)
  }

  /**
   * What goes on the stream is the handler's response changed only in the
   * header's log id: sender, type, checksum, chain name and body are the
   * handler's.
   */
  lemma SentIsStampedResponse(msg: XuperMessage, resp: XuperMessage, sendFails: bool)
    requires resp.header.Some? && msg.header.Some?
    ensures
      var r := HandleWithHandler(msg, HandlerReturned(Some(resp)), sendFails);
      var out := if r.Sent? then r.resp else r.attempted.value;
      && (r.Sent? || (r.Failed? && r.attempted.Some?))
      && out.data == resp.data
      && out.header.Some?
      && out.header.value == resp.header.value.(logid := msg.header.value.logid)
  {
  }

  /** What the channel branch did with the message. */
  datatype ChannelOutcome = Delivered | Dropped | Blocked

  /**
   * The channel branch of HandleMessage: a `select` with a default case, so
   * it never waits. `ctxDone` says the operation context is already done
   * (then the fresh 3-second timeout is done too), `channelReady` that the
   * channel can take the message now, and `pickTimeout` which ready case
   * Go's select picks when both are.
   */
  function HandleWithChannel(ctxDone: bool, channelReady: bool, pickTimeout: bool): (r: ChannelOutcome)
    ensures r == Blocked ==> ctxDone
    ensures r == Delivered ==> channelReady
    ensures r == Dropped <==> !ctxDone && !channelReady
    ensures ctxDone != channelReady ==> (r == Blocked <==> ctxDone)
  {
    if ctxDone && (!channelReady || pickTimeout) then Blocked
    else if channelReady then Delivered
    else Dropped
  }

  /** The conditions HandleMessage runs under: what the handler, stream and channel do. */
  datatype Environment = Environment(
    outcome: HandlerOutcome,
    sendFails: bool,
    ctxDone: bool,
    channelReady: bool,
    pickTimeout: bool)

  /** What HandleMessage returned (None for nil), or a nil-header panic. */
  datatype Handled = Returned(err: Option<HandleError>) | Panicked

  /**
   * HandleMessage: a handler subscriber runs the handler branch, a channel
   * subscriber the channel branch; a dropped message is not an error.
   */
  function HandleMessage(s: Subscriber, msg: XuperMessage, env: Environment): (r: Handled)
    ensures s.sink.ToChannel? ==> r.Returned? && (r.err.Some? ==> r.err.value == ErrChannelBlock && env.ctxDone)
    ensures s.sink.ToChannel? && !env.ctxDone ==> r == Returned(None)
    ensures s.sink.ToChannel? ==>
      (r == Returned(Some(ErrChannelBlock)) <==> HandleWithChannel(env.ctxDone, env.channelReady, env.pickTimeout) == Blocked)
    ensures s.sink.ToHandler? ==> r != Returned(Some(ErrChannelBlock))
    ensures s.sink.ToHandler? && env.outcome.HandlerFailed? ==> r == Returned(Some(ErrHandlerError))
    ensures s.sink.ToHandler? && env.outcome == HandlerReturned(None) ==> r == Returned(Some(ErrResponseNil))
    ensures s.sink.ToHandler? ==>
      (r == Panicked <==> env.outcome.HandlerReturned? && env.outcome.resp.Some? && !Stampable(msg, env.outcome))
    ensures s.sink.ToHandler? ==>
      (r == Returned(Some(ErrStreamSendError)) <==> Stampable(msg, env.outcome) && env.sendFails)
    ensures s.sink.ToHandler? ==> (r == Returned(None) <==> Stampable(msg, env.outcome) && !env.sendFails)
  {
    match s.sink
    case ToHandler(_) =>
      (match HandleWithHandler(msg, env.outcome, env.sendFails)
       case Sent(_) => Returned(None)
       case Failed(e, _) => Returned(Some(e))
       case NilHeaderPanic => Panicked)
    case ToChannel(_) =>
      if HandleWithChannel(env.ctxDone, env.channelReady, env.pickTimeout) == Blocked
      then Returned(Some(ErrChannelBlock))
      else Returned(None)
  }

  /**
   * A handler subscriber given a message with a header fails exactly when
   * its handler fails, returns nil, or the stream refuses a response that
   * has a header.
   */
  lemma HandlerErrors(s: Subscriber, msg: XuperMessage, env: Environment)
    requires s.sink.ToHandler? && msg.header.Some?
    ensures
      (HandleMessage(s, msg, env).Returned? && HandleMessage(s, msg, env).err.Some?) <==>
        || env.outcome.HandlerFailed?
        || env.outcome == HandlerReturned(None)
        || (env.sendFails && env.outcome.resp.value.header.Some?)
  {
  }
}
