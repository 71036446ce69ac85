/**
 * The p2p dispatcher: a registry from message type to the set of
 * subscribers of that type, and a set of keys of messages already
 * dispatched. Register/UnRegister edit the registry; Dispatch checks its
 * guards in a fixed order, hands the message to every matching subscriber
 * of its type, and marks it handled.
 */
module P2PDispatcher {
  import opened Wrappers
  import opened DecimalFormat
  import opened P2PMessage
  import opened P2PSubscriber

  datatype DispatchError =
    | ErrSubscriber
    | ErrRegistered
    | ErrMessageEmpty
    | ErrMessageHandled
    | ErrStreamNil
    | ErrNotRegister

  type Registry = map<MessageType, set<Subscriber>>

  datatype Dispatcher = Dispatcher(mc: Registry, handled: set<string>)

  /** The state after an operation and the error it returned (None for nil). */
  datatype Step = Step(next: Dispatcher, err: Option<DispatchError>)

  function NewDispatcher(): Dispatcher
  {
    Dispatcher(map[], {})
  }

  /** A new dispatcher has no subscriber and has handled no message. */
  lemma NewDispatcherIsEmpty(s: Subscriber, msg: Option<XuperMessage>)
    ensures WellTyped(NewDispatcher().mc)
    ensures !Registered(NewDispatcher().mc, s)
    ensures !IsHandled(NewDispatcher(), msg)
    ensures Register(NewDispatcher(), Some(s)).err.None? <==> s.typ != MsgTypeNone
  {
  }

  /** The subscribers of a type, empty when the type has no entry. */
  function SubscribersOf(mc: Registry, t: MessageType): set<Subscriber>
  {
    if t in mc then mc[t] else {}
  }

  predicate Registered(mc: Registry, s: Subscriber)
  {
    s.typ in mc && s in mc[s.typ]
  }

  /** Every subscriber is filed under its own type. */
  ghost predicate WellTyped(mc: Registry)
  {
    forall t, s :: t in mc && s in mc[t] ==> s.typ == t
  }

  /** A nil subscriber, or one for MSG_TYPE_NONE, cannot be registered or unregistered. */
  predicate Acceptable(sub: Option<Subscriber>)
  {
    sub.Some? && sub.value.typ != MsgTypeNone
  }

  /**
   * Register: ErrSubscriber for an unacceptable subscriber, ErrRegistered
   * for one already present, both without change; otherwise the subscriber
   * joins its type's set and nothing else changes.
   */
  function Register(d: Dispatcher, sub: Option<Subscriber>): (r: Step)
    ensures !Acceptable(sub) ==> r == Step(d, Some(ErrSubscriber))
    ensures Acceptable(sub) && Registered(d.mc, sub.value) ==> r == Step(d, Some(ErrRegistered))
    ensures Acceptable(sub) && !Registered(d.mc, sub.value) ==>
      && r.err.None?
      && r.next.handled == d.handled
      && r.next.mc.Keys == d.mc.Keys + {sub.value.typ}
      && r.next.mc[sub.value.typ] == SubscribersOf(d.mc, sub.value.typ) + {sub.value}
      && (forall t :: t in d.mc && t != sub.value.typ ==> r.next.mc[t] == d.mc[t])
  {
    if !Acceptable(sub) then Step(d, Some(ErrSubscriber))
    else
      var s := sub.value;
      var mc := if s.typ in d.mc then d.mc else d.mc[s.typ := {}];
      if s in mc[s.typ] then Step(d, Some(ErrRegistered))
      else Step(d.(mc := mc[s.typ := mc[s.typ] + {s}]), None)
  }

  /**
   * UnRegister: ErrSubscriber for an unacceptable subscriber, ErrNotRegister
   * when its type has no entry or it is not in that type's set, both
   * without change; otherwise exactly that subscriber leaves its type's set,
   * and the type keeps its entry.
   */
  function UnRegister(d: Dispatcher, sub: Option<Subscriber>): (r: Step)
    ensures !Acceptable(sub) ==> r == Step(d, Some(ErrSubscriber))
    ensures Acceptable(sub) && !Registered(d.mc, sub.value) ==> r == Step(d, Some(ErrNotRegister))
    ensures Acceptable(sub) && Registered(d.mc, sub.value) ==>
      && r.err.None?
      && r.next.handled == d.handled
      && r.next.mc.Keys == d.mc.Keys
      && r.next.mc[sub.value.typ] == d.mc[sub.value.typ] - {sub.value}
      && (forall t :: t in d.mc && t != sub.value.typ ==> r.next.mc[t] == d.mc[t])
  {
    if !Acceptable(sub) then Step(d, Some(ErrSubscriber))
    else
      var s := sub.value;
      if s.typ !in d.mc then Step(d, Some(ErrNotRegister))
      else if s !in d.mc[s.typ] then Step(d, Some(ErrNotRegister))
      else Step(d.(mc := d.mc[s.typ := d.mc[s.typ] - {s}]), None)
  }

  /** Register and UnRegister keep every subscriber filed under its own type. */
  lemma RegistrationKeepsWellTyped(d: Dispatcher, sub: Option<Subscriber>)
    requires WellTyped(d.mc)
    ensures WellTyped(Register(d, sub).next.mc)
    ensures WellTyped(UnRegister(d, sub).next.mc)
  {
  }

  /**
   * Registering a new subscriber and unregistering it again succeeds and
   * leaves it absent; its type keeps an entry, possibly an empty set, so the
   * registry is the original one with that type's entry made explicit.
   */
  lemma RegisterThenUnRegister(d: Dispatcher, s: Subscriber)
    requires Acceptable(Some(s)) && !Registered(d.mc, s)
    ensures
      var r1 := Register(d, Some(s));
      var r2 := UnRegister(r1.next, Some(s));
      && r1.err.None? && r2.err.None?
      && !Registered(r2.next.mc, s)
      && s.typ in r2.next.mc
      && r2.next == d.(mc := d.mc[s.typ := SubscribersOf(d.mc, s.typ)])
  {
    var r1 := Register(d, Some(s));
    var r2 := UnRegister(r1.next, Some(s));
    assert r2.next.mc[s.typ] == SubscribersOf(d.mc, s.typ);
    assert r2.next.mc == d.mc[s.typ := SubscribersOf(d.mc, s.typ)];
  }

  /** Unregistering a present subscriber and registering it again restores the dispatcher exactly. */
  lemma UnRegisterThenRegister(d: Dispatcher, s: Subscriber)
    requires Acceptable(Some(s)) && Registered(d.mc, s)
    ensures
      var r1 := UnRegister(d, Some(s));
      var r2 := Register(r1.next, Some(s));
      r1.err.None? && r2 == Step(d, None)
  {
    var r1 := UnRegister(d, Some(s));
    var r2 := Register(r1.next, Some(s));
    assert r2.next.mc[s.typ] == d.mc[s.typ];
    assert r2.next.mc == d.mc;
  }

  /** MessageKey: empty for a nil message or header, else `logid_checksum`. */
  function MessageKey(msg: Option<XuperMessage>): (k: string)
    ensures k == "" <==> msg.None? || msg.value.header.None?
  {
    if msg.None? || msg.value.header.None? then ""
    else
      var h := msg.value.header.value;
      h.logid + "_" + Decimal(h.dataCheckSum)
  }

  /** Splits a string at its last '_'; None when there is none. */
  function SplitAtLastUnderscore(s: string): (r: Option<(string, string)>)
    ensures r.Some? ==> s == r.value.0 + "_" + r.value.1 && '_' !in r.value.1
    decreases |s|
  {
    if |s| == 0 then None
    else if s[|s| - 1] == '_' then Some((s[..|s| - 1], ""))
    else
      match SplitAtLastUnderscore(s[..|s| - 1])
      case None => None
      case Some((a, b)) => Some((a, b + [s[|s| - 1]]))
  }

  /** Reads a message key back into its log id and checksum. */
  function ParseMessageKey(k: string): Option<(string, nat)>
  {
    match SplitAtLastUnderscore(k)
    case None => None
    case Some((logid, digits)) =>
      match ParseDecimal(digits)
      case None => None
      case Some(n) => Some((logid, n))
  }

  lemma {:induction false} SplitAfterUnderscore(a: string, b: string)
    requires '_' !in b
    ensures SplitAtLastUnderscore(a + "_" + b) == Some((a, b))
    decreases |b|
  {
    var s := a + "_" + b;
    if |b| == 0 {
      assert s[..|s| - 1] == a;
    } else {
      var b' := b[..|b| - 1];
      assert '_' !in b' by {
        forall i | 0 <= i < |b'| ensures b'[i] != '_' {
          assert b'[i] == b[i];
        }
      }
      SplitAfterUnderscore(a, b');
      assert s[..|s| - 1] == a + "_" + b';
      assert s[|s| - 1] == b[|b| - 1];
      assert b' + [b[|b| - 1]] == b;
    }
  }

  /** A message key names its log id and checksum: reading it back recovers both. */
  lemma MessageKeyRoundTrip(msg: Option<XuperMessage>)
    requires msg.Some? && msg.value.header.Some?
    ensures ParseMessageKey(MessageKey(msg))
      == Some((msg.value.header.value.logid, msg.value.header.value.dataCheckSum))
  {
    var h := msg.value.header.value;
    var digits := Decimal(h.dataCheckSum);
    assert '_' !in digits by {
      forall i | 0 <= i < |digits| ensures digits[i] != '_' {
        assert IsDigit(digits[i]);
      }
    }
    SplitAfterUnderscore(h.logid, digits);
    ParseDecimalOfDecimal(h.dataCheckSum);
  }

  /** Two messages with headers share a key exactly when they share log id and checksum. */
  lemma MessageKeyInjective(m1: Option<XuperMessage>, m2: Option<XuperMessage>)
    requires m1.Some? && m1.value.header.Some? && m2.Some? && m2.value.header.Some?
    ensures MessageKey(m1) == MessageKey(m2) <==>
      m1.value.header.value.logid == m2.value.header.value.logid
      && m1.value.header.value.dataCheckSum == m2.value.header.value.dataCheckSum
  {
    MessageKeyRoundTrip(m1);
    MessageKeyRoundTrip(m2);
  }

  predicate IsHandled(d: Dispatcher, msg: Option<XuperMessage>)
  {
    MessageKey(msg) in d.handled
  }

  /**
   * Whether a message counts as handled depends only on its log id and
   * checksum; a nil message and one without a header are handled alike.
   */
  lemma IsHandledByLogidAndChecksum(d: Dispatcher, m1: Option<XuperMessage>, m2: Option<XuperMessage>)
    requires m1.Some? && m1.value.header.Some? && m2.Some? && m2.value.header.Some?
    requires m1.value.header.value.logid == m2.value.header.value.logid
    requires m1.value.header.value.dataCheckSum == m2.value.header.value.dataCheckSum
    ensures IsHandled(d, m1) <==> IsHandled(d, m2)
    ensures IsHandled(d, None) <==> IsHandled(d, Some(XuperMessage(None, m1.value.data)))
  {
  }

  function MaskHandled(d: Dispatcher, msg: Option<XuperMessage>): (d': Dispatcher)
    ensures IsHandled(d', msg)
    ensures d'.mc == d.mc
    ensures forall m :: IsHandled(d', m) <==> IsHandled(d, m) || MessageKey(m) == MessageKey(msg)
  {
    d.(handled := d.handled + {MessageKey(msg)})
  }

  /** A message with a header and a body: anything less is ErrMessageEmpty. */
  predicate Complete(msg: Option<XuperMessage>)
  {
    msg.Some? && msg.value.header.Some? && msg.value.data.Some?
  }

  /** The result of Dispatch: next state, error, and the subscribers the message was handed to. */
  datatype Delivery = Delivery(next: Dispatcher, err: Option<DispatchError>, recipients: set<Subscriber>)

  /**
   * Dispatch, with `hasStream` false for a nil stream. Guards in order:
   * empty message, already handled, nil stream, unregistered type.
   */
  function Dispatch(d: Dispatcher, msg: Option<XuperMessage>, hasStream: bool): (r: Delivery)
    ensures !Complete(msg) ==> r.err == Some(ErrMessageEmpty)
    ensures Complete(msg) && IsHandled(d, msg) ==> r.err == Some(ErrMessageHandled)
    ensures Complete(msg) && !IsHandled(d, msg) && !hasStream ==> r.err == Some(ErrStreamNil)
    ensures Complete(msg) && !IsHandled(d, msg) && hasStream && msg.value.header.value.typ !in d.mc
            ==> r.err == Some(ErrNotRegister)
    ensures Complete(msg) && !IsHandled(d, msg) && hasStream && msg.value.header.value.typ in d.mc
            ==> r.err.None?
    ensures r.err.Some? ==> r.next == d && r.recipients == {}
    ensures r.err.None? ==>
      && Complete(msg)
      && r.next == MaskHandled(d, msg)
      && (forall s :: s in r.recipients <==>
            s in SubscribersOf(d.mc, msg.value.header.value.typ) && Match(s, msg.value))
  {
    if !Complete(msg) then Delivery(d, Some(ErrMessageEmpty), {})
    else if IsHandled(d, msg) then Delivery(d, Some(ErrMessageHandled), {})
    else if !hasStream then Delivery(d, Some(ErrStreamNil), {})
    else
      var t := msg.value.header.value.typ;
      if t !in d.mc then Delivery(d, Some(ErrNotRegister), {})
      else
        var recipients := set s | s in d.mc[t] && Match(s, msg.value);
        Delivery(MaskHandled(d, msg), None, recipients)
  }

  /** Once dispatched, the same message is refused as handled, whatever the stream. */
  lemma RedispatchIsRefused(d: Dispatcher, msg: Option<XuperMessage>, hasStream: bool, again: bool)
    requires Dispatch(d, msg, hasStream).err.None?
    ensures
      var d' := Dispatch(d, msg, hasStream).next;
      Dispatch(d', msg, again) == Delivery(d', Some(ErrMessageHandled), {})
  {
  }

  /**
   * Dispatching one message marks no other message handled unless the two
   * share log id and checksum.
   */
  lemma DispatchMarksOnlyItsKey(d: Dispatcher, msg: Option<XuperMessage>, hasStream: bool, other: Option<XuperMessage>)
    requires Dispatch(d, msg, hasStream).err.None? && Complete(other)
    requires other.value.header.value.logid != msg.value.header.value.logid
          || other.value.header.value.dataCheckSum != msg.value.header.value.dataCheckSum
    ensures IsHandled(Dispatch(d, msg, hasStream).next, other) <==> IsHandled(d, other)
  {
    MessageKeyInjective(msg, other);
  }

  /** In a well-typed registry every recipient has the message's type and accepts its sender. */
  lemma RecipientsListenToTheMessage(d: Dispatcher, msg: Option<XuperMessage>, hasStream: bool)
    requires WellTyped(d.mc)
    ensures
      var r := Dispatch(d, msg, hasStream);
      forall s :: s in r.recipients ==>
        && s.typ == msg.value.header.value.typ
        && Registered(d.mc, s)
        && (s.from == "" || s.from == GetFrom(msg.value))
  {
  }
}
