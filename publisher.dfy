/** The guarded publisher (RabbitMqPublisher): validate an event descriptor
    in a fixed order, then hand the payload to the transport exactly once and
    keep any transport failure from reaching the caller. */
module Publisher {
  import opened Events

  /** Java's String.trim() drops leading characters whose code is at most
      U+0020; this is its first half. */
  function TrimStart(s: string): (r: string)
    ensures |r| <= |s| && r == s[|s| - |r|..]
    ensures forall i :: 0 <= i < |s| - |r| ==> s[i] <= ' '
    ensures r != [] ==> r[0] > ' '
  {
    if s != [] && s[0] <= ' ' then TrimStart(s[1..]) else s
  }

  /** The second half of String.trim(): drop trailing characters whose code
      is at most U+0020. */
  function TrimEnd(s: string): (r: string)
    ensures |r| <= |s| && r == s[..|r|]
    ensures forall i :: |r| <= i < |s| ==> s[i] <= ' '
    ensures r != [] ==> r[|r| - 1] > ' '
  {
    if s != [] && s[|s| - 1] <= ' ' then TrimEnd(s[..|s| - 1]) else s
  }

  /** Java's String.trim(): what is left has no blank character at either end. */
  function Trim(s: string): (r: string)
    ensures r != [] ==> r[0] > ' ' && r[|r| - 1] > ' '
  {
    TrimEnd(TrimStart(s))
  }

  lemma TrimStartSplits(s: string)
    ensures var pre := s[..|s| - |TrimStart(s)|]; s == pre + TrimStart(s) && AllBlankChars(pre)
  {
  }

  lemma TrimEndSplits(t: string)
    ensures var post := t[|TrimEnd(t)|..]; t == TrimEnd(t) + post && AllBlankChars(post)
  {
    var r := TrimEnd(t);
    var post := t[|r|..];
    forall k | 0 <= k < |post| ensures post[k] <= ' ' {
      assert post[k] == t[|r| + k];
    }
  }

  /** trim() only removes blanks, and only from the two ends: the input is the
      trimmed string between a blank prefix and a blank suffix. */
  lemma TrimDropsBlankEnds(s: string) returns (pre: string, post: string)
    ensures s == pre + Trim(s) + post
    ensures AllBlankChars(pre) && AllBlankChars(post)
  {
    var t := TrimStart(s);
    TrimStartSplits(s);
    TrimEndSplits(t);
    pre, post := s[..|s| - |t|], t[|TrimEnd(t)|..];
    calc {
      s;
      pre + t;
      pre + (TrimEnd(t) + post);
      pre + Trim(s) + post;
    }
  }

  /** Every character is a space or a control character (code at most U+0020). */
  predicate AllBlankChars(s: string)
  {
    forall i :: 0 <= i < |s| ==> s[i] <= ' '
  }

  /** A string trims to nothing exactly when all its characters are at most
      U+0020. */
  lemma TrimEmptyIffAllBlank(s: string)
    ensures Trim(s) == [] <==> AllBlankChars(s)
  {
  }

  /** The check `str == null || str.trim().isEmpty()`. */
  predicate NullOrBlank(str: JString)
    ensures NullOrBlank(str) <==> str.Null? || AllBlankChars(str.value)
  {
    str.Null? || Trim(str.value) == []
  }

  /** Why a descriptor was refused; the missing-field cases carry the name
      used in the diagnostic. */
  datatype Reason = NullEvent | NoExchange(eventName: string) | NoRoutingKey(eventName: string)

  datatype Validation = Valid | Invalid(reason: Reason)

  /** The name a diagnostic shows: the event's name, or "Unnamed Event". */
  function DiagnosticName(event: EventMetadata): (name: string)
    ensures event.name.Ref? ==> name == event.name.value
    ensures event.name.Null? ==> name == "Unnamed Event"
  {
    if event.name.Ref? then event.name.value else "Unnamed Event"
  }

  /** isValid with its diagnostic: null event first, then the exchange, then
      the routing key; the first failure decides. */
  function Validate(event: Nullable<EventMetadata>): (v: Validation)
    ensures v == Invalid(NullEvent) <==> event.Null?
    ensures event.Ref? ==>
      var e := event.value;
      && (v == Invalid(NoExchange(DiagnosticName(e)))
          <==> e.exchange.Null? || AllBlankChars(e.exchange.value))
      && (v == Invalid(NoRoutingKey(DiagnosticName(e)))
          <==> e.exchange.Ref? && !AllBlankChars(e.exchange.value)
               && (e.key.Null? || AllBlankChars(e.key.value)))
    ensures v == Valid <==>
      event.Ref? && event.value.exchange.Ref? && !AllBlankChars(event.value.exchange.value)
      && event.value.key.Ref? && !AllBlankChars(event.value.key.value)
    ensures v.Invalid? && !v.reason.NullEvent? ==>
      v.reason.eventName == (if event.value.name.Ref? then event.value.name.value else "Unnamed Event")
  {
    if event.Null? then Invalid(NullEvent)
    else
      var e := event.value;
      var eventName := DiagnosticName(e);
      if NullOrBlank(e.exchange) then Invalid(NoExchange(eventName))
      else if NullOrBlank(e.key) then Invalid(NoRoutingKey(eventName))
      else Valid
  }

  /** isValid: true exactly when the event is present and both its exchange
      and its routing key are present and not blank. */
  predicate IsValid(event: Nullable<EventMetadata>)
    ensures IsValid(event) <==>
      event.Ref? && !(event.value.exchange.Null? || AllBlankChars(event.value.exchange.value))
      && !(event.value.key.Null? || AllBlankChars(event.value.key.value))
  {
    Validate(event) == Valid
  }

  /** A descriptor that lacks both an exchange and a routing key is reported
      for its exchange: the checks run in order and stop at the first failure. */
  lemma ExchangeCheckedBeforeKey(e: EventMetadata)
    requires e.exchange.Null? || AllBlankChars(e.exchange.value)
    requires e.key.Null? || AllBlankChars(e.key.value)
    ensures Validate(Ref(e)) == Invalid(NoExchange(DiagnosticName(e)))
  {
  }

  /** One call to convertAndSend: the exchange, the routing key, the payload. */
  datatype Message<P> = Message(exchange: string, routingKey: string, payload: P)

  /** The transport (RabbitTemplate). Whether a call fails is decided outside
      this model and given as an argument; every call is recorded. */
  class RabbitTemplate<P> {
    ghost var calls: seq<Message<P>>

    constructor ()
      ensures calls == []
    {
      calls := [];
    }

    /** convertAndSend: returns false where the Java call throws. */
    method ConvertAndSend(exchange: string, routingKey: string, payload: P, fails: bool) returns (ok: bool)
      modifies this
      ensures calls == old(calls) + [Message(exchange, routingKey, payload)]
      ensures ok == !fails
    {
      calls := calls + [Message(exchange, routingKey, payload)];
      ok := !fails;
    }
  }

  /** What send did: refused the descriptor, handed the payload over, or had
      the transport fail (the failure is caught and reported, never thrown). */
  datatype SendOutcome = Rejected(reason: Reason) | Sent | TransportFailed

  class RabbitMqPublisher<P> {
    const rabbitTemplate: RabbitTemplate<P>

    constructor (rabbitTemplate: RabbitTemplate<P>)
      ensures this.rabbitTemplate == rabbitTemplate
    {
      this.rabbitTemplate := rabbitTemplate;
    }

    /** send: an invalid descriptor never reaches the transport; a valid one
        reaches it exactly once with its exchange, its routing key and the
        payload, and a transport failure ends in TransportFailed, with no retry. */
    method Send(event: Nullable<EventMetadata>, payload: P, transportFails: bool) returns (outcome: SendOutcome)
      modifies rabbitTemplate
      ensures !IsValid(event) ==>
        outcome == Rejected(Validate(event).reason) && rabbitTemplate.calls == old(rabbitTemplate.calls)
      ensures IsValid(event) ==>
        && rabbitTemplate.calls == old(rabbitTemplate.calls)
             + [Message(event.value.exchange.value, event.value.key.value, payload)]
        && outcome == (if transportFails then TransportFailed else Sent)
    {
      var validation := Validate(event);
      if validation.Invalid? {
        return Rejected(validation.reason);
      }
      var exchange := event.value.exchange.value;
      var routingKey := event.value.key.value;
      var ok := rabbitTemplate.ConvertAndSend(exchange, routingKey, payload, transportFails);
      outcome := if ok then Sent else TransportFailed;
    }
  }

  /** A caller publishing twice: an event with an empty exchange is refused
      without reaching the transport, then a valid event whose transport call
      fails comes back as TransportFailed and the caller carries on. */
  method PublishScenario(template: RabbitTemplate<int>)
    modifies template
    ensures template.calls == old(template.calls) + [Message("ex", "k", 2)]
  {
    var publisher := new RabbitMqPublisher(template);
    var noExchange := EventMetadata(Ref("X"), Ref(""), Ref("k"));
    var first := publisher.Send(Ref(noExchange), 1, false);
    assert first == Rejected(NoExchange("X"));
    var valid := EventMetadata(Ref("X"), Ref("ex"), Ref("k"));
    assert !AllBlankChars("ex") by { assert "ex"[0] > ' '; }
    assert !AllBlankChars("k") by { assert "k"[0] > ' '; }
    var second := publisher.Send(Ref(valid), 2, true);
    assert second == TransportFailed;
  }
}
