/** The topology declarator (RabbitMqDeclarator): from the events a service
    produces and consumes, declare the exchanges, one queue per consumed event,
    and one binding per consumed event, in three phases. */
module Declarator {
  import opened Events
  import opened Broker

  /** The queue naming utility, RabbitMqNaming.getQueueName(exchange,
      eventName, serviceName). Its body is not part of this model, so it is
      any total function: nothing is assumed about its format or collisions. */
  type Naming = (JString, JString, JString) -> string

  /** The set of exchange names the events go to (stream, map, collect to a set). */
  function ExchangeNames(events: seq<EventMetadata>): (names: set<JString>)
    ensures forall x :: x in names <==> exists e :: e in events && e.exchange == x
  {
    set e | e in events :: e.exchange
  }

  /** The queue for a consumed event: named by the naming utility from the
      event's exchange, the event's name and the service name; durable,
      not exclusive, not auto-deleted. */
  function QueueFor(e: EventMetadata, serviceName: JString, getQueueName: Naming): (q: Queue)
    ensures q.name == getQueueName(e.exchange, e.name, serviceName)
    ensures q.durable && !q.exclusive && !q.autoDelete
  {
    Queue(getQueueName(e.exchange, e.name, serviceName), true, false, false)
  }

  /** The list of queues built from the consumed events, in their order. */
  function QueuesToDeclare(consume: seq<EventMetadata>, serviceName: JString, getQueueName: Naming): (qs: seq<Queue>)
    ensures |qs| == |consume|
    ensures forall i :: 0 <= i < |consume| ==> qs[i] == QueueFor(consume[i], serviceName, getQueueName)
  {
    seq(|consume|, i requires 0 <= i < |consume| => QueueFor(consume[i], serviceName, getQueueName))
  }

  /** The binding for a consumed event: its queue name, recomputed with the
      naming utility, to the event's exchange with the event's routing key. */
  function BindingFor(e: EventMetadata, serviceName: JString, getQueueName: Naming): (b: Binding)
    ensures b.queue == QueueFor(e, serviceName, getQueueName).name
    ensures b.exchange == e.exchange && b.routingKey == e.key
  {
    Binding(getQueueName(e.exchange, e.name, serviceName), e.exchange, e.key)
  }

  /** Phase 1: one exchange declaration per name, in the given order; every
      exchange is a durable topic exchange that is not auto-deleted. */
  function ExchangePhase(order: seq<JString>): (p: seq<Action>)
    ensures |p| == |order|
  {
    seq(|order|, i requires 0 <= i < |order| => ExchangeDecl(TopicExchange(order[i], true, false)))
  }

  /** Phase 2: one queue declaration per queue, in list order. */
  function QueuePhase(queues: seq<Queue>): (p: seq<Action>)
    ensures |p| == |queues|
  {
    seq(|queues|, i requires 0 <= i < |queues| => QueueDecl(queues[i]))
  }

  /** Phase 3: one binding declaration per consumed event, in list order. */
  function BindingPhase(consume: seq<EventMetadata>, serviceName: JString, getQueueName: Naming): (p: seq<Action>)
    ensures |p| == |consume|
  {
    seq(|consume|, i requires 0 <= i < |consume| => BindingDecl(BindingFor(consume[i], serviceName, getQueueName)))
  }

  /** The calls one declaration run issues, given the order in which it
      happened to enumerate the exchange set. */
  function Plan(order: seq<JString>, consume: seq<EventMetadata>, serviceName: JString, getQueueName: Naming): (p: seq<Action>)
    ensures |p| == |order| + 2 * |consume|
    ensures forall k :: 0 <= k < |p| ==>
      PhaseOf(p[k]) == (if k < |order| then 0 else if k < |order| + |consume| then 1 else 2)
  {
    ExchangePhase(order)
    + QueuePhase(QueuesToDeclare(consume, serviceName, getQueueName))
    + BindingPhase(consume, serviceName, getQueueName)
  }

  /** order lists every element of s exactly once (some iteration order of a set). */
  ghost predicate IsEnumeration(order: seq<JString>, s: set<JString>)
  {
    (forall x :: x in order <==> x in s)
    && (forall i, j :: 0 <= i < j < |order| ==> order[i] != order[j])
  }

  /** The phase an action belongs to: exchanges 0, queues 1, bindings 2. */
  function PhaseOf(a: Action): nat
  {
    match a
    case ExchangeDecl(_) => 0
    case QueueDecl(_) => 1
    case BindingDecl(_) => 2
  }

  /** The exchange set of both lists together is the union of the two
      lists' exchange sets. */
  lemma ExchangeNamesUnion(produce: seq<EventMetadata>, consume: seq<EventMetadata>)
    ensures ExchangeNames(produce + consume) == ExchangeNames(produce) + ExchangeNames(consume)
  {
  }

  /** Phase 1 of a run declares each exchange of either list exactly once, and
      every declaration in the run that names an exchange is in phase 1. */
  lemma PlanDeclaresEachExchangeOnce(order: seq<JString>, produce: seq<EventMetadata>, consume: seq<EventMetadata>,
                                     serviceName: JString, getQueueName: Naming)
    requires IsEnumeration(order, ExchangeNames(produce + consume))
    ensures var p := Plan(order, consume, serviceName, getQueueName);
      && (forall x :: (exists k :: 0 <= k < |p| && p[k].ExchangeDecl? && p[k].exchange.name == x)
                      <==> x in ExchangeNames(produce) + ExchangeNames(consume))
      && (forall k, l ::
            0 <= k < l < |p| && p[k].ExchangeDecl? && p[l].ExchangeDecl? ==> p[k].exchange.name != p[l].exchange.name)
  {
    var p := Plan(order, consume, serviceName, getQueueName);
    var n := |order|;
    ExchangeNamesUnion(produce, consume);
    forall k | n <= k < |p| ensures !p[k].ExchangeDecl? {
    }
    forall x | x in ExchangeNames(produce + consume)
      ensures exists k :: 0 <= k < |p| && p[k].ExchangeDecl? && p[k].exchange.name == x
    {
      var k :| 0 <= k < n && order[k] == x;
      assert p[k].ExchangeDecl? && p[k].exchange.name == x;
    }
    forall x | exists k :: 0 <= k < |p| && p[k].ExchangeDecl? && p[k].exchange.name == x
      ensures x in ExchangeNames(produce + consume)
    {
      var k :| 0 <= k < |p| && p[k].ExchangeDecl? && p[k].exchange.name == x;
      assert k < n && order[k] == x;
    }
  }

  /** Phase 2 of a run declares exactly one queue per consumed event, at the
      event's position, named by the naming utility with the one service name;
      no other call of the run declares a queue, so a queue never comes from an
      event that is only produced. */
  lemma PlanDeclaresOneQueuePerConsumedEvent(order: seq<JString>, consume: seq<EventMetadata>,
                                             serviceName: JString, getQueueName: Naming)
    ensures var p := Plan(order, consume, serviceName, getQueueName);
      && (forall i :: 0 <= i < |consume| ==>
            p[|order| + i] == QueueDecl(Queue(getQueueName(consume[i].exchange, consume[i].name, serviceName), true, false, false)))
      && (forall k :: 0 <= k < |p| && p[k].QueueDecl? ==> |order| <= k < |order| + |consume|)
  {
  }

  /** Phase 3 of a run declares exactly one binding per consumed event, linking
      the very queue phase 2 declared for that event to the event's exchange
      with the event's routing key; no other call of the run declares a binding. */
  lemma PlanBindsEachDeclaredQueue(order: seq<JString>, consume: seq<EventMetadata>,
                                   serviceName: JString, getQueueName: Naming)
    ensures var p := Plan(order, consume, serviceName, getQueueName);
      var n, m := |order|, |consume|;
      && |p| == n + 2 * m
      && (forall i :: 0 <= i < m ==>
            && p[n + m + i].BindingDecl?
            && p[n + i].QueueDecl?
            && p[n + m + i].binding.queue == p[n + i].queue.name
            && p[n + m + i].binding.exchange == consume[i].exchange
            && p[n + m + i].binding.routingKey == consume[i].key)
      && (forall k :: 0 <= k < |p| && p[k].BindingDecl? ==> n + m <= k)
  {
  }

  /** Every exchange declaration of a run precedes every queue declaration,
      which precedes every binding declaration. */
  lemma PlanPhasesInOrder(order: seq<JString>, consume: seq<EventMetadata>, serviceName: JString, getQueueName: Naming)
    ensures var p := Plan(order, consume, serviceName, getQueueName);
      forall k, l :: 0 <= k < l < |p| ==> PhaseOf(p[k]) <= PhaseOf(p[l])
  {
  }

  /** Every resource a run declares has the fixed properties: exchanges are
      durable topic exchanges that are not auto-deleted; queues are durable,
      not exclusive and not auto-deleted. */
  lemma PlanResourceFlags(order: seq<JString>, consume: seq<EventMetadata>, serviceName: JString, getQueueName: Naming)
    ensures var d := Declared(Plan(order, consume, serviceName, getQueueName));
      && (forall e :: e in d.exchanges ==> e.durable && !e.autoDelete)
      && (forall q :: q in d.queues ==> q.durable && !q.exclusive && !q.autoDelete)
  {
  }

  /** The resources of a run do not depend on the order in which it enumerated
      the exchange set. */
  lemma {:induction false} DeclaredPlanIndependentOfOrder(o1: seq<JString>, o2: seq<JString>, names: set<JString>,
                                                         consume: seq<EventMetadata>, serviceName: JString, getQueueName: Naming)
    requires IsEnumeration(o1, names) && IsEnumeration(o2, names)
    ensures Declared(Plan(o1, consume, serviceName, getQueueName)) == Declared(Plan(o2, consume, serviceName, getQueueName))
  {
    var p1, p2 := Plan(o1, consume, serviceName, getQueueName), Plan(o2, consume, serviceName, getQueueName);
    var rest := QueuePhase(QueuesToDeclare(consume, serviceName, getQueueName)) + BindingPhase(consume, serviceName, getQueueName);
    assert p1 == ExchangePhase(o1) + rest;
    assert p2 == ExchangePhase(o2) + rest;
    forall a | a in p1 ensures a in p2 {
      var k :| 0 <= k < |p1| && p1[k] == a;
      if k < |o1| {
        assert o1[k] in o1;
        var j :| 0 <= j < |o2| && o2[j] == o1[k];
        assert p2[j] == a;
      } else {
        assert p2[|o2| + (k - |o1|)] == a;
      }
    }
    forall a | a in p2 ensures a in p1 {
      var k :| 0 <= k < |p2| && p2[k] == a;
      if k < |o2| {
        assert o2[k] in o2;
        var j :| 0 <= j < |o1| && o1[j] == o2[k];
        assert p1[j] == a;
      } else {
        assert p1[|o1| + (k - |o2|)] == a;
      }
    }
  }

  /** Running the declaration twice against a set-valued broker leaves the same
      resources as running it once, whatever order each run enumerated the
      exchange set in. */
  lemma DeclareTwiceSameAsOnce(t: Topology, o1: seq<JString>, o2: seq<JString>,
                               produce: seq<EventMetadata>, consume: seq<EventMetadata>,
                               serviceName: JString, getQueueName: Naming)
    requires IsEnumeration(o1, ExchangeNames(produce + consume))
    requires IsEnumeration(o2, ExchangeNames(produce + consume))
    ensures var once := ApplyAll(t, Plan(o1, consume, serviceName, getQueueName));
      ApplyAll(once, Plan(o2, consume, serviceName, getQueueName)) == once
  {
    DeclaredPlanIndependentOfOrder(o1, o2, ExchangeNames(produce + consume), consume, serviceName, getQueueName);
    RedeclareIsNoOp(t, Plan(o1, consume, serviceName, getQueueName), Plan(o2, consume, serviceName, getQueueName));
  }

  /** The service's own catalog lists two events, a and b, as produced in the
      order [a, b] and as consumed in the order [b, a]: the exchange set is the
      two exchanges, deduplicated, and a queue is declared for both events. */
  lemma CatalogScenario(order: seq<JString>, a: EventMetadata, b: EventMetadata, serviceName: JString, getQueueName: Naming)
    requires IsEnumeration(order, ExchangeNames([a, b] + [b, a]))
    ensures ExchangeNames([a, b] + [b, a]) == {a.exchange, b.exchange}
    ensures Declared(Plan(order, [b, a], serviceName, getQueueName)).queues
            == {QueueFor(a, serviceName, getQueueName), QueueFor(b, serviceName, getQueueName)}
  {
    var p := Plan(order, [b, a], serviceName, getQueueName);
    assert p[|order|] == QueueDecl(QueueFor(b, serviceName, getQueueName));
    assert p[|order| + 1] == QueueDecl(QueueFor(a, serviceName, getQueueName));
  }

  /** The declarator bean: the broker administration handle, the service name
      read once at construction (null if the configuration has not stored it
      yet), and the produce and consume catalogs. */
  class RabbitMqDeclarator {
    const amqpAdmin: AmqpAdmin
    const serviceName: JString
    const produceEvents: seq<EventMetadata>
    const consumeEvents: seq<EventMetadata>
    const getQueueName: Naming

    constructor (amqpAdmin: AmqpAdmin, serviceName: JString,
                 produceEvents: seq<EventMetadata>, consumeEvents: seq<EventMetadata>, getQueueName: Naming)
      ensures this.amqpAdmin == amqpAdmin && this.serviceName == serviceName
      ensures this.produceEvents == produceEvents && this.consumeEvents == consumeEvents
      ensures this.getQueueName == getQueueName
    {
      this.amqpAdmin := amqpAdmin;
      this.serviceName := serviceName;
      this.produceEvents := produceEvents;
      this.consumeEvents := consumeEvents;
      this.getQueueName := getQueueName;
    }

    /** Declares exchanges, then queues, then bindings. The exchange set is
        walked in an unspecified order, returned as exchangeOrder. */
    method DeclareRabbitMqResources() returns (ghost exchangeOrder: seq<JString>)
      requires amqpAdmin.Valid()
      modifies amqpAdmin
      ensures amqpAdmin.Valid()
      ensures IsEnumeration(exchangeOrder, ExchangeNames(produceEvents + consumeEvents))
      ensures amqpAdmin.trace == old(amqpAdmin.trace) + Plan(exchangeOrder, consumeEvents, serviceName, getQueueName)
      ensures amqpAdmin.topology == ApplyAll(old(amqpAdmin.topology), Plan(exchangeOrder, consumeEvents, serviceName, getQueueName))
    {
      // 1. exchanges
      var exchangeNamesToDeclare := ExchangeNames(produceEvents + consumeEvents);
      exchangeOrder := DeclareExchanges(exchangeNamesToDeclare);
      // 2. queues
      var queuesToDeclare := QueuesToDeclare(consumeEvents, serviceName, getQueueName);
      DeclareQueues(queuesToDeclare);
      // 3. bindings
      DeclareBindings();
      ApplyAllAppend(amqpAdmin.initial, old(amqpAdmin.trace), Plan(exchangeOrder, consumeEvents, serviceName, getQueueName));
    }

    /** Phase 1: one durable, not auto-deleted topic exchange per name. */
    method DeclareExchanges(exchangeNamesToDeclare: set<JString>) returns (ghost exchangeOrder: seq<JString>)
      requires amqpAdmin.Valid()
      modifies amqpAdmin
      ensures amqpAdmin.Valid()
      ensures IsEnumeration(exchangeOrder, exchangeNamesToDeclare)
      ensures amqpAdmin.trace == old(amqpAdmin.trace) + ExchangePhase(exchangeOrder)
    {
      var remaining := exchangeNamesToDeclare;
      exchangeOrder := [];
      while remaining != {}
        invariant amqpAdmin.Valid()
        invariant remaining <= exchangeNamesToDeclare
        invariant forall x :: x in exchangeOrder <==> x in exchangeNamesToDeclare && x !in remaining
        invariant forall i, j :: 0 <= i < j < |exchangeOrder| ==> exchangeOrder[i] != exchangeOrder[j]
        invariant amqpAdmin.trace == old(amqpAdmin.trace) + ExchangePhase(exchangeOrder)
        decreases remaining
      {
        var exchangeName :| exchangeName in remaining;
        amqpAdmin.DeclareExchange(TopicExchange(exchangeName, true, false));
        assert ExchangePhase(exchangeOrder + [exchangeName])
            == ExchangePhase(exchangeOrder) + [ExchangeDecl(TopicExchange(exchangeName, true, false))];
        exchangeOrder := exchangeOrder + [exchangeName];
        remaining := remaining - {exchangeName};
      }
    }

    /** Phase 2: declare each queue of the list, in order. */
    method DeclareQueues(queuesToDeclare: seq<Queue>)
      requires amqpAdmin.Valid()
      modifies amqpAdmin
      ensures amqpAdmin.Valid()
      ensures amqpAdmin.trace == old(amqpAdmin.trace) + QueuePhase(queuesToDeclare)
    {
      var i := 0;
      while i < |queuesToDeclare|
        invariant amqpAdmin.Valid()
        invariant 0 <= i <= |queuesToDeclare|
        invariant amqpAdmin.trace == old(amqpAdmin.trace) + QueuePhase(queuesToDeclare[..i])
      {
        amqpAdmin.DeclareQueue(queuesToDeclare[i]);
        assert QueuePhase(queuesToDeclare[..i + 1]) == QueuePhase(queuesToDeclare[..i]) + [QueueDecl(queuesToDeclare[i])];
        i := i + 1;
      }
      assert queuesToDeclare[..i] == queuesToDeclare;
    }

    /** Phase 3: for each consumed event, bind its queue (its name recomputed
        with the naming utility) to its exchange with its routing key. */
    method DeclareBindings()
      requires amqpAdmin.Valid()
      modifies amqpAdmin
      ensures amqpAdmin.Valid()
      ensures amqpAdmin.trace == old(amqpAdmin.trace) + BindingPhase(consumeEvents, serviceName, getQueueName)
    {
      var j := 0;
      while j < |consumeEvents|
        invariant amqpAdmin.Valid()
        invariant 0 <= j <= |consumeEvents|
        invariant amqpAdmin.trace == old(amqpAdmin.trace) + BindingPhase(consumeEvents[..j], serviceName, getQueueName)
      {
        var event := consumeEvents[j];
        var queueName := getQueueName(event.exchange, event.name, serviceName);
        amqpAdmin.DeclareBinding(Binding(queueName, event.exchange, event.key));
        assert BindingPhase(consumeEvents[..j + 1], serviceName, getQueueName)
            == BindingPhase(consumeEvents[..j], serviceName, getQueueName) + [BindingDecl(Binding(queueName, event.exchange, event.key))];
        j := j + 1;
      }
      assert consumeEvents[..j] == consumeEvents;
    }
  }

  /** A second declaration run against the same broker changes nothing: after
      two runs the broker holds exactly what one run leaves. */
  method DeclareTwice(declarator: RabbitMqDeclarator) returns (ghost exchangeOrder: seq<JString>)
    requires declarator.amqpAdmin.Valid()
    modifies declarator.amqpAdmin
    ensures declarator.amqpAdmin.Valid()
    ensures IsEnumeration(exchangeOrder, ExchangeNames(declarator.produceEvents + declarator.consumeEvents))
    ensures declarator.amqpAdmin.topology
         == ApplyAll(old(declarator.amqpAdmin.topology),
                     Plan(exchangeOrder, declarator.consumeEvents, declarator.serviceName, declarator.getQueueName))
  {
    exchangeOrder := declarator.DeclareRabbitMqResources();
    ghost var again := declarator.DeclareRabbitMqResources();
    DeclareTwiceSameAsOnce(old(declarator.amqpAdmin.topology), exchangeOrder, again,
                           declarator.produceEvents, declarator.consumeEvents,
                           declarator.serviceName, declarator.getQueueName);
  }
}
