# RabbitMQ topology declarator and guarded publisher, in Dafny

This project models two components that sit in front of a topic message broker
(RabbitMQ through Spring AMQP):

- **The topology declarator** (`RabbitMqDeclarator.declareRabbitMqResources`).
  It takes the events a service produces and the events it consumes. Each event
  descriptor has a name, an exchange and a routing key. The declarator runs in
  three phases:
  1. It declares the deduplicated set of exchanges named by either list. Each
     one is a durable topic exchange that is not auto-deleted.
  2. It declares one queue per consumed event, named by the naming utility
     `getQueueName(exchange, eventName, serviceName)`. Each queue is durable,
     not exclusive and not auto-deleted.
  3. It declares one binding per consumed event, from that queue to the event's
     exchange with the event's routing key.
- **The guarded publisher** (`RabbitMqPublisher.isValid` and `send`).
  `isValid` rejects a descriptor that is null, or whose exchange or routing key
  is null or blank after Java's `String.trim()`. It runs those checks in that
  order. `send` forwards only a valid descriptor to the transport, calls it
  exactly once with `(exchange, key, payload)`, and catches a transport failure.

## Files and modules

- `events.dfy`, module `Events`: Java's nullable references (`Nullable`,
  `JString`) and the event descriptor `EventMetadata`. All three of its fields
  may be null.
- `broker.dfy`, module `Broker`: the broker as the declarator sees it. Exchanges,
  queues and bindings are records, and the broker holds a set of each. The
  `AmqpAdmin` class holds that state and a trace of every declare call it has
  received. `Valid()` ties the state to the trace: the state is `ApplyAll(initial, trace)`.
- `declarator.dfy`, module `Declarator`: `Plan` is the sequence of calls that
  one run issues. The class `RabbitMqDeclarator` has one method per phase, and
  `DeclareRabbitMqResources` runs the three phases in order. Lemmas about `Plan`
  state the set-level properties.
- `publisher.dfy`, module `Publisher`: Java `trim`, the ordered validation
  `Validate`/`IsValid`, a transport class `RabbitTemplate` that records every
  call, and the class `RabbitMqPublisher` with `Send`.

Design choices:

- **The naming utility.** The body of `RabbitMqNaming.getQueueName` is not part
  of this model. The declarator receives it as a total function value of type
  `Naming` through its constructor. No lemma assumes anything about its format
  or about name collisions.
- **Iteration order of the exchange set.** Java iterates a `HashSet`, so the
  order is unspecified. The model picks each next name with `:|`, and
  `DeclareRabbitMqResources` returns the order it used as a ghost value. Every
  property is proved for any order that lists each element of the set exactly
  once (`IsEnumeration`).
- **Configuration.** The service name and the two catalog lists come from static
  configuration in the source. Here they are constructor parameters of
  `RabbitMqDeclarator`. The service name is a nullable `JString`, and so is the
  naming utility's third argument. The declarator copies the static slot
  `RabbitMQConfig.serviceName` when it is constructed, and that slot is only
  written by `RabbitMQConfig.setServiceName()`. Nothing orders that write before
  the declarator's construction, so the name may still be null and is then
  passed to `getQueueName` as null.
- **Transport outcome.** Whether the transport call fails is an input to
  `Send` (`transportFails`). `Send` returns an explicit `SendOutcome`:
  `Rejected(reason)`, `Sent` or `TransportFailed`. The Java method returns
  `void`. The value is the model's stand-in for "logged and swallowed".
- **Phases as methods.** Each of the three `forEach` phases of
  `declareRabbitMqResources` is a helper method with its own loop
  (`DeclareExchanges`, `DeclareQueues`, `DeclareBindings`). The main method
  calls them in order.
- **Transport call count.** The ghost field `RabbitTemplate.calls` records every
  transport call, so `|calls|` is the number of calls.

The model follows what the code does, including where it does less than a reader might expect:

- The declarator does not check event fields before declaring, so a null
  exchange or key reaches the broker as is.
- Declare errors are not caught anywhere.
- Queue names are not claimed to be collision-free, because the naming body is
  not shown.

## Model

| member | source | states |
|---|---|---|
| Declarator.ExchangeNames | mq/RabbitMqDeclarator.java:41-43 | A name is in the exchange set if and only if it is the exchange of some event of the list; null is kept like any other value. |
| Declarator.QueueFor | mq/RabbitMqDeclarator.java:55-61 | The queue for a consumed event is named by getQueueName(event.exchange, event.name, serviceName), and it is durable, not exclusive and not auto-deleted. |
| Declarator.QueuesToDeclare | mq/RabbitMqDeclarator.java:54-62 | The queue list has one entry per consumed event, in the same order, each being that event's queue. |
| Declarator.BindingFor | mq/RabbitMqDeclarator.java:71-80 | The binding for a consumed event names the same queue as that event's declared queue, and carries the event's exchange and routing key. |
| Declarator.Plan | mq/RabbitMqDeclarator.java:45-84 | A run issues as many calls as names in the exchange order plus twice the number of consumed events: exchange declarations first, then the queue declarations, then the binding declarations. |
| Declarator.ExchangeNamesUnion | mq/RabbitMqDeclarator.java:41-43 | The exchange set of the concatenated produce and consume lists is the union of each list's exchange set. |
| Declarator.PlanDeclaresEachExchangeOnce | mq/RabbitMqDeclarator.java:41-48 | In a run, an exchange name is declared if and only if it is the exchange of some produced or consumed event, and no name is declared twice. |
| Declarator.PlanDeclaresOneQueuePerConsumedEvent | mq/RabbitMqDeclarator.java:54-64 | Phase 2 declares, for the i-th consumed event, the queue named getQueueName(event.exchange, event.name, serviceName) with the same service name for every event. It is durable, not exclusive and not auto-deleted. No other call of the run declares a queue, so an event that is only produced gets none. |
| Declarator.PlanBindsEachDeclaredQueue | mq/RabbitMqDeclarator.java:70-84 | Phase 3 declares one binding per consumed event. Its queue name is identical to the queue phase 2 declared for that event, its exchange is the event's exchange and its routing key is the event's key. No other call declares a binding. The run has as many calls as exchanges in the order plus twice the number of consumed events. |
| Declarator.PlanPhasesInOrder | mq/RabbitMqDeclarator.java:45-85 | In the call sequence of a run, every exchange declaration precedes every queue declaration, which precedes every binding declaration. |
| Declarator.PlanResourceFlags | mq/RabbitMqDeclarator.java:47-60 | Every declared exchange is durable and not auto-deleted. Every declared queue is durable, not exclusive and not auto-deleted. |
| Declarator.DeclaredPlanIndependentOfOrder | mq/RabbitMqDeclarator.java:41-48 | The resources a run declares do not depend on the order in which it walks the exchange set. |
| Declarator.DeclareTwiceSameAsOnce | mq/RabbitMqDeclarator.java:64 | Against a set-valued broker, a second run (in any exchange order) leaves the state the first run left. |
| Declarator.CatalogScenario | mq/RabbitMQConfig.java:20-28 | For the service's catalog (produce [a, b], consume [b, a]), the exchange set is {a.exchange, b.exchange} and queues are declared for both events. |
| Declarator.DeclareTwice | mq/RabbitMqDeclarator.java:64 | Calling the declaration method twice leaves the broker exactly as one run of the plan leaves it. |
| Declarator.RabbitMqDeclarator.constructor | mq/RabbitMqDeclarator.java:21-24 | The declarator keeps the broker handle, the service name (possibly null) and the catalog it is given. |
| Declarator.RabbitMqDeclarator.DeclareRabbitMqResources | mq/RabbitMqDeclarator.java:30-89 | The broker receives exactly the calls of Plan: exchanges in some enumeration of the exchange set of produce ++ consume, then the queues, then the bindings. Its new state is the old state with those resources declared. |
| Declarator.RabbitMqDeclarator.DeclareExchanges | mq/RabbitMqDeclarator.java:45-48 | Declares one durable, not auto-deleted topic exchange per name of the set, each name exactly once, in the returned order. |
| Declarator.RabbitMqDeclarator.DeclareQueues | mq/RabbitMqDeclarator.java:64 | Declares the queues of the list, one call each, in list order. |
| Declarator.RabbitMqDeclarator.DeclareBindings | mq/RabbitMqDeclarator.java:70-84 | Declares one binding per consumed event, in list order, from the recomputed queue name to the event's exchange with its key. |
| Broker.ApplyAllIsUnion | mq/RabbitMqDeclarator.java:64 | Replaying declare calls against a set-valued broker adds exactly the resources they name, whatever their order or repetition. |
| Broker.RedeclareIsNoOp | mq/RabbitMqDeclarator.java:64 | Replaying calls that name no new resource leaves the broker unchanged (idempotent declaration). |
| Broker.AmqpAdmin.DeclareExchange | mq/RabbitMqDeclarator.java:47 | The exchange is present afterwards and the call is appended to the trace. |
| Broker.AmqpAdmin.DeclareQueue | mq/RabbitMqDeclarator.java:64 | The queue is present afterwards and the call is appended to the trace. |
| Broker.AmqpAdmin.DeclareBinding | mq/RabbitMqDeclarator.java:83 | The binding is present afterwards and the call is appended to the trace. |
| Publisher.TrimStart | mq/RabbitMqPublisher.java:32 | The result is a suffix of the input. Every dropped character is at most U+0020, and the result is empty or starts with a character above U+0020. |
| Publisher.TrimEnd | mq/RabbitMqPublisher.java:37 | The result is a prefix of the input. Every dropped character is at most U+0020, and the result is empty or ends with a character above U+0020. |
| Publisher.Trim | mq/RabbitMqPublisher.java:32-37 | What trim() leaves is empty or starts and ends with a character above U+0020. |
| Publisher.TrimDropsBlankEnds | mq/RabbitMqPublisher.java:32-37 | The input is the trimmed string between a prefix and a suffix made only of characters at most U+0020. |
| Publisher.TrimEmptyIffAllBlank | mq/RabbitMqPublisher.java:32-40 | trim() of a string is empty if and only if every character of it is at most U+0020. |
| Publisher.NullOrBlank | mq/RabbitMqPublisher.java:32-37 | The test "null, or empty after trim()" holds exactly when the string is null or all its characters are at most U+0020. |
| Publisher.DiagnosticName | mq/RabbitMqPublisher.java:30 | The diagnostic shows the event's name when it is not null, and "Unnamed Event" otherwise. |
| Publisher.Validate | mq/RabbitMqPublisher.java:24-43 | A null event is refused. Otherwise, the result is the exchange failure if and only if the exchange is null or blank. It is the routing-key failure if and only if the exchange is fine and the key is null or blank. It is valid if and only if both are fine. Every diagnostic carries the event's name, or "Unnamed Event" when the name is null. |
| Publisher.IsValid | mq/RabbitMqPublisher.java:24-43 | isValid is true exactly when the event is non-null and both its exchange and its routing key are non-null and not blank. |
| Publisher.ExchangeCheckedBeforeKey | mq/RabbitMqPublisher.java:32-40 | A descriptor missing both exchange and key is reported for its exchange. |
| Publisher.RabbitTemplate.ConvertAndSend | mq/RabbitMqPublisher.java:61 | Each call is recorded with its exchange, routing key and payload. It reports failure exactly when the transport fails. |
| Publisher.RabbitMqPublisher.constructor | mq/RabbitMqPublisher.java:13-15 | The publisher keeps the transport it is given. |
| Publisher.RabbitMqPublisher.Send | mq/RabbitMqPublisher.java:51-68 | An invalid event is refused with its validation reason and the transport is not called. A valid event calls the transport exactly once with (exchange, key, payload). A transport failure ends normally as TransportFailed, with no retry and nothing else changed. |
| Publisher.PublishScenario | mq/RabbitMqPublisher.java:51-67 | An event with an empty exchange never reaches the transport. A failing send of a valid event returns TransportFailed and the caller continues. |

## Left out

- The body of `RabbitMqNaming.getQueueName`: that file is not part of this model. The declarator takes the function as a parameter. Its name format and collision-freedom are not claimed.
- `RabbitMQConfig`'s Spring wiring is not modelled: `@Value` injection, the write-once static service-name slot and the JSON converter bean. The service name and the two catalog lists are constructor parameters. The concrete events (`EventsConstants`) are not shown, so `CatalogScenario` uses two arbitrary events.
- Spring AMQP objects (`AmqpAdmin`, `TopicExchange`, `Queue`, `BindingBuilder`, `RabbitTemplate`) are abstract records and classes. Payload serialization and the wire format are not modelled.
- Broker-side errors are not modelled: conflicting re-declaration, connection failure, and any broker or Spring rejection of a null exchange name. In the model every declare call succeeds. The source does not catch these errors; they would abort startup.
- Console and stderr logging and stack traces are not modelled. Only the refusal reason and the diagnostic event name are kept.
- Concurrency of publish calls is not modelled.
- The retry policy is not modelled. The source leaves it as a TODO and has none.
- Java strings are UTF-16 code units. The model uses Dafny characters, and `trim` compares each one with U+0020 as Java does.
- Publisher.RabbitMqPublisher.Send: a thrown transport exception is modelled as the `transportFails` input and a `TransportFailed` result, not as an exception caught by `catch`.
