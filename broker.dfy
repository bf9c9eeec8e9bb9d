/** An abstract message broker as the declarator sees it through Spring's
    AmqpAdmin: three idempotent declare operations over set-valued state. */
module Broker {
  import opened Events

  /** A topic exchange: its name and the durable and auto-delete flags. */
  datatype Exchange = TopicExchange(name: JString, durable: bool, autoDelete: bool)

  /** A queue: its name and the durable, exclusive and auto-delete flags. */
  datatype Queue = Queue(name: string, durable: bool, exclusive: bool, autoDelete: bool)

  /** A binding keeps only names: the queue it delivers to, the exchange it
      listens on and the routing key pattern. */
  datatype Binding = Binding(queue: string, exchange: JString, routingKey: JString)

  /** One call issued to the broker. */
  datatype Action =
    | ExchangeDecl(exchange: Exchange)
    | QueueDecl(queue: Queue)
    | BindingDecl(binding: Binding)

  /** The resources the broker holds. */
  datatype Topology = Topology(exchanges: set<Exchange>, queues: set<Queue>, bindings: set<Binding>)

  function Union(t: Topology, u: Topology): Topology
  {
    Topology(t.exchanges + u.exchanges, t.queues + u.queues, t.bindings + u.bindings)
  }

  /** t holds every resource of u. */
  predicate Includes(t: Topology, u: Topology)
  {
    u.exchanges <= t.exchanges && u.queues <= t.queues && u.bindings <= t.bindings
  }

  /** What one declare call leaves behind: the resource is present afterwards,
      whether or not it was before. */
  function Apply(t: Topology, a: Action): Topology
  {
    match a
    case ExchangeDecl(e) => t.(exchanges := t.exchanges + {e})
    case QueueDecl(q) => t.(queues := t.queues + {q})
    case BindingDecl(b) => t.(bindings := t.bindings + {b})
  }

  /** The state after a sequence of declare calls, applied first to last. */
  function ApplyAll(t: Topology, actions: seq<Action>): Topology
    decreases |actions|
  {
    if actions == [] then t
    else Apply(ApplyAll(t, actions[..|actions| - 1]), actions[|actions| - 1])
  }

  /** The resources a sequence of declare calls names. */
  function Declared(actions: seq<Action>): Topology
  {
    Topology(
      set a | a in actions && a.ExchangeDecl? :: a.exchange,
      set a | a in actions && a.QueueDecl? :: a.queue,
      set a | a in actions && a.BindingDecl? :: a.binding)
  }

  /** Replaying declare calls adds exactly the resources they name: the
      result depends on the set of calls, not on their order or repetition. */
  lemma {:induction false} ApplyAllIsUnion(t: Topology, actions: seq<Action>)
    ensures ApplyAll(t, actions) == Union(t, Declared(actions))
    decreases |actions|
  {
    if actions != [] {
      var n := |actions| - 1;
      var front, last := actions[..n], actions[n];
      assert actions == front + [last];
      ApplyAllIsUnion(t, front);
      var d, d', u := Declared(front), Declared(actions), Declared([last]);
      assert d'.exchanges == d.exchanges + u.exchanges;
      assert d'.queues == d.queues + u.queues;
      assert d'.bindings == d.bindings + u.bindings;
    }
  }

  /** Idempotence of declaration: replaying calls that name nothing new leaves
      the state unchanged. */
  lemma RedeclareIsNoOp(t: Topology, first: seq<Action>, again: seq<Action>)
    requires Includes(Declared(first), Declared(again))
    ensures ApplyAll(ApplyAll(t, first), again) == ApplyAll(t, first)
  {
    ApplyAllIsUnion(t, first);
    ApplyAllIsUnion(ApplyAll(t, first), again);
  }

  /** Declaring in two batches leaves what declaring everything at once does. */
  lemma {:induction false} ApplyAllAppend(t: Topology, first: seq<Action>, second: seq<Action>)
    ensures ApplyAll(t, first + second) == ApplyAll(ApplyAll(t, first), second)
    decreases |second|
  {
    if second != [] {
      var n := |second| - 1;
      assert (first + second)[..|first + second| - 1] == first + second[..n];
      ApplyAllAppend(t, first, second[..n]);
    } else {
      assert first + second == first;
    }
  }

  /** The broker administration interface (AmqpAdmin) over an abstract broker:
      its current resources and every declare call it has received since it
      started from the resources `initial`. */
  class AmqpAdmin {
    ghost const initial: Topology
    var topology: Topology
    var trace: seq<Action>

    /** The resources are those the calls received have left behind. */
    ghost predicate Valid()
      reads this
    {
      topology == ApplyAll(initial, trace)
    }

    constructor (initial: Topology)
      ensures Valid() && this.initial == initial
      ensures topology == initial && trace == []
    {
      this.initial := initial;
      topology := initial;
      trace := [];
    }

    method DeclareExchange(e: Exchange)
      requires Valid()
      modifies this
      ensures Valid()
      ensures trace == old(trace) + [ExchangeDecl(e)]
      ensures topology == Apply(old(topology), ExchangeDecl(e))
    {
      topology := topology.(exchanges := topology.exchanges + {e});
      trace := trace + [ExchangeDecl(e)];
      assert trace[..|trace| - 1] == old(trace);
    }

    method DeclareQueue(q: Queue)
      requires Valid()
      modifies this
      ensures Valid()
      ensures trace == old(trace) + [QueueDecl(q)]
      ensures topology == Apply(old(topology), QueueDecl(q))
    {
      topology := topology.(queues := topology.queues + {q});
      trace := trace + [QueueDecl(q)];
      assert trace[..|trace| - 1] == old(trace);
    }

    method DeclareBinding(b: Binding)
      requires Valid()
      modifies this
      ensures Valid()
      ensures trace == old(trace) + [BindingDecl(b)]
      ensures topology == Apply(old(topology), BindingDecl(b))
    {
      topology := topology.(bindings := topology.bindings + {b});
      trace := trace + [BindingDecl(b)];
      assert trace[..|trace| - 1] == old(trace);
    }
  }
}
