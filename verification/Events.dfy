/**
 Event propagation (src/event.rs): a triggered file notifies the queues registered on it, and a notified
 queue is itself a file that other queues may be registered on.
 */
module Events {
  import opened Wrappers
  import opened Helpers

  datatype Flag = Readable | Writable
  type Flags = set<Flag>

  datatype RegKey = RegKey(scheme: nat, number: nat)
  datatype QueueKey = QueueKey(queue: nat, id: nat, data: nat)

  type Registry = map<RegKey, map<QueueKey, Flags>>

  /** The scheme of the event queues themselves. */
  const EVENT_SCHEME: nat := 2

  /** An event sent to a queue on account of one registration. */
  datatype Delivery = Delivery(source: RegKey, target: QueueKey, flags: Flags)

  /** The registrations on a file that the flags reach, at queues that exist. */
  function Hits(registry: Registry, live: set<nat>, key: RegKey, flags: Flags): set<QueueKey> {
    if key !in registry then {}
    else set q | q in registry[key] && registry[key][q] * flags != {} && q.queue in live
  }

  /** The events for some of the registrations on a file. */
  function Deliveries(registry: Registry, key: RegKey, flags: Flags, hits: set<QueueKey>): set<Delivery> {
    set q | q in hits && key in registry && q in registry[key] :: Delivery(key, q, registry[key][q] * flags)
  }

  function AllDeliveries(registry: Registry, live: set<nat>, key: RegKey, flags: Flags): set<Delivery> {
    Deliveries(registry, key, flags, Hits(registry, live, key, flags))
  }

  function Queues(hits: set<QueueKey>): set<nat> {
    set q | q in hits :: q.queue
  }

  /** Queue `q` as a file. */
  function QueueFile(q: nat): RegKey { RegKey(EVENT_SCHEME, q) }

  /** The queues notified directly by queue `q` becoming readable. */
  function Next(registry: Registry, live: set<nat>, q: nat): set<nat> {
    Queues(Hits(registry, live, QueueFile(q), {Readable}))
  }

  /** Contains the queues that the triggered file reaches, and with a queue those it reaches. */
  ghost predicate Closed(registry: Registry, live: set<nat>, start: set<nat>, s: set<nat>) {
    start <= s && forall q | q in s :: Next(registry, live, q) <= s
  }

  /** A queue notifies the live queues that wait for the event scheme's file of its number to become readable. */
  lemma NextIs(registry: Registry, live: set<nat>, q: nat, t: nat)
    ensures var own := RegKey(EVENT_SCHEME, q);
            t in Next(registry, live, q) <==>
              && t in live && own in registry
              && exists k :: k in registry[own] && k.queue == t && Readable in registry[own][k]
  {
    var own := RegKey(EVENT_SCHEME, q);
    if own in registry && exists k :: k in registry[own] && k.queue == t && Readable in registry[own][k] {
      var k :| k in registry[own] && k.queue == t && Readable in registry[own][k];
      assert Readable in registry[own][k] * {Readable};
    }
    forall k | own in registry && k in registry[own] && registry[own][k] * {Readable} != {}
      ensures Readable in registry[own][k]
    {
      var f :| f in registry[own][k] * {Readable};
    }
  }

  class EventRegistry {
    var registry: Registry
    var live: set<nat>

    /** `register`: no flags removes the registration. */
    method Register(key: RegKey, queue: QueueKey, flags: Flags)
      modifies this`registry
      ensures forall k, f :: Hits(registry, live, k, f) ==
                if k != key then old(Hits(registry, live, k, f))
                else
                  (if flags * f != {} && queue.queue in live then {queue} else {})
                  + (old(Hits(registry, live, k, f)) - {queue})
    {
      var entry := if key in registry then registry[key] else map[];
      registry := registry[key := if flags == {} then entry - {queue} else entry[queue := flags]];
    }

    /** `trigger_inner`: every matching registration gets its event, in some order. */
    method TriggerInner(key: RegKey, flags: Flags) returns (sent: seq<Delivery>, todo: seq<nat>)
      ensures multiset(sent) == multiset(AllDeliveries(registry, live, key, flags))
      ensures forall q :: q in todo <==> q in Queues(Hits(registry, live, key, flags))
    {
      sent, todo := [], [];
      var left := Hits(registry, live, key, flags);
      ghost var all := left;
      NoneYet(registry, key, flags, all);
      hide *;
      while left != {}
        invariant left <= all
        invariant multiset(sent) == multiset(Deliveries(registry, key, flags, all - left))
        invariant forall q :: q in todo <==> q in Queues(all - left)
        decreases |left|
      {
        var q :| q in left;
        HitIs(registry, live, key, flags, q);
        var d := Delivery(key, q, registry[key][q] * flags);
        OneMore(registry, key, flags, all, left, q);
        sent, todo := sent + [d], todo + [q.queue];
        left := left - {q};
      }
      assert all - left == all;
      AllAre(registry, live, key, flags);
    }

    /**
     `trigger`: the worklist ends for every registry, and has then propagated exactly once from each queue of
     the least set closed under "a notified queue notifies the queues registered on it"; `order` lists them.
     The events sent are those of the file and of each such queue, once each.
     */
    method Trigger(key: RegKey, flags: Flags) returns (sent: seq<Delivery>, done: set<nat>, ghost order: seq<nat>)
      ensures Closed(registry, live, Queues(Hits(registry, live, key, flags)), done)
      ensures forall s | Closed(registry, live, Queues(Hits(registry, live, key, flags)), s) :: done <= s
      ensures Distinct(order) && forall q :: q in order <==> q in done
      ensures multiset(sent) == Expected(registry, live, key, flags, order)
    {
      ghost var start := Queues(Hits(registry, live, key, flags));
      var todo;
      sent, todo := TriggerInner(key, flags);
      done, order := {}, [];
      hide Hits, AllDeliveries;
      assert start <= live by { HitsLive(registry, live, key, flags); }
      while todo != []
        invariant forall q | q in todo :: q in live
        invariant start <= done + Elements(todo) && done <= live
        invariant forall q | q in done :: Next(registry, live, q) <= done + Elements(todo)
        invariant forall s | Closed(registry, live, start, s) :: done + Elements(todo) <= s
        invariant Distinct(order) && forall q :: q in order <==> q in done
        invariant multiset(sent) == Expected(registry, live, key, flags, order)
        decreases live - done, |todo|
      {
        var q := todo[|todo| - 1];
        ghost var before := todo;
        todo := todo[..|todo| - 1];
        assert before == todo + [q];
        assert Elements(before) == Elements(todo) + {q};
        if q !in done {
          var more, next := TriggerInner(QueueFile(q), {Readable});
          HitsLive(registry, live, QueueFile(q), {Readable});
          assert Elements(todo + next) == Elements(todo) + Next(registry, live, q);
          DistinctSnoc(order, q);
          assert (order + [q])[..|order|] == order;
          sent, todo := sent + more, todo + next;
          done, order := done + {q}, order + [q];
        }
      }
    }
  }

  ghost function Elements(s: seq<nat>): set<nat> {
    set x | x in s
  }

  /** The events of the triggered file, and of each queue propagated from. */
  ghost function Expected(registry: Registry, live: set<nat>, key: RegKey, flags: Flags, order: seq<nat>)
    : multiset<Delivery>
  {
    if order == [] then multiset(AllDeliveries(registry, live, key, flags))
    else Expected(registry, live, key, flags, order[..|order| - 1])
         + multiset(AllDeliveries(registry, live, QueueFile(order[|order| - 1]), {Readable}))
  }

  lemma HitsLive(registry: Registry, live: set<nat>, key: RegKey, flags: Flags)
    ensures Queues(Hits(registry, live, key, flags)) <= live
  {
  }

  lemma HitIs(registry: Registry, live: set<nat>, key: RegKey, flags: Flags, q: QueueKey)
    requires q in Hits(registry, live, key, flags)
    ensures key in registry && q in registry[key]
  {
  }

  lemma AllAre(registry: Registry, live: set<nat>, key: RegKey, flags: Flags)
    ensures AllDeliveries(registry, live, key, flags) ==
            Deliveries(registry, key, flags, Hits(registry, live, key, flags))
  {
  }

  lemma NoneYet(registry: Registry, key: RegKey, flags: Flags, all: set<QueueKey>)
    ensures Deliveries(registry, key, flags, all - all) == {} && Queues(all - all) == {}
  {
  }

  lemma OneMore(registry: Registry, key: RegKey, flags: Flags, all: set<QueueKey>, left: set<QueueKey>, q: QueueKey)
    requires key in registry && q in registry[key] && q in left && left <= all
    ensures var d := Delivery(key, q, registry[key][q] * flags);
            multiset(Deliveries(registry, key, flags, all - (left - {q})))
            == multiset(Deliveries(registry, key, flags, all - left)) + multiset{d}
    ensures Queues(all - (left - {q})) == Queues(all - left) + {q.queue}
  {
    var d := Delivery(key, q, registry[key][q] * flags);
    assert all - (left - {q}) == (all - left) + {q};
    assert d !in Deliveries(registry, key, flags, all - left);
    assert Deliveries(registry, key, flags, all - (left - {q})) == Deliveries(registry, key, flags, all - left) + {d};
  }
}
