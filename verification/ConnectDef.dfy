/** The connection object itself; each method is one step of the connection machine. */
module ConnectHub {
  import opened Bytes
  import C = Connection

  /** The global registry of connections by id; `closed` lists the ids whose websocket it has closed, in order. */
  class Hub {
    var connects: set<string>
    var closed: seq<string>

    constructor ()
      ensures connects == {} && closed == []
    {
      connects, closed := {}, [];
    }

    method Destroy(id: string) returns (removed: bool)
      modifies this
      ensures removed <==> id in old(connects)
      ensures connects == old(connects) - {id}
      ensures closed == old(closed) + (if removed then [id] else [])
    {
      removed := id in connects;
      if removed {
        closed := closed + [id];
        connects := connects - {id};
      }
    }
  }

  /** `wire` is everything that has entered `WriteMsg`; `armed`, `fired` and `next` belong to the runtime's timers. */
  class ConnectDef {
    const id: string
    const hub: Hub
    const monitor: bool
    var msgCache: map<seq<byte>, C.Message>
    var sendingFlag: bool
    var timeAfter: nat
    var closed: bool
    var wire: seq<C.Message>
    var armed: set<nat>
    var fired: set<nat>
    var next: nat
    var monitorCloses: nat
    var cancels: nat
    var removals: nat

    function View(): C.State
      reads this, hub
    {
      C.State(msgCache, sendingFlag, timeAfter, armed, fired, next, closed, C.Idle, monitor, id in hub.connects,
              monitorCloses, cancels, removals)
    }

    /** RegistryConnect. */
    constructor (id: string, hub: Hub, monitor: bool)
      modifies hub
      ensures this.id == id && this.hub == hub && hub.connects == old(hub.connects) + {id}
      ensures hub.closed == old(hub.closed) && View() == C.Init(monitor) && wire == []
    {
      this.id, this.hub, this.monitor := id, hub, monitor;
      msgCache, sendingFlag, timeAfter, closed, wire := map[], false, 0, false, [];
      armed, fired, next := {}, {}, 1;
      monitorCloses, cancels, removals := 0, 0, 0;
      new;
      hub.connects := hub.connects + {id};
    }

    method WriteMid(m: C.Message)
      modifies `wire
      ensures View() == C.Apply(old(View()), C.WriteMid(m))
      ensures wire == old(wire) + C.Wire(old(View()), C.WriteMid(m))
    {
      if !closed { wire := wire + [m]; }
    }

    method Write(m: C.Message)
      modifies `msgCache, `sendingFlag, `timeAfter, `armed, `next
      ensures View() == C.Apply(old(View()), C.Write(m))
    {
      var cacheKey := m[0..4];
      if cacheKey in msgCache {
        msgCache := msgCache[cacheKey := msgCache[cacheKey] + m[4..]];
      } else {
        msgCache := msgCache[cacheKey := m];
      }
      if !sendingFlag {
        sendingFlag := true;
        if timeAfter != 0 { armed := armed - {timeAfter}; }
        armed, timeAfter, next := armed + {next}, next, next + 1;
      }
    }

    /** `flush(true)`, or `flush(false)` when nothing interferes; `order` is how the map was ranged over. */
    method Flush() returns (ghost order: seq<seq<byte>>)
      modifies `msgCache, `sendingFlag, `wire
      ensures C.IsOrder(old(msgCache), order)
      ensures View() == C.Apply(old(View()), C.Flush(order))
      ensures wire == old(wire) + C.Wire(old(View()), C.Flush(order))
    {
      if !closed {
        order := Drain();
      } else {
        order := C.OrderExists(msgCache);
      }
      sendingFlag := false;
    }

    method Drain() returns (ghost order: seq<seq<byte>>)
      modifies `msgCache, `wire
      ensures msgCache == map[]
      ensures C.IsOrder(old(msgCache), order) && wire == old(wire) + C.Entries(old(msgCache), order)
    {
      order := [];
      while msgCache != map[]
        invariant DrainedBy(old(msgCache), order, msgCache)
        invariant wire == old(wire) + Taken(old(msgCache), order, msgCache)
        decreases |msgCache|
      {
        var s :| s in msgCache;
        wire := wire + [msgCache[s]];
        DrainOne(old(msgCache), order, msgCache, s);
        order := order + [s];
        assert (msgCache - {s}).Keys == msgCache.Keys - {s};
        msgCache := msgCache - {s};
      }
      DrainedAll(old(msgCache), order);
    }

    /** The timer expires; its callback now waits for the lock. */
    method Expire(timer: nat)
      requires timer in armed
      modifies `armed, `fired
      ensures View() == C.Apply(old(View()), C.Expire(timer))
    {
      armed, fired := armed - {timer}, fired + {timer};
    }

    method Callback(timer: nat) returns (ghost order: seq<seq<byte>>)
      requires timer in fired
      modifies `fired, `msgCache, `sendingFlag, `wire
      ensures C.IsOrder(old(msgCache), order)
      ensures View() == C.Apply(old(View()), C.Callback(timer, order))
      ensures wire == old(wire) + C.Wire(old(View()), C.Callback(timer, order))
    {
      fired := fired - {timer};
      order := Flush();
    }

    method OnClose()
      modifies `closed, `monitorCloses, `cancels, `removals, hub
      ensures View() == C.Apply(old(View()), C.OnClose)
      ensures hub.connects == if old(closed) then old(hub.connects) else old(hub.connects) - {id}
      ensures hub.closed == old(hub.closed) + (if !old(closed) && id in old(hub.connects) then [id] else [])
    {
      if closed { return; }
      if monitor { monitorCloses := monitorCloses + 1; }
      closed := true;
      cancels := cancels + 1;
      var removed := hub.Destroy(id);
      if removed { removals := removals + 1; }
    }
  }

  /** Taking the keys of `order` out of `cache` one by one leaves `left`. */
  predicate DrainedBy(cache: map<seq<byte>, C.Message>, order: seq<seq<byte>>, left: map<seq<byte>, C.Message>) {
    if order == [] then cache == left
    else order[0] in cache && DrainedBy(cache - {order[0]}, order[1..], left)
  }

  function Taken(cache: map<seq<byte>, C.Message>, order: seq<seq<byte>>, left: map<seq<byte>, C.Message>): seq<C.Message>
    requires DrainedBy(cache, order, left)
  {
    if order == [] then [] else [cache[order[0]]] + Taken(cache - {order[0]}, order[1..], left)
  }

  lemma {:induction false} DrainOne(cache: map<seq<byte>, C.Message>, order: seq<seq<byte>>,
                                    left: map<seq<byte>, C.Message>, key: seq<byte>)
    requires DrainedBy(cache, order, left) && key in left
    ensures DrainedBy(cache, order + [key], left - {key})
    ensures Taken(cache, order + [key], left - {key}) == Taken(cache, order, left) + [left[key]]
    decreases |order|
  {
    if order == [] {
      assert ([] + [key])[1..] == [];
    } else {
      DrainOne(cache - {order[0]}, order[1..], left, key);
      assert (order + [key])[1..] == order[1..] + [key];
    }
  }

  lemma {:induction false} DrainedAll(cache: map<seq<byte>, C.Message>, order: seq<seq<byte>>)
    requires DrainedBy(cache, order, map[])
    ensures C.IsOrder(cache, order) && C.Entries(cache, order) == Taken(cache, order, map[])
    decreases |order|
  {
    if order != [] { DrainedAll(cache - {order[0]}, order[1..]); }
  }
}
