/** Live delivery: each run's subscribers, each with its own bounded channel. */
module Broadcasting {
  import opened EventStream

  type RunId = string
  type Channel = nat

  class Broadcaster {
    var runSubs: map<RunId, set<Channel>>
    // the open channels and what waits in each
    var queues: map<Channel, seq<Message>>
    var nextChannel: Channel

    ghost predicate Valid()
      reads this
    {
      && (forall r | r in runSubs :: runSubs[r] != {} && runSubs[r] <= queues.Keys)
      && (forall r, q | r in runSubs && q in runSubs && r != q :: runSubs[r] !! runSubs[q])
      && (forall c | c in queues :: c < nextChannel && |queues[c]| <= SSE_BUFFER)
    }

    function Subscribers(id: RunId): set<Channel>
      reads this
    {
      if id in runSubs then runSubs[id] else {}
    }

    constructor ()
      ensures Valid() && queues == map[] && runSubs == map[]
    {
      runSubs, queues, nextChannel := map[], map[], 0;
    }

    /** A new, empty channel that gets the run's messages from now on. */
    method SubscribeRun(id: RunId) returns (ch: Channel)
      requires Valid()
      modifies this
      ensures Valid()
      ensures ch !in old(queues) && queues == old(queues)[ch := []]
      ensures Subscribers(id) == old(Subscribers(id)) + {ch}
      ensures forall r | r != id :: Subscribers(r) == old(Subscribers(r))
    {
      ch := nextChannel;
      nextChannel := nextChannel + 1;
      queues := queues[ch := []];
      runSubs := runSubs[id := Subscribers(id) + {ch}];
    }

    /** Closes the channel if it is the run's; closing twice is harmless. */
    method UnsubscribeRun(id: RunId, ch: Channel)
      requires Valid()
      modifies this
      ensures Valid()
      ensures Subscribers(id) == old(Subscribers(id)) - {ch}
      ensures forall r | r != id :: Subscribers(r) == old(Subscribers(r))
      ensures queues == if ch in old(Subscribers(id)) then old(queues) - {ch} else old(queues)
    {
      if ch in Subscribers(id) {
        var rest := runSubs[id] - {ch};
        queues := queues - {ch};
        runSubs := if rest == {} then runSubs - {id} else runSubs[id := rest];
      }
    }

    /** Offers the message to each of the run's channels, blocking on none. */
    method SendRun(id: RunId, msg: Message)
      requires Valid()
      modifies `queues
      ensures Valid() && queues.Keys == old(queues.Keys)
      ensures forall c | c in queues ::
                queues[c] == if c in Subscribers(id) then Deliver(old(queues)[c], msg) else old(queues)[c]
    {
      var todo := Subscribers(id);
      while todo != {}
        invariant todo <= Subscribers(id) && queues.Keys == old(queues.Keys) && Valid()
        invariant forall c | c in queues ::
                    queues[c] == if c in Subscribers(id) - todo then Deliver(old(queues)[c], msg) else old(queues)[c]
      {
        var c :| c in todo;
        queues := queues[c := Deliver(queues[c], msg)];
        todo := todo - {c};
      }
    }
  }
}
