/** The client itself: a counter and a table of pending requests, changed by every event. */
module CdpClient {
  import opened Wrappers
  import opened CdpRequests

  class Client {
    var nextId: nat
    var pending: seq<nat>
    var timers: set<nat>
    var listeners: set<nat>
    var settled: seq<(nat, Outcome)>
    var sent: seq<nat>

    ghost function Model(): State
      reads this
    {
      State(nextId, pending, timers, listeners, settled, sent)
    }

    ghost predicate Valid()
      reads this
    {
      Inv(Model())
    }

    constructor ()
      ensures Valid() && Model() == Initial
    {
      nextId, pending, timers, listeners, settled, sent := 1, [], {}, {}, [], [];
    }

    /** The socket is asked only when nothing cancelled the request first. */
    method SendRequest(hasSignal: bool, abortedBefore: bool, abortedWhile: bool, throws: bool) returns (id: nat)
      requires Valid()
      modifies this
      ensures Valid() && Model() == Step(old(Model()), Send(hasSignal, abortedBefore, abortedWhile, throws))
      ensures id == old(nextId) && id !in old(sent)
    {
      StepKeeps(Model(), Send(hasSignal, abortedBefore, abortedWhile, throws));
      id := IssueRequest(hasSignal, abortedBefore, abortedWhile, throws);
    }

    method IssueRequest(hasSignal: bool, abortedBefore: bool, abortedWhile: bool, throws: bool) returns (id: nat)
      modifies this
      ensures Model() == Step(old(Model()), Send(hasSignal, abortedBefore, abortedWhile, throws)) && id == old(nextId)
    {
      id := nextId;
      nextId := nextId + 1;
      if hasSignal && abortedBefore {
        settled := settled + [(id, CdpRequests.Aborted)];
        return;
      }
      pending := pending + [id];
      timers := timers + {id};
      if hasSignal { listeners := listeners + {id}; }
      if hasSignal && abortedWhile {
        Finish(id, CdpRequests.Aborted);
        return;
      }
      if throws {
        Finish(id, SendFailed);
      } else {
        sent := sent + [id];
      }
    }

    /** The one way a pending request ends: removed, disarmed, then settled. */
    method Finish(id: nat, o: Outcome)
      modifies this`pending, this`timers, this`listeners, this`settled
      ensures Model() == Settle(old(Model()), id, o)
    {
      pending := Without(pending, id);
      timers := timers - {id};
      listeners := listeners - {id};
      settled := settled + [(id, o)];
    }

    method HandleReply(id: nat, isError: bool)
      requires Valid()
      modifies this
      ensures Valid() && Model() == Step(old(Model()), Reply(id, isError))
    {
      StepKeeps(Model(), Reply(id, isError));
      if id in pending { Finish(id, if isError then Rejected else Resolved); }
    }

    method TimeoutElapsed(id: nat)
      requires Valid()
      modifies this
      ensures Valid() && Model() == Step(old(Model()), TimerFires(id))
    {
      StepKeeps(Model(), TimerFires(id));
      if id in timers { Finish(id, TimedOut); }
    }

    method SignalAborted(id: nat)
      requires Valid()
      modifies this
      ensures Valid() && Model() == Step(old(Model()), AbortFires(id))
    {
      StepKeeps(Model(), AbortFires(id));
      if id in listeners { Finish(id, CdpRequests.Aborted); }
    }

    /** Rejects in insertion order and empties the table only afterwards. */
    method RejectAll()
      requires Valid()
      modifies this
      ensures Valid() && Model() == Step(old(Model()), SocketEnds) && pending == []
    {
      StepKeeps(Model(), SocketEnds);
      for i := 0 to |pending|
        invariant pending == old(pending) && nextId == old(nextId) && sent == old(sent)
        invariant timers == old(timers) - Members(pending[..i]) && listeners == old(listeners) - Members(pending[..i])
        invariant settled == old(settled) + Ended(pending)[..i]
      {
        timers := timers - {pending[i]};
        listeners := listeners - {pending[i]};
        settled := settled + [(pending[i], SocketEnded)];
        assert pending[..i + 1] == pending[..i] + [pending[i]];
        assert Members(pending[..i + 1]) == Members(pending[..i]) + {pending[i]};
      }
      assert pending[..|pending|] == pending;
      assert Ended(pending)[..|pending|] == Ended(pending);
      pending := [];
    }
  }
}
