/** The supervisor's download part: its queues changed in place by the events. */
module DownloadSupervisor {
  import opened Wrappers
  import opened Downloads

  class Supervisor {
    var started: bool
    var attempts: seq<Attempt>
    var results: seq<(nat, Report)>
    var waiters: seq<nat>
    var active: Option<string>
    var maxBytes: Option<int>
    var open: set<nat>
    var nextCall: nat
    var nextEvent: nat
    var finished: seq<(nat, Ending)>
    ghost var dropped: set<nat>
    var cancels: seq<string>

    ghost function Model(): State
      reads this
    {
      State(started, attempts, results, waiters, active, maxBytes, open, nextCall, nextEvent, finished, dropped, cancels)
    }

    constructor ()
      ensures Model() == Initial
    {
      started, attempts, results, waiters, active, maxBytes := false, [], [], [], None, None;
      open, nextCall, nextEvent, finished, dropped, cancels := {}, 0, 0, [], {}, [];
    }

    method PrepareDownload(limit: int)
      modifies this
      ensures Model() == Step(old(Model()), Prepare(limit))
    {
      dropped := dropped + Numbers(results);
      attempts, results, active, maxBytes := [], [], None, Some(limit);
    }

    /** A kept result is returned at once, even to a caller whose signal is already aborted. */
    method WaitForDownload(aborted: bool) returns (call: nat, r: Option<Ending>)
      modifies this
      ensures Model() == Step(old(Model()), Wait(aborted)) && call == old(nextCall)
      ensures r.None? <==> old(results) == [] && !aborted
      ensures r.Some? ==> finished == old(finished) + [(call, r.value)]
    {
      call := nextCall;
      nextCall := nextCall + 1;
      if results != [] {
        r := Some(Got(results[0].0, results[0].1));
        results := results[1..];
      } else if aborted {
        r := Some(WasAborted);
      } else {
        waiters := waiters + [call];
        open := open + {call};
        return call, None;
      }
      finished := finished + [(call, r.value)];
    }

    /** The settling call of one wait: off the queue, disarmed, settled. */
    method Settle(call: nat, e: Ending)
      modifies this`open, this`waiters, this`finished
      ensures Model() == Finish(old(Model()), call, e)
    {
      open := open - {call};
      waiters := Without(waiters, call);
      finished := finished + [(call, e)];
    }

    method TimeoutElapsed(call: nat)
      modifies this
      ensures Model() == Step(old(Model()), TimerFires(call))
    {
      if call !in open { return; }
      if attempts == [] {
        Settle(call, RanOut(Report(Failed, None, Some(SaveDialogSuspected))));
      } else {
        var last := attempts[|attempts| - 1];
        cancels := cancels + [last.guid];
        var reason := if last.received.None? || last.received.value == 0 then SaveDialogSuspected else CompletionTimeout;
        Settle(call, RanOut(Report(Downloads.Started, Some(last), Some(reason))));
      }
    }

    method SignalAborted(call: nat)
      modifies this
      ensures Model() == Step(old(Model()), AbortFires(call))
    {
      if call !in open { return; }
      if active.Some? { cancels := cancels + [active.value]; }
      Settle(call, WasAborted);
    }

    method HandleWillBegin(guid: string, url: Option<string>, name: Option<string>)
      modifies this
      ensures Model() == Step(old(Model()), WillBegin(guid, url, name))
    {
      if active.Some? && active.value != guid {
        cancels := cancels + [guid];
        return;
      }
      active := Some(guid);
      attempts := Put(attempts, Attempt(guid, url, name, None));
    }

    method HandleProgress(guid: string, state: string, received: Option<int>)
      modifies this
      ensures Model() == Step(old(Model()), Progress(guid, state, received))
    {
      var known := Lookup(attempts, guid);
      var attempt := if known.Some? then known.value else Attempt(guid, None, None, None);
      if received.Some? { attempt := attempt.(received := received); }
      var tooLarge := received.Some? && maxBytes.Some? && received.value > maxBytes.value;
      if !tooLarge && state != "completed" && state != "canceled" {
        attempts := Put(attempts, attempt);
        return;
      }
      if tooLarge { cancels := cancels + [guid]; }
      attempts := Remove(attempts, guid);
      active := None;
      if tooLarge {
        HandOver(Report(Failed, Some(attempt), Some(TooLarge)));
      } else if state == "completed" {
        HandOver(Report(Completed, Some(attempt), None));
      } else {
        HandOver(Report(Failed, Some(attempt), Some(Canceled)));
      }
    }

    method HandOver(report: Report)
      modifies this
      ensures Model() == Deliver(old(Model()), report)
    {
      var event := nextEvent;
      nextEvent := nextEvent + 1;
      if waiters == [] {
        results := results + [(event, report)];
      } else {
        Settle(waiters[0], Got(event, report));
      }
    }

    method Start()
      modifies this`started
      ensures Model() == Step(old(Model()), Downloads.Start)
    {
      started := true;
    }

    /** Waiting calls are taken off the queue without being settled. */
    method Close()
      modifies this
      ensures Model() == Step(old(Model()), Downloads.Close)
    {
      if !started { return; }
      dropped := dropped + Numbers(results);
      started, attempts, results, waiters, active, maxBytes := false, [], [], [], None, None;
    }
  }
}
