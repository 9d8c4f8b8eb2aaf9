/** The status poller: an interval timer, one request at a time, and replies that may come late. */
module Polling {

  /** What an observer of the poller sees: effective starts, requests, and terminal or failed replies. */
  datatype Note = Started | Requested | Ended

  /** `timerSet` is `_timer !== null`; `outstanding` counts requests without a reply. */
  datatype Poll = Poll(timerSet: bool, inflight: bool, outstanding: nat, log: seq<Note>)

  datatype Outcome = Pending | Terminal | Failed

  /** A callback run by a reply may itself call `stop()`. */
  datatype Event = Start | Stop | TimerFires | Reply(outcome: Outcome, callbackStops: bool)

  function Idle(): Poll {
    Poll(false, false, 0, [])
  }

  predicate Enabled(p: Poll, ev: Event) {
    match ev
    case TimerFires => p.timerSet
    case Reply(_, _) => p.outstanding > 0
    case _ => true
  }

  /** `_tick` up to its request. */
  function Tick(p: Poll): Poll {
    if p.inflight then p
    else p.(inflight := true, outstanding := p.outstanding + 1, log := p.log + [Requested])
  }

  function Handle(p: Poll, ev: Event): Poll
    requires Enabled(p, ev)
  {
    match ev
    case Start => if p.timerSet then p else Tick(p.(log := p.log + [Started])).(timerSet := true)
    case Stop => p.(timerSet := false)
    case TimerFires => Tick(p)
    case Reply(outcome, callbackStops) =>
      Poll(p.timerSet && outcome.Pending? && !callbackStops, false, p.outstanding - 1,
           p.log + if outcome.Pending? then [] else [Ended])
  }

  ghost predicate Run(p: Poll, evs: seq<Event>, end: Poll)
    decreases |evs|
  {
    if evs == [] then p == end else Enabled(p, evs[0]) && Run(Handle(p, evs[0]), evs[1..], end)
  }

  /** The log ends in a terminal or failed reply that no start has followed yet. */
  predicate Dead(log: seq<Note>) {
    log != [] && (log[|log| - 1] == Ended || (log[|log| - 1] != Started && Dead(log[..|log| - 1])))
  }

  /** No request and no second ending happens while the log is dead. */
  ghost predicate Disciplined(log: seq<Note>) {
    forall j | 0 <= j < |log| :: log[j] != Started ==> !Dead(log[..j])
  }

  ghost predicate Inv(p: Poll) {
    && p.outstanding == (if p.inflight then 1 else 0)
    && (Dead(p.log) ==> !p.timerSet && !p.inflight)
    && Disciplined(p.log)
  }

  lemma Extended(log: seq<Note>, note: Note)
    requires Disciplined(log) && (note != Started ==> !Dead(log))
    ensures Disciplined(log + [note])
    ensures Dead(log + [note]) <==> note == Ended
  {
    assert (log + [note])[..|log|] == log;
    forall j | 0 <= j < |log| ensures (log + [note])[..j] == log[..j] {
    }
  }

  lemma StepKeepsInv(p: Poll, ev: Event)
    requires Inv(p) && Enabled(p, ev)
    ensures Inv(Handle(p, ev))
  {
    match ev {
      case Start =>
        if !p.timerSet {
          Extended(p.log, Started);
          if !p.inflight { Extended(p.log + [Started], Requested); }
        }
      case Stop =>
      case TimerFires => if !p.inflight { Extended(p.log, Requested); }
      case Reply(outcome, _) =>
        if outcome.Pending? {
          assert p.log + [] == p.log;
        } else {
          Extended(p.log, Ended);
        }
    }
  }

  lemma {:induction false} RunKeepsInv(p: Poll, evs: seq<Event>, end: Poll)
    requires Inv(p) && Run(p, evs, end)
    ensures Inv(end)
    decreases |evs|
  {
    if evs != [] {
      StepKeepsInv(p, evs[0]);
      RunKeepsInv(Handle(p, evs[0]), evs[1..], end);
    }
  }

  lemma {:induction false} DeadUntilStart(log: seq<Note>, i: nat, j: nat)
    requires i < j <= |log| && log[i] == Ended && forall k | i < k < j :: log[k] != Started
    ensures Dead(log[..j])
    decreases j
  {
    assert log[..j][..j - 1] == log[..j - 1];
    if i < j - 1 { DeadUntilStart(log, i, j - 1); }
  }

  /**
   In every interleaving of starts, stops, timer fires and replies: at most one request
   is outstanding, and after a terminal or failed reply there is no request and no
   further ending before the next effective start.
   */
  lemma PollerSafety(evs: seq<Event>, end: Poll)
    requires Run(Idle(), evs, end)
    ensures end.outstanding <= 1 && (end.inflight <==> end.outstanding == 1)
    ensures forall i, j | 0 <= i < j < |end.log| && end.log[i] == Ended && end.log[j] != Started ::
      exists k :: i < k < j && end.log[k] == Started
  {
    RunKeepsInv(Idle(), evs, end);
    forall i, j | 0 <= i < j < |end.log| && end.log[i] == Ended && end.log[j] != Started
      ensures exists k :: i < k < j && end.log[k] == Started
    {
      if forall k | i < k < j :: end.log[k] != Started { DeadUntilStart(end.log, i, j); }
    }
  }

  /** After a terminal or failed reply the poller is quiet: no timer is set and nothing is outstanding. */
  lemma QuietAfterEnding(evs: seq<Event>, p: Poll, callbackStops: bool, outcome: Outcome)
    requires Run(Idle(), evs, p) && p.outstanding > 0 && !outcome.Pending?
    ensures var q := Handle(p, Reply(outcome, callbackStops)); !q.timerSet && !q.inflight && q.outstanding == 0
  {
    RunKeepsInv(Idle(), evs, p);
  }

  /**
   A running poller polls: a timer fire with nothing in flight sends exactly one request,
   one with a request in flight sends none, and a pending reply leaves the timer running.
   */
  lemma FireSendsOne(evs: seq<Event>, p: Poll)
    requires Run(Idle(), evs, p) && p.timerSet
    ensures var q := Handle(p, TimerFires);
      && q.timerSet && q.outstanding == 1
      && q.log == p.log + if p.outstanding == 0 then [Requested] else []
    ensures p.outstanding > 0 ==>
      var q := Handle(p, Reply(Pending, false)); q.timerSet && q.outstanding == 0 && q.log == p.log
  {
    RunKeepsInv(Idle(), evs, p);
    assert p.log + [] == p.log;
  }

  class Poller {
    var timerSet: bool
    var inflight: bool
    var outstanding: nat
    var log: seq<Note>

    function Now(): Poll
      reads this
    {
      Poll(timerSet, inflight, outstanding, log)
    }

    constructor ()
      ensures Now() == Idle()
    {
      timerSet, inflight, outstanding, log := false, false, 0, [];
    }

    method StartPolling()
      modifies this
      ensures Now() == Handle(old(Now()), Start)
      ensures timerSet
      ensures if old(timerSet) then Now() == old(Now())
              else if old(inflight) then Now() == old(Now()).(timerSet := true, log := old(log) + [Started])
              else Now() == Poll(true, true, old(outstanding) + 1, old(log) + [Started] + [Requested])
    {
      if timerSet {
        return;
      }
      log := log + [Started];
      BeginTick();
      timerSet := true;
    }

    method StopPolling()
      modifies this`timerSet
      ensures Now() == Handle(old(Now()), Stop)
      ensures !timerSet
    {
      if !timerSet {
        return;
      }
      timerSet := false;
    }

    /** `_tick` up to the await. */
    method BeginTick()
      modifies this`inflight, this`outstanding, this`log
      ensures Now() == Tick(old(Now()))
      ensures inflight
      ensures outstanding == old(outstanding) + (if old(inflight) then 0 else 1)
      ensures log == old(log) + (if old(inflight) then [] else [Requested])
    {
      if inflight {
        return;
      }
      inflight := true;
      outstanding := outstanding + 1;
      log := log + [Requested];
    }

    /** `_tick` from the reply on, with its callbacks. */
    method EndTick(outcome: Outcome, callbackStops: bool)
      requires outstanding > 0
      modifies this
      ensures Now() == Handle(old(Now()), Reply(outcome, callbackStops))
      ensures timerSet == (old(timerSet) && outcome.Pending? && !callbackStops)
      ensures !inflight && outstanding == old(outstanding) - 1
      ensures log == old(log) + (if outcome.Pending? then [] else [Ended])
    {
      outstanding := outstanding - 1;
      if callbackStops {
        StopPolling();
      }
      if !outcome.Pending? {
        StopPolling();
        log := log + [Ended];
      }
      inflight := false;
    }
  }
}
