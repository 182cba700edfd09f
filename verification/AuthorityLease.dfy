/** The lease that keeps the host's external displays for a while after a disconnect.

    Clock readings are nanoseconds of one steady clock; `history` is a history variable with
    everything the worker did, and whether a check found the lease expired. */
module AuthorityLease {
  import opened Options

  const NANOS_PER_MILLI := 1_000_000

  datatype Config = Config(reconnectIntervalMillis: int, authorityLeaseMillis: int)

  predicate ValidConfig(c: Config) { c.reconnectIntervalMillis > 0 && c.authorityLeaseMillis > 0 }

  function LeaseNanos(c: Config): int { c.authorityLeaseMillis * NANOS_PER_MILLI }

  /** What the worker does: look at the lease, answer a request, notice the end of a connection,
      or wait before it tries to accept again. */
  datatype Event = Check(now: int) | Answer(refreshes: bool) | Disconnect(now: int) | Wait(now: int)

  datatype Entry = Entry(event: Event, expired: bool)

  datatype State = State(hasAuthoritativeSnapshot: bool, leaseDeadline: Option<int>, history: seq<Entry>)

  const INITIAL: State := State(false, None, [])

  predicate IsDue(s: State, now: int) { s.leaseDeadline.Some? && now >= s.leaseDeadline.value }

  function Step(c: Config, s: State, event: Event): State {
    var expired := event.Check? && IsDue(s, event.now);
    var after := s.(history := s.history + [Entry(event, expired)]);
    match event
    case Check(now) => if expired then after.(hasAuthoritativeSnapshot := false, leaseDeadline := None) else after
    case Answer(refreshes) => if refreshes then after.(hasAuthoritativeSnapshot := true, leaseDeadline := None) else after
    case Disconnect(now) =>
      if s.hasAuthoritativeSnapshot && s.leaseDeadline.None? then after.(leaseDeadline := Some(now + LeaseNanos(c)))
      else after
    case Wait(_) => after
  }

  function Run(c: Config, events: seq<Event>): State {
    if events == [] then INITIAL else Step(c, Run(c, events[..|events| - 1]), events[|events| - 1])
  }

  /** How long to wait before the next attempt to accept, in milliseconds. */
  function ReconnectWait(c: Config, s: State, now: int): int {
    if s.leaseDeadline.None? then c.reconnectIntervalMillis
    else if now >= s.leaseDeadline.value then 0
    else
      var remaining := (s.leaseDeadline.value - now) / NANOS_PER_MILLI;
      if remaining < c.reconnectIntervalMillis then remaining else c.reconnectIntervalMillis
  }

  // ---------- what history says ----------

  predicate IsRefresh(e: Entry) { e.event.Answer? && e.event.refreshes }

  /** Entry `r` is the refresh the current authority rests on: none since, and no expiry since. */
  ghost predicate Authority(h: seq<Entry>, r: int) {
    && 0 <= r < |h| && IsRefresh(h[r])
    && forall k :: r < k < |h| ==> !IsRefresh(h[k]) && !h[k].expired
  }

  /** Entry `d` is the first disconnect after entry `r`. */
  ghost predicate FirstDisconnect(h: seq<Entry>, r: int, d: int) {
    && 0 <= r < d < |h| && h[d].event.Disconnect?
    && forall k :: r < k < d ==> !h[k].event.Disconnect?
  }

  /** The worker's two fields say what history says. */
  ghost predicate Matches(c: Config, s: State) {
    && (s.hasAuthoritativeSnapshot <==> exists r :: Authority(s.history, r))
    && (s.leaseDeadline.Some? ==>
          exists r, d :: Authority(s.history, r) && FirstDisconnect(s.history, r, d)
                         && s.leaseDeadline.value == s.history[d].event.now + LeaseNanos(c))
    && (s.leaseDeadline.None? ==>
          forall r, d :: Authority(s.history, r) && r < d < |s.history| ==> !s.history[d].event.Disconnect?)
  }

  lemma {:induction false} AuthorityIsUnique(h: seq<Entry>, q: int, r: int)
    requires Authority(h, q) && Authority(h, r)
    ensures q == r
  {
  }

  /** Nothing but a refresh or an expiry ends an authority. */
  lemma {:induction false} AuthorityStays(h: seq<Entry>, e: Entry, r: int)
    requires !IsRefresh(e) && !e.expired && r < |h|
    ensures Authority(h + [e], r) <==> Authority(h, r)
  {
    assert forall k :: 0 <= k < |h| ==> (h + [e])[k] == h[k];
  }

  lemma {:induction false} DisconnectStays(h: seq<Entry>, e: Entry, r: int, d: int)
    requires FirstDisconnect(h, r, d)
    ensures FirstDisconnect(h + [e], r, d)
  {
    assert forall k :: 0 <= k < |h| ==> (h + [e])[k] == h[k];
  }

  lemma {:induction false} StepMatches(c: Config, s: State, event: Event)
    requires Matches(c, s)
    ensures Matches(c, Step(c, s, event))
  {
    var s' := Step(c, s, event);
    var h, e := s.history, s'.history[|s.history|];
    var h' := s'.history;
    assert h' == h + [e];
    if IsRefresh(e) {
      assert Authority(h', |h|);
      assert forall r :: Authority(h', r) ==> r == |h|;
    } else if e.expired {
      forall r ensures !Authority(h', r) {
        assert h'[|h|].expired;
      }
    } else {
      forall r ensures Authority(h', r) <==> r < |h| && Authority(h, r) {
        if r < |h| {
          AuthorityStays(h, e, r);
        }
      }
      assert forall k :: 0 <= k < |h| ==> h'[k] == h[k];
      if s.leaseDeadline.Some? {
        var r, d :| Authority(h, r) && FirstDisconnect(h, r, d) && s.leaseDeadline.value == h[d].event.now + LeaseNanos(c);
        DisconnectStays(h, e, r, d);
      } else if event.Disconnect? && s.hasAuthoritativeSnapshot {
        var r :| Authority(h, r);
        assert FirstDisconnect(h', r, |h|);
      }
    }
  }

  lemma {:induction false} RunMatches(c: Config, events: seq<Event>)
    ensures Matches(c, Run(c, events))
  {
    hide Matches;
    hide Step;
    if events == [] {
      InitialMatches(c);
    } else {
      RunMatches(c, events[..|events| - 1]);
      StepMatches(c, Run(c, events[..|events| - 1]), events[|events| - 1]);
    }
  }

  lemma {:induction false} InitialMatches(c: Config)
    ensures Matches(c, INITIAL)
  {
  }

  // ---------- every timed run ----------

  /** A check finds the lease expired exactly when a refreshing response came before a disconnect
      that lies one lease or more back, with no refresh and no expiry since that response; the
      disconnect that counts is the first one after it. */
  lemma {:induction false} ExpiresExactlyWhenDue(c: Config, events: seq<Event>, now: int)
    ensures var s := Run(c, events);
            IsDue(s, now) <==> exists r, d :: Authority(s.history, r) && FirstDisconnect(s.history, r, d)
                                              && now >= s.history[d].event.now + LeaseNanos(c)
  {
    RunMatches(c, events);
    hide Run;
    var s := Run(c, events);
    if r, d :| Authority(s.history, r) && FirstDisconnect(s.history, r, d)
               && now >= s.history[d].event.now + LeaseNanos(c) {
      assert s.leaseDeadline.Some?;
      var q, b :| Authority(s.history, q) && FirstDisconnect(s.history, q, b)
                  && s.leaseDeadline.value == s.history[b].event.now + LeaseNanos(c);
      AuthorityIsUnique(s.history, q, r);
    }
  }

  /** Between two expiries lies a refresh: an authority expires at most once. */
  lemma {:induction false} ExpiresOncePerAuthority(c: Config, events: seq<Event>, i: nat, j: nat)
    requires var h := Run(c, events).history; i < j < |h| && h[i].expired && h[j].expired
    ensures var h := Run(c, events).history; exists r :: i < r < j && IsRefresh(h[r])
    decreases |events|
  {
    HistoryGrows(c, events);
    var front := events[..|events| - 1];
    if j < |events| - 1 {
      ExpiresOncePerAuthority(c, front, i, j);
      var r :| i < r < j && IsRefresh(Run(c, front).history[r]);
      assert IsRefresh(Run(c, events).history[r]);
    } else {
      var before := Run(c, front);
      RunMatches(c, front);
      var r, d :| Authority(before.history, r) && FirstDisconnect(before.history, r, d)
                  && before.leaseDeadline.value == before.history[d].event.now + LeaseNanos(c);
      assert r >= i && !(IsRefresh(before.history[i]));
      assert IsRefresh(Run(c, events).history[r]);
    }
  }

  lemma {:induction false} HistoryGrows(c: Config, events: seq<Event>)
    ensures |Run(c, events).history| == |events|
    ensures events != [] ==>
              var front := Run(c, events[..|events| - 1]);
              && Run(c, events).history[..|events| - 1] == front.history
              && Run(c, events).history[|events| - 1]
                 == Entry(events[|events| - 1], events[|events| - 1].Check? && IsDue(front, events[|events| - 1].now))
    ensures forall k :: 0 <= k < |events| && Run(c, events).history[k].expired ==>
              events[k].Check? && !IsRefresh(Run(c, events).history[k])
  {
    if events != [] {
      HistoryGrows(c, events[..|events| - 1]);
      var front := Run(c, events[..|events| - 1]);
      forall k | 0 <= k < |events| && Run(c, events).history[k].expired
        ensures events[k].Check? && !IsRefresh(Run(c, events).history[k])
      {
        if k < |events| - 1 {
          assert Run(c, events).history[k] == front.history[k];
        }
      }
    }
  }

  /** Without a refresh a pending deadline stays as it is until a check at or after it ends the
      authority for good: connecting again, answering queries and losing the connection once more
      never extend it. */
  lemma {:induction false} DeadlineIsNeverExtended(c: Config, events: seq<Event>, more: seq<Event>)
    requires Run(c, events).leaseDeadline.Some? && Answer(true) !in more
    ensures var deadline, s := Run(c, events).leaseDeadline.value, Run(c, events + more);
            if exists k :: 0 <= k < |more| && more[k].Check? && more[k].now >= deadline
            then s.leaseDeadline.None? && !s.hasAuthoritativeSnapshot
            else s.leaseDeadline == Some(deadline)
  {
    if more == [] {
      assert events + more == events;
    } else {
      var n := |more| - 1;
      DeadlineIsNeverExtended(c, events, more[..n]);
      assert (events + more)[..|events + more| - 1] == events + more[..n];
      var deadline, before := Run(c, events).leaseDeadline.value, Run(c, events + more[..n]);
      RunMatches(c, events + more[..n]);
      if k :| 0 <= k < |more| && more[k].Check? && more[k].now >= deadline {
        assert k < n ==> more[..n][k] == more[k];
      }
    }
  }

  /** A wait is the reconnect interval, or the whole milliseconds up to a pending deadline if these
      are fewer, and none once the deadline has passed. */
  lemma {:induction false} WaitEndsBeforeDeadline(c: Config, events: seq<Event>, now: int)
    requires ValidConfig(c)
    ensures var s, wait := Run(c, events), ReconnectWait(c, Run(c, events), now);
            && 0 <= wait <= c.reconnectIntervalMillis
            && (s.leaseDeadline.None? ==> wait == c.reconnectIntervalMillis)
            && (s.leaseDeadline.Some? && now >= s.leaseDeadline.value ==> wait == 0)
            && (s.leaseDeadline.Some? && now <= s.leaseDeadline.value ==> now + wait * NANOS_PER_MILLI <= s.leaseDeadline.value)
            && (s.leaseDeadline.Some? && wait < c.reconnectIntervalMillis ==>
                  s.leaseDeadline.value < now + (wait + 1) * NANOS_PER_MILLI)
  {
    hide Run;
  }

  // ---------- the channel's worker ----------

  /** What one pass of the worker loop meets: nobody to accept, or a connection on which it looks
      at the lease and answers requests until the connection ends. */
  datatype Turn =
    | NobodyThere(checkAt: int, waitAt: int, recheckAt: int)
    | Connection(checkAt: int, served: seq<Event>, endAt: int)

  function TurnEvents(c: Config, s: State, turn: Turn): seq<Event> {
    match turn
    case NobodyThere(checkAt, waitAt, recheckAt) =>
      [Check(checkAt), Wait(waitAt)]
      + (if ReconnectWait(c, Step(c, Step(c, s, Check(checkAt)), Wait(waitAt)), waitAt) <= 0 then [Check(recheckAt)] else [])
    case Connection(checkAt, served, endAt) => [Check(checkAt)] + served + [Disconnect(endAt)]
  }

  predicate IsServed(served: seq<Event>) {
    forall k :: 0 <= k < |served| ==> served[k].Check? || served[k].Answer?
  }

  function Turns(c: Config, turns: seq<Turn>): seq<Event> {
    if turns == [] then []
    else
      var before := Turns(c, turns[..|turns| - 1]);
      before + TurnEvents(c, Run(c, before), turns[|turns| - 1])
  }

  class HostControlChannel {
    const config: Config
    var hasAuthoritativeSnapshot: bool
    var leaseDeadline: Option<int>
    ghost var history: seq<Entry>

    ghost function Abs(): State
      reads this
    {
      State(hasAuthoritativeSnapshot, leaseDeadline, history)
    }

    constructor (config: Config)
      ensures Abs() == INITIAL && this.config == config
    {
      this.config := config;
      hasAuthoritativeSnapshot, leaseDeadline, history := false, None, [];
    }

    method NextReconnectWait(now: int) returns (wait: int)
      modifies this`history
      ensures Abs() == Step(config, old(Abs()), Wait(now)) && wait == ReconnectWait(config, old(Abs()), now)
    {
      history := history + [Entry(Wait(now), false)];
      if leaseDeadline.None? {
        return config.reconnectIntervalMillis;
      }
      if now >= leaseDeadline.value {
        return 0;
      }
      var remaining := (leaseDeadline.value - now) / NANOS_PER_MILLI;
      wait := if remaining < config.reconnectIntervalMillis then remaining else config.reconnectIntervalMillis;
    }

    method ExpireLeaseIfNeeded(now: int)
      modifies this
      ensures Abs() == Step(config, old(Abs()), Check(now))
    {
      if leaseDeadline.None? || now < leaseDeadline.value {
        history := history + [Entry(Check(now), false)];
        return;
      }
      leaseDeadline := None;
      hasAuthoritativeSnapshot := false;
      history := history + [Entry(Check(now), true)];
    }

    method RecordAnswer(refreshes: bool)
      modifies this
      ensures Abs() == Step(config, old(Abs()), Answer(refreshes))
    {
      if refreshes {
        hasAuthoritativeSnapshot := true;
        leaseDeadline := None;
      }
      history := history + [Entry(Answer(refreshes), false)];
    }

    method BeginDisconnectLease(now: int)
      modifies this
      ensures Abs() == Step(config, old(Abs()), Disconnect(now))
    {
      history := history + [Entry(Disconnect(now), false)];
      if !hasAuthoritativeSnapshot || leaseDeadline.Some? {
        return;
      }
      leaseDeadline := Some(now + config.authorityLeaseMillis * NANOS_PER_MILLI);
    }

    method ProcessConnection(served: seq<Event>)
      requires IsServed(served)
      modifies this
      ensures Abs() == Continue(config, old(Abs()), served)
    {
      for k := 0 to |served|
        invariant Abs() == Continue(config, old(Abs()), served[..k])
      {
        assert served[..k + 1][..k] == served[..k];
        match served[k]
        case Check(now) => ExpireLeaseIfNeeded(now);
        case Answer(refreshes) => RecordAnswer(refreshes);
      }
      assert served[..|served|] == served;
    }

    /** The worker loop over the turns it meets before it is stopped. */
    method RunWorker(turns: seq<Turn>)
      requires Abs() == INITIAL
      requires forall k :: 0 <= k < |turns| && turns[k].Connection? ==> IsServed(turns[k].served)
      modifies this
      ensures Abs() == Run(config, Turns(config, turns))
    {
      for k := 0 to |turns|
        invariant Abs() == Run(config, Turns(config, turns[..k]))
      {
        ghost var before := Turns(config, turns[..k]);
        assert turns[..k + 1][..k] == turns[..k];
        RunTurn(turns[k]);
        ContinueRun(config, before, TurnEvents(config, Run(config, before), turns[k]));
      }
      assert turns[..|turns|] == turns;
    }

    method RunTurn(turn: Turn)
      requires turn.Connection? ==> IsServed(turn.served)
      modifies this
      ensures Abs() == Continue(config, old(Abs()), TurnEvents(config, old(Abs()), turn))
    {
      ghost var start := Abs();
      ExpireLeaseIfNeeded(turn.checkAt);
      match turn
      case NobodyThere(checkAt, waitAt, recheckAt) =>
        var wait := NextReconnectWait(waitAt);
        ContinueTwo(config, start, Check(checkAt), Wait(waitAt));
        if wait <= 0 {
          ExpireLeaseIfNeeded(recheckAt);
          ContinueMore(config, start, [Check(checkAt), Wait(waitAt)], Check(recheckAt));
        }
      case Connection(checkAt, served, endAt) =>
        ProcessConnection(served);
        BeginDisconnectLease(endAt);
        ContinueAround(config, start, checkAt, served, endAt);
    }
  }

  /** A run that goes on from a state. */
  function Continue(c: Config, s: State, events: seq<Event>): State {
    if events == [] then s else Step(c, Continue(c, s, events[..|events| - 1]), events[|events| - 1])
  }

  lemma {:induction false} ContinueMore(c: Config, s: State, events: seq<Event>, event: Event)
    ensures Continue(c, s, events + [event]) == Step(c, Continue(c, s, events), event)
  {
    assert (events + [event])[..|events|] == events;
  }

  lemma {:induction false} ContinueTwo(c: Config, s: State, a: Event, b: Event)
    ensures Continue(c, s, [a, b]) == Step(c, Step(c, s, a), b)
  {
    hide Step;
    ContinueMore(c, s, [], a);
    ContinueMore(c, s, [a], b);
    assert [] + [a] == [a] && [a] + [b] == [a, b];
  }

  lemma {:induction false} ContinueTwice(c: Config, s: State, first: seq<Event>, second: seq<Event>)
    ensures Continue(c, s, first + second) == Continue(c, Continue(c, s, first), second)
  {
    hide Step;
    if second == [] {
      assert first + second == first;
    } else {
      ContinueTwice(c, s, first, second[..|second| - 1]);
      assert (first + second)[..|first + second| - 1] == first + second[..|second| - 1];
    }
  }

  lemma {:induction false} ContinueAround(c: Config, s: State, checkAt: int, served: seq<Event>, endAt: int)
    ensures Continue(c, s, [Check(checkAt)] + served + [Disconnect(endAt)])
            == Step(c, Continue(c, Step(c, s, Check(checkAt)), served), Disconnect(endAt))
  {
    hide Step;
    ContinueMore(c, s, [], Check(checkAt));
    assert [] + [Check(checkAt)] == [Check(checkAt)];
    ContinueTwice(c, s, [Check(checkAt)], served);
    ContinueMore(c, s, [Check(checkAt)] + served, Disconnect(endAt));
  }

  lemma {:induction false} ContinueRun(c: Config, before: seq<Event>, more: seq<Event>)
    ensures Continue(c, Run(c, before), more) == Run(c, before + more)
  {
    hide Step;
    if more == [] {
      assert before + more == before;
    } else {
      ContinueRun(c, before, more[..|more| - 1]);
      assert (before + more)[..|before + more| - 1] == before + more[..|more| - 1];
    }
  }
}
