/** The rate-limited sender of configuration events. A handler fills a slot for one; at each tick the
    loop empties it and offers an event to the main loop, which may be busy; then the notification goes
    back into the slot. Watchers, handlers, sender and main loop take turns in any way. */
module EventSending {

  /** What the watched resources say; only its identity matters. */
  type Config = int

  /** `Refused`: the main loop did not take the event. */
  datatype Sender = Waiting | Ticked | Holding | Refused

  /** The main loop waits for an event, has got one, or has loaded the configuration. */
  datatype Receiver = Ready | Got | Loaded(config: Config)

  /** `dropped`: an event was used up by a configuration that could not be loaded or applied. */
  datatype State = State(config: Config, handlers: nat, slot: bool, sender: Sender, receiver: Receiver,
                         applied: Config, dropped: bool)

  datatype Event = Change(config: Config) | Handle | Tick | Take | Skip | Send | Refuse | PutBack | Load | Fail | Apply

  /** The channel has no buffer: an event is sent only to a main loop that is ready for it. It may be
      refused at any time, also when the main loop handles something else than events. */
  ghost predicate Next(s: State, e: Event, t: State) {
    match e
    case Change(config) => t == s.(config := config, handlers := s.handlers + 1)
    case Handle => s.handlers > 0 && t == s.(handlers := s.handlers - 1, slot := true)
    case Tick => s.sender == Waiting && t == s.(sender := Ticked)
    case Take => s.sender == Ticked && s.slot && t == s.(sender := Holding, slot := false)
    case Skip => s.sender == Ticked && !s.slot && t == s.(sender := Waiting)
    case Send => s.sender == Holding && s.receiver == Ready && t == s.(sender := Waiting, receiver := Got)
    case Refuse => s.sender == Holding && t == s.(sender := Refused)
    case PutBack => s.sender == Refused && t == s.(sender := Waiting, slot := true)
    case Load => s.receiver == Got && t == s.(receiver := Loaded(s.config), dropped := false)
    case Fail => s.receiver != Ready && t == s.(receiver := Ready, dropped := true)
    case Apply => s.receiver.Loaded? && t == s.(receiver := Ready, applied := s.receiver.config)
  }

  ghost predicate IsRun(states: seq<State>, events: seq<Event>) {
    && |states| == |events| + 1
    && forall i :: 0 <= i < |events| ==> Next(states[i], events[i], states[i + 1])
  }

  predicate OnItsWay(s: State) {
    s.handlers > 0 || s.slot || s.sender == Holding || s.sender == Refused || s.receiver == Got
  }

  /** A change that is not applied is on its way, was loaded, or its event was dropped. */
  predicate NothingLost(s: State) {
    && (s.applied == s.config || OnItsWay(s) || s.receiver == Loaded(s.config) || s.dropped)
    && (s.receiver.Loaded? && s.receiver.config != s.config ==> OnItsWay(s))
  }

  lemma StepLosesNothing(s: State, e: Event, t: State)
    requires NothingLost(s) && Next(s, e, t)
    ensures NothingLost(t)
  {
  }

  lemma {:induction false} RunLosesNothing(states: seq<State>, events: seq<Event>, i: nat)
    requires IsRun(states, events) && NothingLost(states[0]) && i < |states|
    ensures NothingLost(states[i])
  {
    if i > 0 {
      RunLosesNothing(states, events, i - 1);
      StepLosesNothing(states[i - 1], events[i - 1], states[i]);
    }
  }

  predicate Quiet(s: State) {
    s.handlers == 0 && !s.slot && (s.sender == Waiting || s.sender == Ticked) && s.receiver == Ready
  }

  function Start(config: Config): State {
    State(config, 0, false, Waiting, Ready, config, false)
  }

  /** When everything has come to rest, the configuration is the applied one unless the last event was
      used up by a failure. */
  lemma QuietMeansApplied(states: seq<State>, events: seq<Event>, i: nat)
    requires IsRun(states, events) && i < |states| && states[0] == Start(states[0].config)
    requires Quiet(states[i]) && !states[i].dropped
    ensures states[i].applied == states[i].config
  {
    RunLosesNothing(states, events, i);
  }

  /** Without a change nothing happens any more once everything has come to rest: what is not applied
      by then stays so. A resync of the informers, which notifies of unchanged resources as well, is a
      change to the same configuration. */
  lemma {:induction false} QuietStays(states: seq<State>, events: seq<Event>, i: nat)
    requires IsRun(states, events) && Quiet(states[0]) && i < |states|
    requires forall e :: e in events ==> !e.Change?
    ensures Quiet(states[i]) && states[i].dropped == states[0].dropped
    ensures states[i].config == states[0].config && states[i].applied == states[0].applied
  {
    if i > 0 {
      QuietStays(states, events, i - 1);
      assert Next(states[i - 1], events[i - 1], states[i]);
      assert events[i - 1] in events;
    }
  }

  predicate EndsWithLoss(states: seq<State>, events: seq<Event>) {
    && states != [] && states[0] == Start(0)
    && (exists i :: 0 <= i < |events| && events[i] == Fail)
    && var last := states[|states| - 1]; Quiet(last) && last.dropped && last.applied != last.config
  }

  /** A failure can use up the event of a change that is not applied then. */
  lemma FailureLosesChange()
    ensures exists states, events :: IsRun(states, events) && EndsWithLoss(states, events)
  {
    var s0 := Start(0);
    var s1 := s0.(config := 1, handlers := 1);
    var s2 := s1.(handlers := 0, slot := true);
    var s3 := s2.(sender := Ticked);
    var s4 := s3.(sender := Holding, slot := false);
    var s5 := s4.(sender := Waiting, receiver := Got);
    var s6 := s5.(receiver := Ready, dropped := true);
    var states, events := [s0, s1, s2, s3, s4, s5, s6], [Change(1), Handle, Tick, Take, Send, Fail];
    assert events[5] == Fail;
    assert IsRun(states, events) && EndsWithLoss(states, events);
  }

  /** At rest the configuration is not applied only if a configuration could not be loaded or applied
      since the last one that was loaded. */
  lemma {:induction false} LostByFailure(states: seq<State>, events: seq<Event>)
    requires IsRun(states, events) && states[0] == Start(states[0].config)
    requires Quiet(states[|events|]) && states[|events|].applied != states[|events|].config
    ensures exists i :: 0 <= i < |events| && events[i] == Fail && forall j :: i < j < |events| ==> events[j] != Load
  {
    RunLosesNothing(states, events, |events|);
    DroppedByFailure(states, events, |events|);
  }

  lemma {:induction false} DroppedByFailure(states: seq<State>, events: seq<Event>, n: nat)
    requires IsRun(states, events) && !states[0].dropped && n <= |events| && states[n].dropped
    ensures exists i :: 0 <= i < n && events[i] == Fail && forall j :: i < j < n ==> events[j] != Load
  {
    if n > 0 {
      assert Next(states[n - 1], events[n - 1], states[n]);
      if events[n - 1] != Fail {
        DroppedByFailure(states, events, n - 1);
      }
    }
  }

  /** A notification that has not been sent: a refused one is one as well. */
  predicate Notified(s: State) {
    s.handlers > 0 || s.slot || s.sender == Holding || s.sender == Refused
  }

  /** However often the main loop refuses an event, the notification stays until it is sent. */
  lemma {:induction false} RefusedIsKept(states: seq<State>, events: seq<Event>, i: nat, j: nat)
    requires IsRun(states, events) && i <= j < |states| && Notified(states[i])
    requires forall k :: i <= k < j ==> events[k] != Send
    ensures Notified(states[j])
  {
    if i < j {
      RefusedIsKept(states, events, i, j - 1);
      assert Next(states[j - 1], events[j - 1], states[j]);
    }
  }

  function Count(events: seq<Event>, wanted: Event): nat {
    if events == [] then 0
    else Count(events[..|events| - 1], wanted) + if events[|events| - 1] == wanted then 1 else 0
  }

  lemma PrefixRun(states: seq<State>, events: seq<Event>)
    requires IsRun(states, events) && events != []
    ensures IsRun(states[..|states| - 1], events[..|events| - 1])
  {
    var before := states[..|states| - 1];
    forall i | 0 <= i < |events| - 1 ensures Next(before[i], events[..|events| - 1][i], before[i + 1]) {
      assert Next(states[i], events[i], states[i + 1]);
    }
  }

  /** At most one event is sent per tick, sent or refused. */
  lemma {:induction false} OncePerTick(states: seq<State>, events: seq<Event>)
    requires IsRun(states, events)
    ensures Count(events, Send) + Count(events, PutBack) + (if states[|events|].sender == Waiting then 0 else 1)
      <= Count(events, Tick) + if states[0].sender == Waiting then 0 else 1
  {
    if events != [] {
      PrefixRun(states, events);
      var n := |events| - 1;
      assert Next(states[n], events[n], states[n + 1]);
      OncePerTick(states[..|states| - 1], events[..n]);
    }
  }

  /** Of a stretch without changes at most the first configuration applied is an old one. */
  lemma {:induction false} SecondIsCurrent(states: seq<State>, events: seq<Event>)
    requires IsRun(states, events) && forall e :: e in events ==> !e.Change?
    ensures var last := states[|events|];
      && last.config == states[0].config
      && (Count(events, Apply) >= 1 && last.receiver.Loaded? ==> last.receiver.config == last.config)
      && (Count(events, Apply) >= 2 ==> last.applied == last.config)
  {
    if events != [] {
      PrefixRun(states, events);
      var n := |events| - 1;
      assert Next(states[n], events[n], states[n + 1]);
      SecondIsCurrent(states[..|states| - 1], events[..n]);
    }
  }

  /** What happens between two ticks and at the second one: whether a handler ran, and whether the main
      loop is ready. */
  datatype Round = Round(notified: bool, ready: bool)

  /** A notification waits at tick `k`: there was one, and since then the main loop was never ready. */
  ghost predicate Waits(full: bool, rounds: seq<Round>, k: nat)
    requires k < |rounds|
  {
    || (full && forall j :: 0 <= j < k ==> !rounds[j].ready)
    || exists i :: 0 <= i <= k && rounds[i].notified && NotReady(rounds, i, k)
  }

  ghost predicate NotReady(rounds: seq<Round>, i: nat, k: nat)
    requires i <= k < |rounds|
  {
    forall j :: i <= j < k ==> !rounds[j].ready
  }

  lemma WaitsStep(full: bool, rounds: seq<Round>, k: nat)
    requires k < |rounds|
    ensures Waits(full, rounds, k) <==>
      rounds[k].notified || if k == 0 then full else Waits(full, rounds, k - 1) && !rounds[k - 1].ready
  {
    if k > 0 && Waits(full, rounds, k - 1) && !rounds[k - 1].ready {
      if i :| 0 <= i <= k - 1 && rounds[i].notified && NotReady(rounds, i, k - 1) {
        assert NotReady(rounds, i, k);
      }
    }
    if rounds[k].notified {
      assert NotReady(rounds, k, k);
    } else if i :| 0 <= i <= k && rounds[i].notified && NotReady(rounds, i, k) {
      assert NotReady(rounds, i, k - 1);
    }
  }

  /** The slot, a channel with room for one notification. */
  class Notifications {
    var full: bool

    constructor ()
      ensures !full
    {
      full := false;
    }

    /** The handlers never wait: into a full slot nothing is put. */
    method Notify()
      modifies this
      ensures full
    {
      if !full {
        full := true;
      }
    }

    /** One round of the sender after a tick. */
    method Send(ready: bool) returns (sent: bool)
      modifies this
      ensures sent <==> old(full) && ready
      ensures full <==> old(full) && !ready
    {
      sent := false;
      if full {
        full := false;
        if ready {
          sent := true;
        } else if !full {
          full := true;
        }
      }
    }

    /** The loop until it is stopped: at a tick an event is sent exactly if the main loop is ready and a
        notification came since it was ready last; afterwards one is left exactly if it still waits. */
    method RateLimitedEventSender(rounds: seq<Round>) returns (sent: seq<bool>)
      modifies this
      ensures |sent| == |rounds|
      ensures forall k :: 0 <= k < |rounds| ==> (sent[k] <==> rounds[k].ready && Waits(old(full), rounds, k))
      ensures rounds != [] ==> (full <==> Waits(old(full), rounds, |rounds| - 1) && !rounds[|rounds| - 1].ready)
    {
      sent := [];
      for k := 0 to |rounds|
        invariant |sent| == k
        invariant forall j :: 0 <= j < k ==> (sent[j] <==> rounds[j].ready && Waits(old(full), rounds, j))
        invariant full <==> if k == 0 then old(full) else Waits(old(full), rounds, k - 1) && !rounds[k - 1].ready
      {
        WaitsStep(old(full), rounds, k);
        if rounds[k].notified {
          Notify();
        }
        var done := Send(rounds[k].ready);
        sent := sent + [done];
      }
    }
  }

  /** A round without interference is a tick followed by the steps of the sender. */
  lemma RoundIsSteps(s: State)
    requires s.sender == Waiting
    ensures var ready := s.receiver == Ready;
      var t := s.(sender := Ticked);
      var u := t.(sender := Holding, slot := false);
      && Next(s, Tick, t)
      && (!s.slot ==> Next(t, Skip, s))
      && (s.slot ==> Next(t, Take, u))
      && (s.slot && ready ==> Next(u, Send, s.(slot := false, receiver := Got)))
      && (s.slot && !ready ==> Next(u, Refuse, u.(sender := Refused)) && Next(u.(sender := Refused), PutBack, s))
  {
  }
}
