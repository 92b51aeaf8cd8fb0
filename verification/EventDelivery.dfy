/** Exactly when the present configuration is the applied one: read off the steps of a run alone. */
module EventDelivery {
  import opened EventSending

  /** No change from step `i` on. */
  ghost predicate Unchanged(events: seq<Event>, i: nat) {
    forall k :: i <= k < |events| ==> !events[k].Change?
  }

  ghost predicate NoFailure(events: seq<Event>, i: nat, j: nat) {
    forall k :: i < k < j <= |events| ==> events[k] != Fail
  }

  ghost predicate Applies(events: seq<Event>, i: nat, j: nat) {
    && i < j < |events| && events[i] == Load && events[j] == Apply
    && Unchanged(events, i) && NoFailure(events, i, j)
  }

  /** After the last change a configuration was loaded and then applied without a failure in between. */
  ghost predicate Delivered(events: seq<Event>) {
    exists i: nat, j: nat :: Applies(events, i, j)
  }

  ghost predicate LoadedAt(events: seq<Event>, i: nat) {
    && i < |events| && events[i] == Load && Unchanged(events, i)
    && forall k :: i < k < |events| ==> events[k] != Fail && events[k] != Apply
  }

  /** After the last change a configuration was loaded that is still to be applied. */
  ghost predicate BeingApplied(events: seq<Event>) {
    exists i: nat :: LoadedAt(events, i)
  }

  /** Each change brings a configuration that was not there before. */
  ghost predicate Novel(start: Config, events: seq<Event>) {
    forall i :: 0 <= i < |events| && events[i].Change? ==>
      events[i].config != start && forall k :: 0 <= k < i ==> events[k] != events[i]
  }

  /******* One more step *******/

  lemma UnchangedMore(events: seq<Event>, e: Event, i: nat)
    requires i <= |events|
    ensures Unchanged(events + [e], i) <==> Unchanged(events, i) && !e.Change?
  {
    var more := events + [e];
    assert more[|events|] == e;
    if Unchanged(more, i) {
      assert forall k :: i <= k < |events| ==> events[k] == more[k];
    }
  }

  lemma AppliesMore(events: seq<Event>, e: Event, i: nat, j: nat)
    requires j < |events|
    ensures Applies(events + [e], i, j) <==> Applies(events, i, j) && !e.Change?
  {
    var more := events + [e];
    assert forall k :: 0 <= k < |events| ==> more[k] == events[k];
    if i < j {
      UnchangedMore(events, e, i);
    }
    assert NoFailure(more, i, j) <==> NoFailure(events, i, j);
  }

  lemma LoadedMore(events: seq<Event>, e: Event, i: nat)
    requires i < |events|
    ensures LoadedAt(events + [e], i) <==> LoadedAt(events, i) && !e.Change? && e != Fail && e != Apply
  {
    var more := events + [e];
    assert forall k :: 0 <= k < |events| ==> more[k] == events[k];
    assert more[|events|] == e;
    UnchangedMore(events, e, i);
  }

  lemma BeingAppliedMore(events: seq<Event>, e: Event)
    ensures BeingApplied(events + [e]) <==>
      e == Load || (BeingApplied(events) && !e.Change? && e != Fail && e != Apply)
  {
    var more, n := events + [e], |events|;
    if e == Load {
      assert more[n] == Load && Unchanged(more, n);
      assert LoadedAt(more, n);
    }
    if i: nat :| LoadedAt(more, i) {
      if i < n {
        LoadedMore(events, e, i);
      } else {
        assert more[n] == e;
      }
    }
    if i: nat :| LoadedAt(events, i) {
      LoadedMore(events, e, i);
    }
  }

  /** An application right now, of what was loaded at `i` or applied in between. */
  lemma AppliedNow(events: seq<Event>, i: nat)
    requires Applies(events + [Apply], i, |events|)
    ensures Delivered(events) || BeingApplied(events)
  {
    var more := events + [Apply];
    assert forall k :: 0 <= k < |events| ==> more[k] == events[k];
    UnchangedMore(events, Apply, i);
    if j :| i < j < |events| && events[j] == Apply {
      assert Applies(events, i, j);
    } else {
      assert LoadedAt(events, i);
    }
  }

  lemma DeliveredMore(events: seq<Event>, e: Event)
    ensures Delivered(events + [e]) <==> !e.Change? && (Delivered(events) || (e == Apply && BeingApplied(events)))
  {
    var more, n := events + [e], |events|;
    if i: nat, j: nat :| Applies(more, i, j) {
      UnchangedMore(events, e, i);
      if j < n {
        AppliesMore(events, e, i, j);
      } else {
        assert more[n] == e;
        AppliedNow(events, i);
      }
    }
    if i: nat, j: nat :| Applies(events, i, j) {
      AppliesMore(events, e, i, j);
    }
    if e == Apply {
      if i: nat :| LoadedAt(events, i) {
        UnchangedMore(events, e, i);
        assert forall k :: 0 <= k < n ==> more[k] == events[k];
        assert more[n] == e && NoFailure(more, i, n);
        assert Applies(more, i, n);
      }
    }
  }

  /******* Runs *******/

  lemma AsOneMore(events: seq<Event>)
    requires events != []
    ensures events == events[..|events| - 1] + [events[|events| - 1]]
  {
  }

  /** What was loaded after the last change is the present configuration; what was applied then, too. */
  ghost predicate UpToDate(events: seq<Event>, s: State) {
    && (BeingApplied(events) ==> s.receiver == Loaded(s.config))
    && (Delivered(events) ==> s.applied == s.config && (s.receiver.Loaded? ==> s.receiver.config == s.config))
  }

  lemma UpToDateStep(events: seq<Event>, s: State, e: Event, t: State)
    requires UpToDate(events, s) && Next(s, e, t)
    ensures UpToDate(events + [e], t)
  {
    hide Delivered, BeingApplied;
    BeingAppliedMore(events, e);
    DeliveredMore(events, e);
  }

  lemma {:induction false} DeliveredIsApplied(states: seq<State>, events: seq<Event>)
    requires IsRun(states, events)
    ensures UpToDate(events, states[|events|])
  {
    if events != [] {
      var n := |events| - 1;
      PrefixRun(states, events);
      DeliveredIsApplied(states[..n + 1], events[..n]);
      AsOneMore(events);
      assert Next(states[n], events[n], states[n + 1]);
      UpToDateStep(events[..n], states[n], events[n], states[n + 1]);
    }
  }

  lemma {:induction false} UnchangedKeeps(states: seq<State>, events: seq<Event>)
    requires IsRun(states, events) && states[0] == Start(states[0].config) && Unchanged(events, 0)
    ensures var s := states[|events|];
      && s.config == s.applied == states[0].config
      && (s.receiver.Loaded? ==> s.receiver.config == s.config)
  {
    if events != [] {
      var n := |events| - 1;
      PrefixRun(states, events);
      assert forall k :: 0 <= k < n ==> events[..n][k] == events[k];
      UnchangedKeeps(states[..n + 1], events[..n]);
      assert Next(states[n], events[n], states[n + 1]);
    }
  }

  /** The configurations that were there so far. */
  ghost predicate WasThere(start: Config, events: seq<Event>, c: Config) {
    c == start || exists i :: 0 <= i < |events| && events[i] == Change(c)
  }

  lemma ThereMore(start: Config, events: seq<Event>, e: Event, c: Config)
    ensures WasThere(start, events + [e], c) <==> WasThere(start, events, c) || e == Change(c)
  {
    var more := events + [e];
    assert more[|events|] == e;
    if i :| 0 <= i < |events| && events[i] == Change(c) {
      assert more[i] == Change(c);
    }
  }

  ghost predicate AllWereThere(start: Config, events: seq<Event>, s: State) {
    && WasThere(start, events, s.config) && WasThere(start, events, s.applied)
    && (s.receiver.Loaded? ==> WasThere(start, events, s.receiver.config))
  }

  lemma ThereStep(start: Config, events: seq<Event>, s: State, e: Event, t: State)
    requires AllWereThere(start, events, s) && Next(s, e, t)
    ensures AllWereThere(start, events + [e], t)
  {
    hide WasThere;
    ThereMore(start, events, e, t.config);
    ThereMore(start, events, e, t.applied);
    if t.receiver.Loaded? {
      ThereMore(start, events, e, t.receiver.config);
    }
  }

  lemma {:induction false} StateWasThere(states: seq<State>, events: seq<Event>)
    requires IsRun(states, events) && states[0] == Start(states[0].config)
    ensures AllWereThere(states[0].config, events, states[|events|])
  {
    if events != [] {
      var n := |events| - 1;
      PrefixRun(states, events);
      StateWasThere(states[..n + 1], events[..n]);
      AsOneMore(events);
      assert Next(states[n], events[n], states[n + 1]);
      ThereStep(states[0].config, events[..n], states[n], events[n], states[n + 1]);
    }
  }

  lemma NovelPrefix(start: Config, events: seq<Event>)
    requires Novel(start, events) && events != []
    ensures var n := |events| - 1;
      && Novel(start, events[..n])
      && (events[n].Change? ==> !WasThere(start, events[..n], events[n].config))
  {
    var n := |events| - 1;
    assert forall k :: 0 <= k < n ==> events[..n][k] == events[k];
    if events[n].Change? {
      assert events[n] == Change(events[n].config);
    }
  }

  /** What is the present configuration by now got there by the steps since the last change. */
  ghost predicate Explained(events: seq<Event>, s: State) {
    && (s.receiver == Loaded(s.config) ==> BeingApplied(events))
    && (s.applied == s.config ==> Unchanged(events, 0) || Delivered(events))
  }

  lemma ExplainedStep(start: Config, events: seq<Event>, s: State, e: Event, t: State)
    requires Explained(events, s) && AllWereThere(start, events, s) && Next(s, e, t)
    requires e.Change? ==> !WasThere(start, events, e.config)
    ensures Explained(events + [e], t)
  {
    hide Delivered, BeingApplied, Unchanged, WasThere;
    UnchangedMore(events, e, 0);
    BeingAppliedMore(events, e);
    DeliveredMore(events, e);
  }

  lemma {:induction false} AppliedWasDelivered(states: seq<State>, events: seq<Event>)
    requires IsRun(states, events) && states[0] == Start(states[0].config) && Novel(states[0].config, events)
    ensures Explained(events, states[|events|])
  {
    if events != [] {
      var n := |events| - 1;
      PrefixRun(states, events);
      NovelPrefix(states[0].config, events);
      AppliedWasDelivered(states[..n + 1], events[..n]);
      StateWasThere(states[..n + 1], events[..n]);
      AsOneMore(events);
      assert Next(states[n], events[n], states[n + 1]);
      ExplainedStep(states[0].config, events[..n], states[n], events[n], states[n + 1]);
    }
  }

  /** In a run whose changes each bring something new, the present configuration is applied exactly if
      nothing changed, or some load after the last change was followed by its application without a
      failure in between. */
  lemma AppliedExactly(states: seq<State>, events: seq<Event>)
    requires IsRun(states, events) && states[0] == Start(states[0].config) && Novel(states[0].config, events)
    ensures states[|events|].applied == states[|events|].config <==> Unchanged(events, 0) || Delivered(events)
  {
    AppliedWasDelivered(states, events);
    DeliveredIsApplied(states, events);
    if Unchanged(events, 0) {
      UnchangedKeeps(states, events);
    }
  }
}
