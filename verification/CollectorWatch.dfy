/** The watcher of collector pods. Every change of the pod store calls a handler, which fills a
    notification slot for one; a loop empties the slot at most once per tick and then passes the
    scheduled pods on. Informer, handlers and loop take turns in any way. */
module CollectorWatch {
  import opened GoMaps

  /** The nodes of the pods by name; a pod that is not scheduled yet has none. */
  type Pods = map<string, string>

  /** What the allocator is told: the collectors that run on a node. */
  function Scheduled(pods: Pods): Pods {
    map name | name in pods && pods[name] != "" :: pods[name]
  }

  method RunOnCollectors(pods: Pods) returns (collectors: Pods)
    ensures forall name :: name in collectors <==> name in pods && pods[name] != ""
    ensures forall name :: name in collectors ==> collectors[name] == pods[name]
    ensures collectors == Scheduled(pods)
  {
    var objects := AnyOrder(pods.Keys);
    collectors := map[];
    for i := 0 to |objects|
      invariant forall name :: name in collectors <==> name in Seen(objects, i) && pods[name] != ""
      invariant forall name :: name in collectors ==> collectors[name] == pods[name]
    {
      SeenStep(objects, i, pods.Keys);
      if pods[objects[i]] == "" {
        continue;
      }
      collectors := collectors[objects[i] := pods[objects[i]]];
    }
    SeenStep(objects, 0, pods.Keys);
  }

  /** Where the loop stands: waiting for a tick, looking at the slot, holding the notification it took
      from there, or having listed the pods. */
  datatype Phase = Waiting | Ticked | Holding | Listed(pods: Pods)

  /** `handlers` are the calls for changes that have not reached the slot yet. */
  datatype State = State(pods: Pods, handlers: nat, slot: bool, phase: Phase, applied: Pods)

  const START := State(map[], 0, false, Waiting, map[])

  datatype Event = Change(pods: Pods) | Handle | Tick | Take | Skip | ListPods | Apply

  ghost predicate Next(s: State, e: Event, t: State) {
    match e
    case Change(pods) => t == s.(pods := pods, handlers := s.handlers + 1)
    case Handle => s.handlers > 0 && t == s.(handlers := s.handlers - 1, slot := true)
    case Tick => s.phase == Waiting && t == s.(phase := Ticked)
    case Take => s.phase == Ticked && s.slot && t == s.(phase := Holding, slot := false)
    case Skip => s.phase == Ticked && !s.slot && t == s.(phase := Waiting)
    case ListPods => s.phase == Holding && t == s.(phase := Listed(s.pods))
    case Apply => s.phase.Listed? && t == s.(phase := Waiting, applied := Scheduled(s.phase.pods))
  }

  ghost predicate IsRun(states: seq<State>, events: seq<Event>) {
    && |states| == |events| + 1
    && forall i :: 0 <= i < |events| ==> Next(states[i], events[i], states[i + 1])
  }

  /** A change that has not been passed on is on its way: its handler is still to run, the slot is full,
      or the loop holds the notification or the list with the change. */
  predicate NothingLost(s: State) {
    && (s.applied == Scheduled(s.pods) || s.handlers > 0 || s.slot || s.phase == Holding || s.phase == Listed(s.pods))
    && (s.phase.Listed? && s.phase.pods != s.pods ==> s.handlers > 0 || s.slot)
  }

  lemma StepLosesNothing(s: State, e: Event, t: State)
    requires NothingLost(s) && Next(s, e, t)
    ensures NothingLost(t)
  {
  }

  lemma {:induction false} RunLosesNothing(states: seq<State>, events: seq<Event>, i: nat)
    requires IsRun(states, events) && NothingLost(states[0]) && i < |states|
    ensures NothingLost(states[i])
  {
    if i > 0 {
      RunLosesNothing(states, events, i - 1);
      StepLosesNothing(states[i - 1], events[i - 1], states[i]);
    }
  }

  /** Whenever the loop is idle with an empty slot and no handler is left to run, the allocator knows
      exactly the scheduled pods. */
  lemma IdleMeansApplied(states: seq<State>, events: seq<Event>, i: nat)
    requires IsRun(states, events) && states[0] == START && i < |states|
    requires states[i].handlers == 0 && !states[i].slot && (states[i].phase == Waiting || states[i].phase == Ticked)
    ensures var (told, pods) := (states[i].applied, states[i].pods);
      && (forall name :: name in told <==> name in pods && pods[name] != "")
      && (forall name :: name in told ==> told[name] == pods[name])
  {
    RunLosesNothing(states, events, i);
  }

  function Count(events: seq<Event>, wanted: set<Event>): nat {
    if events == [] then 0
    else Count(events[..|events| - 1], wanted) + if events[|events| - 1] in wanted then 1 else 0
  }

  lemma PrefixRun(states: seq<State>, events: seq<Event>)
    requires IsRun(states, events) && events != []
    ensures IsRun(states[..|states| - 1], events[..|events| - 1])
  {
    var before := states[..|states| - 1];
    forall i | 0 <= i < |events| - 1 ensures Next(before[i], events[..|events| - 1][i], before[i + 1]) {
      assert Next(states[i], events[i], states[i + 1]);
    }
  }

  /** In any stretch of a run the allocator is called at most once per tick, and once more if the
      stretch begins between a tick and its call. */
  lemma {:induction false} OncePerTick(states: seq<State>, events: seq<Event>)
    requires IsRun(states, events)
    ensures Count(events, {Apply}) + (if states[|events|].phase == Waiting then 0 else 1)
      <= Count(events, {Tick}) + if states[0].phase == Waiting then 0 else 1
  {
    if events != [] {
      PrefixRun(states, events);
      var n := |events| - 1;
      assert Next(states[n], events[n], states[n + 1]);
      OncePerTick(states[..|states| - 1], events[..n]);
    }
  }

  /** How many rounds of the loop may pass before the allocator knows the present pods, if they do not
      change any more. */
  function Behind(s: State): nat {
    if s.phase.Listed? && s.phase.pods != s.pods then 2
    else if s.applied == Scheduled(s.pods) then 0
    else 1
  }

  lemma StepCatchesUp(s: State, e: Event, t: State)
    requires NothingLost(s) && Next(s, e, t) && s.handlers == 0 && !e.Change?
    ensures t.pods == s.pods && t.handlers == 0 && Behind(t) <= Behind(s)
    ensures e == Apply || e == Skip ==> Behind(t) == 0 || Behind(t) < Behind(s)
  {
  }

  /** Once the pods stop changing and the handlers have run, two rounds of the loop are enough. */
  lemma {:induction false} CatchesUp(states: seq<State>, events: seq<Event>)
    requires IsRun(states, events) && NothingLost(states[0]) && states[0].handlers == 0
    requires forall e :: e in events ==> !e.Change?
    ensures states[|events|].handlers == 0 && states[|events|].pods == states[0].pods
    ensures Behind(states[|events|]) == 0 || Behind(states[|events|]) + Count(events, {Apply, Skip}) <= 2
    ensures Count(events, {Apply, Skip}) >= 2 ==>
      var (told, pods) := (states[|events|].applied, states[0].pods);
      && (forall name :: name in told <==> name in pods && pods[name] != "")
      && (forall name :: name in told ==> told[name] == pods[name])
  {
    if events != [] {
      PrefixRun(states, events);
      var n := |events| - 1;
      CatchesUp(states[..|states| - 1], events[..n]);
      RunLosesNothing(states, events, n);
      assert Next(states[n], events[n], states[n + 1]);
      StepCatchesUp(states[n], events[n], states[n + 1]);
    }
  }
}
