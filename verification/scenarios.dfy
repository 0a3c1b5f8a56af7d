/** `Scenario`: a label and an ordered list of actions. It is extended one action
    at a time, replaced wholesale from a definition, emptied, executed in order
    against an event manager, and converted to and from its dict form. */
module Scenarios {
  import opened Python
  import opened Events
  import Actions

  /** `caption` is the source's `label` (a Dafny keyword). The constructor copies
      the list it is given; with value semantics that copy is implicit. */
  datatype Scenario = Scenario(caption: Data, actions: seq<Actions.Action>)

  /** Every action of the scenario could have come out of the action constructor. */
  predicate Valid(s: Scenario) {
    forall i :: 0 <= i < |s.actions| ==> Actions.Valid(s.actions[i])
  }

  /** `add_action(action)`: a falsy argument raises ValueError, an object of another
      class TypeError; otherwise the action is appended. */
  function AddAction(s: Scenario, action: Object<Actions.Action>): (m: Mutation<Scenario>)
    ensures m.raised.None? <==> action.Instance?
    ensures action.Falsy() ==> m == Mutation(s, Some(ValueError))
    ensures action.Alien? && action.truthy ==> m == Mutation(s, Some(TypeError))
    ensures action.Instance? ==>
      && m.state.caption == s.caption
      && |m.state.actions| == |s.actions| + 1
      && m.state.actions[..|s.actions|] == s.actions
      && m.state.actions[|s.actions|] == action.value
  {
    if action.Falsy() then Mutation(s, Some(ValueError))
    else if !action.Instance? then Mutation(s, Some(TypeError))
    else Mutation(Scenario(s.caption, s.actions + [action.value]), None)
  }

  /** Calls `add_action` once per action, in sequence order. */
  function AddAll(s: Scenario, added: seq<Actions.Action>): Scenario
    decreases |added|
  {
    if |added| == 0 then s else AddAll(AddAction(s, Instance(added[0])).state, added[1..])
  }

  /** Appended actions are kept in call order, after the ones already there. */
  lemma {:induction false} AddAllInOrder(s: Scenario, added: seq<Actions.Action>)
    ensures AddAll(s, added) == Scenario(s.caption, s.actions + added)
    decreases |added|
  {
    if |added| > 0 {
      var next := AddAction(s, Instance(added[0])).state;
      AddAllInOrder(next, added[1..]);
      assert s.actions + [added[0]] + added[1..] == s.actions + added;
    }
  }

  /** `clear()` as documented: the actions are emptied, the label is kept. */
  function Clear(s: Scenario): (r: Scenario)
    ensures r.caption == s.caption && |r.actions| == 0
  {
    Scenario(s.caption, [])
  }

  /** `clear()` as written: `list.clear` does not exist in Python 2, which this
      module is written for, so the call raises AttributeError and nothing changes. */
  function ClearAsWritten(s: Scenario): (m: Mutation<Scenario>)
    ensures m.raised == Some(AttributeError) && m.state == s
  {
    Mutation(s, Some(AttributeError))
  }

  /** Whatever the scenario, the as-written `clear()` leaves its actions in place,
      while after the documented one there is nothing left to execute. */
  lemma ClearAsWrittenKeepsActions(s: Scenario, sink: Sink, trace: seq<Event>)
    ensures ClearAsWritten(s).state.actions == s.actions
    ensures Execute(Clear(s), Some(sink), trace) == Run(trace, None)
  {
  }

  /** The events a list of actions stands for, one per action, in order. */
  function EventsOf(actions: seq<Actions.Action>): (es: seq<Event>)
    ensures |es| == |actions|
  {
    seq(|actions|, i requires 0 <= i < |actions| => Actions.EventOf(actions[i]))
  }

  /** How running a list of actions against a sink ends, r: if the first k
      actions went through, the trace has grown by exactly their events, in
      order; each was accepted; the run stops without error exactly when k is the
      whole list, and otherwise stops at action k, whose event the sink refused. */
  predicate InOrder(actions: seq<Actions.Action>, sink: Sink, trace: seq<Event>, r: Run) {
    var k := |r.trace| - |trace|;
    && 0 <= k <= |actions|
    && r.trace == trace + EventsOf(actions[..k])
    && (r.raised.None? <==> k == |actions|)
    && (k < |actions| ==>
          r.raised == Some(SinkError) && sink.refuses(r.trace, Actions.EventOf(actions[k])))
    && (forall j :: 0 <= j < k ==>
          !sink.refuses(trace + EventsOf(actions[..j]), Actions.EventOf(actions[j])))
  }

  lemma EventsOfCons(actions: seq<Actions.Action>, j: nat)
    requires j < |actions|
    ensures EventsOf(actions[..j + 1]) == [Actions.EventOf(actions[0])] + EventsOf(actions[1..][..j])
  {
    var l := EventsOf(actions[..j + 1]);
    var r := [Actions.EventOf(actions[0])] + EventsOf(actions[1..][..j]);
    forall i | 0 <= i < |l|
      ensures l[i] == r[i]
    {
      if i > 0 {
        assert actions[1..][..j][i - 1] == actions[i];
      }
    }
  }

  lemma InOrderStep(actions: seq<Actions.Action>, sink: Sink, trace: seq<Event>, r: Run)
    requires |actions| > 0
    requires !sink.refuses(trace, Actions.EventOf(actions[0]))
    requires InOrder(actions[1..], sink, trace + [Actions.EventOf(actions[0])], r)
    ensures InOrder(actions, sink, trace, r)
  {
    var e0 := Actions.EventOf(actions[0]);
    var k := |r.trace| - |trace|;
    EventsOfCons(actions, k - 1);
    assert r.trace == trace + EventsOf(actions[..k]);
    forall j | 0 <= j < k
      ensures !sink.refuses(trace + EventsOf(actions[..j]), Actions.EventOf(actions[j]))
    {
      if j == 0 {
        assert trace + EventsOf(actions[..0]) == trace;
      } else {
        EventsOfCons(actions, j - 1);
        assert trace + EventsOf(actions[..j]) == trace + [e0] + EventsOf(actions[1..][..j - 1]);
        assert actions[j] == actions[1..][j - 1];
      }
    }
  }

  /** The `for` loop of `execute`: each action in stored order, stopping at the
      first one whose event the sink refuses. */
  function RunActions(actions: seq<Actions.Action>, sink: Sink, trace: seq<Event>): (r: Run)
    ensures InOrder(actions, sink, trace, r)
    decreases |actions|
  {
    if |actions| == 0 then
      assert trace + EventsOf(actions[..0]) == trace;
      Run(trace, None)
    else
      var first := Actions.Execute(actions[0], Some(sink), trace);
      if first.raised.Some? then
        assert trace + EventsOf(actions[..0]) == trace;
        first
      else
        var r := RunActions(actions[1..], sink, first.trace);
        InOrderStep(actions, sink, trace, r);
        r
  }

  /** `execute(event_manager)`: a missing event manager raises ValueError before
      any action runs; otherwise the actions run in order as `InOrder` says. */
  function Execute(s: Scenario, sink: Option<Sink>, trace: seq<Event>): (r: Run)
    ensures sink.None? ==> r == Run(trace, Some(ValueError))
    ensures sink.Some? ==> InOrder(s.actions, sink.value, trace, r)
  {
    if sink.None? then Run(trace, Some(ValueError)) else RunActions(s.actions, sink.value, trace)
  }

  /** The loop of `execute` as written, one action per iteration. */
  method ExecuteScenario(s: Scenario, sink: Option<Sink>, trace: seq<Event>) returns (r: Run)
    ensures r == Execute(s, sink, trace)
  {
    if sink.None? {
      return Run(trace, Some(ValueError));
    }
    var out := trace;
    var i := 0;
    while i < |s.actions|
      invariant 0 <= i <= |s.actions|
      invariant RunActions(s.actions[i..], sink.value, out) == RunActions(s.actions, sink.value, trace)
      decreases |s.actions| - i
    {
      var step := Actions.Execute(s.actions[i], sink, out);
      assert s.actions[i..][0] == s.actions[i] && s.actions[i..][1..] == s.actions[i + 1..];
      if step.raised.Some? {
        return step;
      }
      out := step.trace;
      i := i + 1;
    }
    return Run(out, None);
  }

  /** With a sink that accepts everything, one event per action reaches it, in order. */
  lemma EveryActionEmittedOnce(s: Scenario, sink: Sink, trace: seq<Event>)
    requires forall t, e :: !sink.refuses(t, e)
    ensures Execute(s, Some(sink), trace) == Run(trace + EventsOf(s.actions), None)
  {
  }

  /** If the sink refuses the event of action k, the actions after k never run. */
  lemma StopsAtRefusal(s: Scenario, sink: Sink, trace: seq<Event>, k: nat)
    requires k < |s.actions|
    requires forall j :: 0 <= j < k ==>
      !sink.refuses(trace + EventsOf(s.actions[..j]), Actions.EventOf(s.actions[j]))
    requires sink.refuses(trace + EventsOf(s.actions[..k]), Actions.EventOf(s.actions[k]))
    ensures Execute(s, Some(sink), trace) == Run(trace + EventsOf(s.actions[..k]), Some(SinkError))
  {
  }

  /** `BasicAction('switch', target, n)`, built by the constructor with a derived label. */
  function Switch(target: string, n: int): (a: Actions.Action)
    requires target != ""
    ensures a == Actions.Action(DStr("switch"), DStr(target), DInt(n),
                                DStr("switch " + target + " " + if n != 0 then "on" else "off"))
  {
    Actions.DerivedLabel(DStr("switch"), DStr(target), DInt(n), DNone);
    Actions.New(DStr("switch"), DStr(target), DInt(n), DNone).value
  }

  /** The actions of the sequence test: two switched off, the bedroom switched on. */
  function ThreeSwitches(): seq<Actions.Action> {
    [Switch("kitchen", 0), Switch("living", 0), Switch("bedroom", 1)]
  }

  /** Three appended actions reach the sink three times, in append order, the
      last call carrying the third action's fields with its data as a string. */
  lemma SequenceExample(sink: Sink, trace: seq<Event>)
    requires forall t, e :: !sink.refuses(t, e)
    ensures var r := Execute(AddAll(Scenario(DStr("scenario 1"), []), ThreeSwitches()), Some(sink), trace);
      && r.raised.None?
      && |r.trace| == |trace| + 3
      && r.trace[|trace| + 2] == Event(DStr("switch"), DStr("bedroom"), "1")
  {
  }

  /** When the second of three actions fails, the third never reaches the sink. */
  lemma FailureStopsSequence(trace: seq<Event>)
    ensures var sink := Sink((t: seq<Event>, e: Event) => e.varName == DStr("living"));
      Execute(Scenario(DStr("scenario 1"), ThreeSwitches()), Some(sink), trace)
      == Run(trace + [Actions.EventOf(ThreeSwitches()[0])], Some(SinkError))
  {
  }

  /** A scenario as a parsed JSON object; None stands for a missing key, and keys
      other than `label` and `actions` are ignored. */
  datatype ScenarioDict = ScenarioDict(caption: Option<Data>, actions: Option<seq<Actions.ActionDict>>)

  /** `as_dict()`: the label and every action's `_asdict()`, in stored order. */
  function AsDict(s: Scenario): (d: ScenarioDict)
    ensures d.caption == Some(s.caption) && d.actions.Some?
    ensures |d.actions.value| == |s.actions|
    ensures forall i :: 0 <= i < |s.actions| ==> d.actions.value[i] == Actions.ToDict(s.actions[i])
  {
    ScenarioDict(Some(s.caption),
                 Some(seq(|s.actions|, i requires 0 <= i < |s.actions| => Actions.ToDict(s.actions[i]))))
  }

  /** The list comprehension of `from_dict`: one action per entry, in order; the
      first entry that cannot be built stops it with that entry's exception. */
  function ParseActions(cfgs: seq<Actions.ActionDict>): (r: Result<seq<Actions.Action>>)
    ensures r.Success? ==>
      && |r.value| == |cfgs|
      && forall i :: 0 <= i < |cfgs| ==> Actions.FromDict(cfgs[i]) == Success(r.value[i])
    ensures r.Failure? ==>
      exists k :: 0 <= k < |cfgs| && Actions.FromDict(cfgs[k]) == Failure(r.error)
               && forall j :: 0 <= j < k ==> Actions.FromDict(cfgs[j]).Success?
    decreases |cfgs|
  {
    if |cfgs| == 0 then
      Success([])
    else
      match Actions.FromDict(cfgs[0])
      case Failure(e) => Failure(e)
      case Success(a) =>
        match ParseActions(cfgs[1..])
        case Failure(e) =>
          Failure(e)
        case Success(rest) =>
          assert forall i :: 0 < i < |cfgs| ==> cfgs[i] == cfgs[1..][i - 1];
          Success([a] + rest)
  }

  /** `Scenario.from_dict(d)`: `d['label']` then `d['actions']` are required, and
      every action is built as `BasicAction.from_dict` would. */
  function FromDict(d: ScenarioDict): (r: Result<Scenario>)
    ensures d.caption.None? ==> r == Failure(KeyError("label"))
    ensures d.caption.Some? && d.actions.None? ==> r == Failure(KeyError("actions"))
    ensures d.caption.Some? && d.actions.Some? ==>
      (r.Success? <==> forall i :: 0 <= i < |d.actions.value| ==> Actions.FromDict(d.actions.value[i]).Success?)
    ensures r.Success? ==>
      && Valid(r.value)
      && r.value.caption == d.caption.value
      && |r.value.actions| == |d.actions.value|
      && forall i :: 0 <= i < |d.actions.value| ==>
           Actions.FromDict(d.actions.value[i]) == Success(r.value.actions[i])
    ensures r.Failure? && d.caption.Some? && d.actions.Some? ==>
      exists k :: 0 <= k < |d.actions.value| && Actions.FromDict(d.actions.value[k]) == Failure(r.error)
               && forall j :: 0 <= j < k ==> Actions.FromDict(d.actions.value[j]).Success?
  {
    if d.caption.None? then
      Failure(KeyError("label"))
    else if d.actions.None? then
      Failure(KeyError("actions"))
    else
      var actions :- ParseActions(d.actions.value);
      Success(Scenario(d.caption.value, actions))
  }

  /** `from_dict(as_dict(s))` gives s back: same label, same actions field by
      field, in the same order. */
  lemma DictRoundTrip(s: Scenario)
    requires Valid(s)
    ensures FromDict(AsDict(s)) == Success(s)
  {
    var cfgs := AsDict(s).actions.value;
    forall i | 0 <= i < |cfgs|
      ensures Actions.FromDict(cfgs[i]) == Success(s.actions[i])
    {
      Actions.DictRoundTrip(s.actions[i]);
    }
    var r := FromDict(AsDict(s));
    assert r.Success?;
    assert r.value.actions == s.actions;
  }

  /** A definition in the form `as_dict` writes: both keys present, every
      action canonical. */
  predicate Canonical(d: ScenarioDict) {
    && d.caption.Some?
    && d.actions.Some?
    && forall i :: 0 <= i < |d.actions.value| ==> Actions.Canonical(d.actions.value[i])
  }

  /** A canonical definition comes back unchanged from `as_dict(from_dict(d))`. */
  lemma CanonicalDictRoundTrip(d: ScenarioDict)
    requires Canonical(d)
    requires FromDict(d).Success?
    ensures AsDict(FromDict(d).value) == d
  {
    var s := FromDict(d).value;
    var cfgs := d.actions.value;
    forall i | 0 <= i < |cfgs|
      ensures Actions.ToDict(s.actions[i]) == cfgs[i]
    {
      Actions.CanonicalDictRoundTrip(cfgs[i]);
    }
    assert AsDict(s).actions.value == cfgs;
  }

  /** `update(d)`: label and actions are replaced together by those of
      `from_dict(d)`; when that raises, neither changes. */
  function Update(s: Scenario, d: ScenarioDict): (m: Mutation<Scenario>)
    ensures m.raised.None? <==> FromDict(d).Success?
    ensures m.raised.Some? ==> m.state == s && m.raised == Some(FromDict(d).error)
    ensures m.raised.None? ==>
      && m.state.caption == d.caption.value
      && |m.state.actions| == |d.actions.value|
      && forall i :: 0 <= i < |d.actions.value| ==>
           Actions.FromDict(d.actions.value[i]) == Success(m.state.actions[i])
  {
    match FromDict(d)
    case Failure(e) => Mutation(s, Some(e))
    case Success(parsed) => Mutation(Scenario(parsed.caption, parsed.actions), None)
  }

  /** Updating from another scenario's `as_dict()` makes a copy of it. */
  lemma UpdateCopies(s: Scenario, t: Scenario)
    requires Valid(t)
    ensures Update(s, AsDict(t)) == Mutation(t, None)
  {
    DictRoundTrip(t);
  }

  /** The definition of the update test: two actions with labels of their own. */
  function TestDefinition(): ScenarioDict {
    ScenarioDict(
      Some(DStr("test scenario 01")),
      Some([ map["label" := DStr("switch off living lights"), "verb" := DStr("switch"),
                 "target" := DStr("living"), "data" := DInt(0)],
             map["label" := DStr("dim bedroom lights"), "verb" := DStr("dim"),
                 "target" := DStr("bedroom"), "data" := DInt(50)] ]))
  }

  /** The two actions of the update test, built with the labels they carry. */
  function TestActions(): seq<Actions.Action> {
    [ Actions.Action(DStr("switch"), DStr("living"), DInt(0), DStr("switch off living lights")),
      Actions.Action(DStr("dim"), DStr("bedroom"), DInt(50), DStr("dim bedroom lights")) ]
  }

  /** Each action entry of the update test builds the action with its own label. */
  lemma TestActionsBuild()
    ensures Actions.FromDict(TestDefinition().actions.value[0]) == Success(TestActions()[0])
    ensures Actions.FromDict(TestDefinition().actions.value[1]) == Success(TestActions()[1])
  {
    var d := TestDefinition().actions.value;
    assert Truthy(Actions.Get(d[0], "label")) && Truthy(Actions.Get(d[1], "label"));
  }

  /** `update` takes the definition's label and its two actions, labels kept. */
  lemma UpdateExample(s: Scenario)
    ensures Update(s, TestDefinition()) == Mutation(Scenario(DStr("test scenario 01"), TestActions()), None)
  {
    TestActionsBuild();
    var r := FromDict(TestDefinition());
    assert r.Success? && r.value.actions == TestActions();
  }

  /** A definition with an action lacking its target raises KeyError and changes nothing. */
  lemma UpdateMissingTarget(s: Scenario)
    ensures Update(s, ScenarioDict(Some(DStr("x")), Some([map["verb" := DStr("switch")]])))
            == Mutation(s, Some(KeyError("target")))
  {
  }
}
