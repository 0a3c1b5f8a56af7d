/** `BasicAction`: an immutable record of verb, target, data and label. Building
    one checks verb and target and derives a label when none is given;
    executing one hands exactly one control event to the event manager. */
module Actions {
  import opened Python
  import opened Events
  import Decimal

  /** The fields of the source's namedtuple; `caption` is its `label` (a Dafny keyword). */
  datatype Action = Action(verb: Data, target: Data, data: Data, caption: Data)

  /** What every action built by `New` satisfies: verb, target and label are all truthy. */
  predicate Valid(a: Action) {
    Truthy(a.verb) && Truthy(a.target) && Truthy(a.caption)
  }

  /** `_interpret_param`: the last word of a derived label. For `switch` it is
      "on" or "off" by the truthiness of the data; for `dim` it is the `%d` text of
      `int(data)` followed by '%', and that text reads back as the same number;
      any other verb passes the data through. */
  function InterpretParam(verb: Data, data: Data): (r: Result<Data>)
    ensures verb == DStr("switch") ==> r == Success(DStr(if Truthy(data) then "on" else "off"))
    ensures verb == DStr("dim") ==> (r.Success? <==> Int(data).Success?)
    ensures verb == DStr("dim") && r.Failure? ==> r.error == Int(data).error
    ensures verb == DStr("dim") && r.Success? ==>
      && r.value.DStr? && |r.value.s| > 0 && r.value.s[|r.value.s| - 1] == '%'
      && Int(DStr(r.value.s[..|r.value.s| - 1])) == Success(Int(data).value)
    ensures verb != DStr("switch") && verb != DStr("dim") ==> r == Success(data)
  {
    if verb == DStr("switch") then
      Success(DStr(if Truthy(data) then "on" else "off"))
    else if verb == DStr("dim") then
      var n :- Int(data);
      var f := Decimal.Format(n);
      Decimal.FormatReadsBack(n);
      assert (f + "%")[..|f + "%"| - 1] == f;
      Success(DStr(f + "%"))
    else
      Success(data)
  }

  /** `verb + ' ' + target + ' ' + _interpret_param(verb, data)`, evaluated left to
      right: a non-string verb or target raises before the parameter is looked at,
      and every operand of `+` must be a string. */
  function DeriveLabel(verb: Data, target: Data, data: Data): (r: Result<Data>)
    ensures r.Success? ==> r.value.DStr? && Truthy(r.value)
  {
    if !verb.DStr? || !target.DStr? then
      Failure(TypeError)
    else
      var p :- InterpretParam(verb, data);
      if p.DStr? then Success(DStr(verb.s + " " + target.s + " " + p.s)) else Failure(TypeError)
  }

  /** `BasicAction(verb, target, data, label)`. */
  function New(verb: Data, target: Data, data: Data, caption: Data): (r: Result<Action>)
    ensures !Truthy(verb) || !Truthy(target) ==> r == Failure(ValueError)
    ensures r.Success? ==> Valid(r.value)
    ensures r.Success? ==> r.value.verb == verb && r.value.target == target && r.value.data == data
    ensures Truthy(caption) ==> (r.Success? <==> Truthy(verb) && Truthy(target))
    ensures r.Success? && Truthy(caption) ==> r.value.caption == caption
  {
    if !Truthy(verb) || !Truthy(target) then
      Failure(ValueError)
    else if Truthy(caption) then
      Success(Action(verb, target, data, caption))
    else
      var derived :- DeriveLabel(verb, target, data);
      Success(Action(verb, target, data, derived))
  }

  /** The label rule, verb by verb, for an action built without a (truthy) label. */
  lemma DerivedLabel(verb: Data, target: Data, data: Data, caption: Data)
    requires Truthy(verb) && Truthy(target) && !Truthy(caption)
    ensures !verb.DStr? || !target.DStr? ==> New(verb, target, data, caption) == Failure(TypeError)
    ensures verb == DStr("switch") && target.DStr? ==>
      New(verb, target, data, caption)
      == Success(Action(verb, target, data,
                        DStr("switch " + target.s + " " + if Truthy(data) then "on" else "off")))
    ensures verb == DStr("dim") && target.DStr? && Int(data).Failure? ==>
      New(verb, target, data, caption) == Failure(Int(data).error)
    ensures verb == DStr("dim") && target.DStr? && Int(data).Success? ==>
      New(verb, target, data, caption)
      == Success(Action(verb, target, data,
                        DStr("dim " + target.s + " " + Decimal.Format(Int(data).value) + "%")))
    ensures verb.DStr? && verb.s != "switch" && verb.s != "dim" && target.DStr? ==>
      New(verb, target, data, caption)
      == if data.DStr? then Success(Action(verb, target, data, DStr(verb.s + " " + target.s + " " + data.s)))
         else Failure(TypeError)
  {
    if verb == DStr("switch") && target.DStr? {
      assert verb.s + " " + target.s == "switch " + target.s;
    }
    if verb == DStr("dim") && target.DStr? {
      assert verb.s + " " + target.s == "dim " + target.s;
      if Int(data).Success? {
        var f := Decimal.Format(Int(data).value);
        assert "dim " + target.s + " " + (f + "%") == "dim " + target.s + " " + f + "%";
      }
    }
  }

  /** The `switch` label, worked out for the kitchen switched on and off. */
  lemma SwitchLabelExamples()
    ensures New(DStr("switch"), DStr("kitchen"), DInt(1), DNone)
            == Success(Action(DStr("switch"), DStr("kitchen"), DInt(1), DStr("switch kitchen on")))
    ensures New(DStr("switch"), DStr("kitchen"), DInt(0), DNone)
            == Success(Action(DStr("switch"), DStr("kitchen"), DInt(0), DStr("switch kitchen off")))
  {
    SwitchLabel("kitchen", DInt(1));
    SwitchLabel("kitchen", DInt(0));
    SwitchText();
  }

  /** The texts of the examples' labels. */
  lemma SwitchText()
    ensures "switch " + "kitchen" + " " + "on" == "switch kitchen on"
    ensures "switch " + "kitchen" + " " + "off" == "switch kitchen off"
  {
  }

  /** `switch` for any target and data: "on" or "off" by the data's truthiness. */
  lemma SwitchLabel(target: string, data: Data)
    requires target != ""
    ensures New(DStr("switch"), DStr(target), data, DNone)
            == Success(Action(DStr("switch"), DStr(target), data,
                              DStr("switch " + target + " " + if Truthy(data) then "on" else "off")))
  {
    DerivedLabel(DStr("switch"), DStr(target), data, DNone);
  }

  /** The `dim` label, worked out for the bedroom dimmed to 50. */
  lemma DimLabelExample()
    ensures New(DStr("dim"), DStr("bedroom"), DInt(50), DNone)
            == Success(Action(DStr("dim"), DStr("bedroom"), DInt(50), DStr("dim bedroom 50%")))
  {
    DimLabel("bedroom", 50);
    DimText();
  }

  /** The text of the example's label, with the number written out. */
  lemma DimText()
    ensures "dim " + "bedroom" + " " + Decimal.Format(50) + "%" == "dim bedroom 50%"
  {
    FiftyText();
    assert "dim " + "bedroom" + " " + "50" + "%" == "dim bedroom 50%";
  }

  /** `dim` with an int, for any target: the label is the target followed by the
      number's `%d` text and a percent sign. */
  lemma DimLabel(target: string, n: int)
    requires target != ""
    ensures New(DStr("dim"), DStr(target), DInt(n), DNone)
            == Success(Action(DStr("dim"), DStr(target), DInt(n), DStr("dim " + target + " " + Decimal.Format(n) + "%")))
  {
    DerivedLabel(DStr("dim"), DStr(target), DInt(n), DNone);
  }

  /** `"%d" % 50` is "50". */
  lemma FiftyText()
    ensures Decimal.Format(50) == "50"
  {
    assert Decimal.NatDigits(5) == ['5'];
    assert Decimal.NatDigits(50) == Decimal.NatDigits(5) + ['0'];
  }

  /** An explicit label is kept (the `nop none ''` action of test/test_core.py:112);
      with no label, `nop` needs string data; an empty target is refused first. */
  lemma LabelEdgeCases()
    ensures New(DStr("nop"), DStr("none"), DStr(""), DStr("scen01.action"))
            == Success(Action(DStr("nop"), DStr("none"), DStr(""), DStr("scen01.action")))
    ensures New(DStr("nop"), DStr("none"), DNone, DNone) == Failure(TypeError)
    ensures New(DStr("switch"), DStr(""), DInt(1), DStr("label")) == Failure(ValueError)
  {
  }

  /** The control event an action stands for: `(verb, target, str(data))`. */
  function EventOf(a: Action): Event {
    Event(a.verb, a.target, Str(a.data))
  }

  /** `execute(event_manager)`: one `emitEvent(verb, target, str(data))` call. A
      missing event manager raises AttributeError; a failure of the call propagates. */
  function Execute(a: Action, sink: Option<Sink>, trace: seq<Event>): (r: Run)
    ensures sink.None? ==> r == Run(trace, Some(AttributeError))
    ensures sink.Some? ==> (r.raised.None? <==> !sink.value.refuses(trace, EventOf(a)))
    ensures sink.Some? && sink.value.refuses(trace, EventOf(a)) ==> r == Run(trace, Some(SinkError))
    ensures r.raised.None? ==> r.trace == trace + [Event(a.verb, a.target, Str(a.data))]
    ensures r.raised.Some? ==> r.trace == trace
  {
    if sink.None? then Run(trace, Some(AttributeError)) else Emit(sink.value, trace, EventOf(a))
  }

  /** `BasicAction(1 as data).execute` hands the string "1", not the int, to the manager. */
  lemma ExecuteSendsStringData(sink: Sink, trace: seq<Event>)
    requires !sink.refuses(trace, Event(DStr("switch"), DStr("kitchen"), "1"))
    ensures New(DStr("switch"), DStr("kitchen"), DInt(1), DNone).Success?
    ensures Execute(New(DStr("switch"), DStr("kitchen"), DInt(1), DNone).value, Some(sink), trace)
            == Run(trace + [Event(DStr("switch"), DStr("kitchen"), "1")], None)
  {
  }

  /** An action as a parsed JSON object: a dict from key to scalar. */
  type ActionDict = map<string, Data>

  /** `d.get(key, None)`. */
  function Get(d: ActionDict, key: string): Data {
    if key in d then d[key] else DNone
  }

  /** `BasicAction.from_dict(d)`: `d['verb']` and `d['target']` are required, in
      that order; `data` and `label` default to None. */
  function FromDict(d: ActionDict): (r: Result<Action>)
    ensures "verb" !in d ==> r == Failure(KeyError("verb"))
    ensures "verb" in d && "target" !in d ==> r == Failure(KeyError("target"))
    ensures r.Success? ==> Valid(r.value)
    ensures r.Success? ==>
      r.value.verb == d["verb"] && r.value.target == d["target"] && r.value.data == Get(d, "data")
    ensures r.Success? && Truthy(Get(d, "label")) ==> r.value.caption == d["label"]
    ensures "verb" in d && "target" in d && (!Truthy(d["verb"]) || !Truthy(d["target"])) ==>
      r == Failure(ValueError)
    ensures "verb" in d && "target" in d && Truthy(d["verb"]) && Truthy(d["target"]) && Truthy(Get(d, "label")) ==>
      r == Success(Action(d["verb"], d["target"], Get(d, "data"), d["label"]))
    ensures "verb" in d && "target" in d ==> r == New(d["verb"], d["target"], Get(d, "data"), Get(d, "label"))
  {
    if "verb" !in d then Failure(KeyError("verb"))
    else if "target" !in d then Failure(KeyError("target"))
    else New(d["verb"], d["target"], Get(d, "data"), Get(d, "label"))
  }

  /** `action._asdict()`: all four fields, data and label included even when None. */
  function ToDict(a: Action): (d: ActionDict)
    ensures d.Keys == {"verb", "target", "data", "label"}
    ensures d["verb"] == a.verb && d["target"] == a.target && d["data"] == a.data && d["label"] == a.caption
    ensures Valid(a) ==> Canonical(d)
  {
    map["verb" := a.verb, "target" := a.target, "data" := a.data, "label" := a.caption]
  }

  /** A valid action survives `_asdict` then `from_dict` unchanged: its label is
      truthy, so it is kept rather than derived again. */
  lemma DictRoundTrip(a: Action)
    requires Valid(a)
    ensures FromDict(ToDict(a)) == Success(a)
  {
  }

  /** An action dict in the form `_asdict` writes: the four keys, a truthy label. */
  predicate Canonical(d: ActionDict) {
    d.Keys == {"verb", "target", "data", "label"} && Truthy(d["label"])
  }

  /** Conversely, a canonical action dict is what `_asdict` gives back for the
      action built from it. */
  lemma CanonicalDictRoundTrip(d: ActionDict)
    requires Canonical(d)
    requires FromDict(d).Success?
    ensures ToDict(FromDict(d).value) == d
  {
  }
}
