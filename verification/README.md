# Home-automation scenarios, modelled in Dafny

This project models the scenario core of the CSTBox home-automation extension
(`lib/python/pycstbox/homeautomation/core.py`). It covers three parts:

- `BasicAction` (module `Actions`). It is an immutable record of verb, target, data and label.
  - Construction requires a truthy verb and target.
  - When the label is missing or empty, construction derives it from the verb.
  - Executing an action makes exactly one `emitEvent(verb, target, str(data))` call.
- `Scenario` (module `Scenarios`). It is a label and an ordered list of actions.
  - Actions are appended one at a time.
  - `update(d)` replaces the label and the actions together from a definition.
  - Execution runs the actions in stored order and stops at the first failing event.
  - `as_dict` and `from_dict` convert to and from the dict shape.
- `ScenariosManager` (module `Manager`). It is a directory from scenario id to scenario.
  - It supports lookup, insertion with silent overwrite, removal, and a listing sorted by id.
  - `load_scenarios` and `save_scenarios` read and write the document `{id: as_dict()}`.

Supporting modules:
- `Python` models the Python 2 values involved: scalars, truthiness, `str`, `int`, and the exception classes.
- `Decimal` models how Python 2 writes an int and which strings its `int()` accepts.
- `Events` models the event manager as a sink that records accepted calls and may refuse any of them.
- `Ordering` models Python's string order and sorting by it.

Modelling choices:
- Every mutating method is a function that returns a `Mutation(state, raised)`.
  - `state` is the object after the call.
  - `raised` is the exception, if any.
  - So "nothing changes on failure" is part of each contract.
- The field the source calls `label` is named `caption`, because `label` is a Dafny keyword.
- The event manager is a `Sink` whose `refuses(trace, event)` predicate says which call raises, given the calls it already accepted.
- Executions return a `Run(trace, raised)`.
- Loading does not read a file.
  - It takes the already-parsed document as input.
  - It takes `None` when the path is not a regular file.
  - The order in which Python 2 iterates over a dict is modelled by an arbitrary choice of the next key.

In these places the code behaves differently from what its documentation or a reader might expect; the model follows the code:
- The `actions` getter returns the internal list; it is not a copy.
- `load_scenarios` empties the directory before reading the document. So a malformed document leaves the directory empty, and a bad entry leaves it partial. Only a missing file leaves it unchanged.
- For verbs other than `switch` and `dim`, label derivation concatenates the data. So it raises TypeError unless the data is a string; `None` is not embedded.
- `update(actions)` at core.py:72-79 is shadowed by the later `update(d)` and never runs.
- `test/test_core.py:36`, `:41` and `:48` expect the raw `1` to reach the event manager. The code sends `str(data)`, which is `"1"` (`Actions.ExecuteSendsStringData`).

## Model

| member | source | states |
|---|---|---|
| `Actions.New` | lib/python/pycstbox/homeautomation/core.py:135-146 | A falsy verb or target raises ValueError. Any action built keeps verb, target and data and has a truthy label. A truthy given label is kept verbatim, and then construction cannot fail. |
| `Actions.DeriveLabel` | lib/python/pycstbox/homeautomation/core.py:145 | A derived label is always a non-empty string. This is why every constructed action carries a truthy label. |
| `Actions.DerivedLabel` | lib/python/pycstbox/homeautomation/core.py:142-159 | The label rule when no label is given. `switch` gives `"switch <target> on/off"` by the truthiness of data. `dim` gives `"dim <target> <int(data)>%"`, or int's exception. Other verbs append the data, which must be a string; otherwise TypeError. A non-string verb or target raises TypeError first. |
| `Actions.InterpretParam` | lib/python/pycstbox/homeautomation/core.py:152-159 | `switch` gives "on" or "off" by the truthiness of the data. `dim` succeeds exactly when `int(data)` does, raising its exception otherwise; the result ends in '%' and the text before it reads back through `int()` as the same number. Any other verb passes the data through unchanged. |
| `Actions.SwitchLabel` | lib/python/pycstbox/homeautomation/core.py:142-159 | With no label, `switch <target> data` is labelled "switch <target> on" when the data is truthy and "switch <target> off" otherwise. |
| `Actions.SwitchLabelExamples` | lib/python/pycstbox/homeautomation/core.py:142-159 | `switch kitchen 1` gets the label "switch kitchen on" and `switch kitchen 0` gets "switch kitchen off". |
| `Actions.DimLabel` | lib/python/pycstbox/homeautomation/core.py:142-159 | With no label, `dim <target> n` for an int n is labelled "dim <target> " followed by n's `%d` text and '%'. |
| `Actions.DimLabelExample` | lib/python/pycstbox/homeautomation/core.py:142-159 | `dim bedroom 50` gets the label "dim bedroom 50%". |
| `Actions.LabelEdgeCases` | lib/python/pycstbox/homeautomation/core.py:142-159 | The explicit label of `nop none ''` is kept. `nop` with None data and no label raises TypeError. An empty target raises ValueError even when a label is given. |
| `Actions.Execute` | lib/python/pycstbox/homeautomation/core.py:161-168 | On success, exactly one event `(verb, target, str(data))` is appended to the trace. A refused call leaves the trace unchanged and raises the manager's own exception (SinkError). A missing manager raises AttributeError. |
| `Actions.ExecuteSendsStringData` | lib/python/pycstbox/homeautomation/core.py:168 | For `switch kitchen 1`, the manager receives the string "1", not the int. |
| `Actions.FromDict` | lib/python/pycstbox/homeautomation/core.py:148-150 | A missing `verb`, then a missing `target`, raises KeyError with that key. With both keys present it is exactly the constructor applied to verb, target, data and label (the last two None when absent): a falsy verb or target raises ValueError, and a truthy verb, target and label always build the action with that label. A built action carries the dict's verb, target and data. |
| `Actions.DictRoundTrip` | lib/python/pycstbox/homeautomation/core.py:144-150 | `from_dict(_asdict(a)) == a` for every action with a truthy verb, target and label. |
| `Actions.CanonicalDictRoundTrip` | lib/python/pycstbox/homeautomation/core.py:102 | An action dict with exactly the four keys and a truthy label is what `_asdict` returns for the action built from it. |
| `Actions.ToDict` | lib/python/pycstbox/homeautomation/core.py:102 | `_asdict()` has exactly the keys verb, target, data and label, holding the action's fields; for a valid action the dict is in canonical form (the four keys, a truthy label). |
| `Python.Int` | lib/python/pycstbox/homeautomation/core.py:157 | `int(x)`: None raises TypeError. Bools give 0 or 1 and ints are unchanged. A string that is a decimal literal gives the literal's value; any other string raises ValueError. |
| `Python.Str` | lib/python/pycstbox/homeautomation/core.py:168 | `str(x)`: a string is itself, None is "None", bools are "True"/"False", and an int is its canonical decimal text (the `%d` text: no plus sign, no leading zeros), which reads back through `int()` as that int. |
| `Decimal.Format` | lib/python/pycstbox/homeautomation/core.py:157 | The `%d` text of an int is digits only, with a leading minus sign exactly for negatives, no plus sign, and no leading zero except in "0". |
| `Decimal.FormatReadsBack` | lib/python/pycstbox/homeautomation/core.py:157 | The `%d` text of any int is accepted by `int()` and reads back as that int. |
| `Decimal.NoDigitNoLiteral` | lib/python/pycstbox/homeautomation/core.py:157 | A string without a digit is never accepted by `int()`. So `dim` with such data fails. |
| `Scenarios.AddAction` | lib/python/pycstbox/homeautomation/core.py:62-70 | A falsy argument raises ValueError and one of another class TypeError; both leave the scenario unchanged. An action is appended after the old ones, and the label is unchanged. |
| `Scenarios.AddAllInOrder` | lib/python/pycstbox/homeautomation/core.py:62-70 | Successive `add_action` calls leave the actions in call order, after those already there. |
| `Scenarios.Clear` | lib/python/pycstbox/homeautomation/core.py:81-84 | Documented intent of `clear()`: the actions become empty and the label is kept. |
| `Scenarios.ClearAsWritten` | lib/python/pycstbox/homeautomation/core.py:84 | As written under Python 2, `clear()` raises AttributeError and nothing changes. |
| `Scenarios.ClearAsWrittenKeepsActions` | lib/python/pycstbox/homeautomation/core.py:81-84 | For every scenario, the as-written `clear()` leaves its actions in place, while executing the scenario after the documented `clear()` emits nothing and raises nothing. |
| `Scenarios.RunActions` | lib/python/pycstbox/homeautomation/core.py:95-97 | Say k actions went through. Then the trace grew by exactly their events, in order, and each was accepted. The run succeeds exactly when k is the whole list; otherwise it stopped at action k, whose event the sink refused. |
| `Scenarios.Execute` | lib/python/pycstbox/homeautomation/core.py:86-97 | A missing event manager raises ValueError before any event. Otherwise the run satisfies the in-order characterisation above. |
| `Scenarios.ExecuteScenario` | lib/python/pycstbox/homeautomation/core.py:92-97 | The loop, one action per iteration and returning at the first exception, computes the same run as the recursive definition. |
| `Scenarios.EveryActionEmittedOnce` | lib/python/pycstbox/homeautomation/core.py:95-97 | A sink that accepts everything receives exactly one event per action, in stored order. |
| `Scenarios.StopsAtRefusal` | lib/python/pycstbox/homeautomation/core.py:95-97 | If actions before k are accepted and action k is refused, the run ends with the first k events and SinkError. No later action's event is emitted. |
| `Scenarios.SequenceExample` | test/test_core.py:43-49 | Three switches built by the action constructor and appended produce three events. The last is `("switch", "bedroom", "1")`. |
| `Scenarios.FailureStopsSequence` | lib/python/pycstbox/homeautomation/core.py:95-97 | When the second of three actions fails, only the first action's event is emitted. |
| `Scenarios.AsDict` | lib/python/pycstbox/homeautomation/core.py:99-103 | `as_dict()` holds the scenario's label and one `_asdict()` per action, in stored order. |
| `Scenarios.ParseActions` | lib/python/pycstbox/homeautomation/core.py:117-124 | Success gives one action per entry, in order, each equal to the entry's `from_dict`. Failure carries the exception of the first failing entry, and all earlier entries succeed. |
| `Scenarios.FromDict` | lib/python/pycstbox/homeautomation/core.py:113-125 | A missing `label`, then a missing `actions`, raises KeyError. Otherwise it succeeds exactly when every action entry builds. The result has the dict's label and the built actions in order. On failure the exception is that of the first entry that fails; every entry before it builds. |
| `Scenarios.DictRoundTrip` | lib/python/pycstbox/homeautomation/core.py:99-125 | `from_dict(as_dict(s)) == s` for every scenario whose actions have truthy verb, target and label. |
| `Scenarios.CanonicalDictRoundTrip` | lib/python/pycstbox/homeautomation/core.py:99-125 | A definition in `as_dict` form (both keys, canonical actions) is returned unchanged by `as_dict(from_dict(d))`. |
| `Scenarios.Update` | lib/python/pycstbox/homeautomation/core.py:105-111 | It succeeds exactly when `from_dict(d)` does. Label and actions are then replaced together by d's. Otherwise the scenario is unchanged and the same exception is raised. |
| `Scenarios.UpdateCopies` | lib/python/pycstbox/homeautomation/core.py:105-111 | Updating from another scenario's `as_dict()` makes the scenario equal to it. |
| `Scenarios.TestActionsBuild` | lib/python/pycstbox/homeautomation/core.py:148-150 | Each action entry of the update test's definition builds the action with its own label kept. |
| `Scenarios.UpdateExample` | test/test_core.py:84-94 | Updating from the test definition sets the label "test scenario 01" and exactly its two actions, labels kept. |
| `Scenarios.UpdateMissingTarget` | lib/python/pycstbox/homeautomation/core.py:105-111 | A definition with an action lacking `target` raises KeyError("target") and leaves the scenario unchanged. |
| `Manager.GetScenario` | lib/python/pycstbox/homeautomation/core.py:203-210 | Returns the bound scenario exactly when the id is present. Otherwise raises KeyError with the id. |
| `Manager.Contains` | lib/python/pycstbox/homeautomation/core.py:200-201 | Membership holds for exactly the ids `get_scenario` finds. |
| `Manager.AddScenario` | lib/python/pycstbox/homeautomation/core.py:212-222 | An empty id or falsy scenario raises ValueError and one of another class TypeError, with no change. Otherwise the id is bound to the scenario, silently overwriting, and every other id is untouched. |
| `Manager.RemoveScenario` | lib/python/pycstbox/homeautomation/core.py:224-231 | An empty id raises ValueError and an absent one KeyError, with no change. Otherwise exactly that id is removed and the others keep their scenarios. |
| `Manager.AddThenRemove` | lib/python/pycstbox/homeautomation/core.py:212-231 | After adding a new id, `get_scenario` finds the scenario. Removing the id again restores the directory exactly. |
| `Manager.SortedScenarios` | lib/python/pycstbox/homeautomation/core.py:188-198 | One `(id, scenario)` pair per directory entry, each scenario the one bound to its id. Ids are strictly increasing in Python's string order. |
| `Manager.AddScenariosKeys` | lib/python/pycstbox/homeautomation/core.py:212-222 | Successive `add_scenario` calls with distinct, non-empty, new ids add exactly those ids; the directory grows by one per call. |
| `Manager.AddScenariosBinds` | lib/python/pycstbox/homeautomation/core.py:212-222 | After successive `add_scenario` calls with distinct, non-empty ids, each id is bound to the scenario added under it, and every other id keeps its scenario. |
| `Manager.ListingExample` | test/test_core.py:108-119 | For the test's `scenarios_count` (ten, or any count from 1 to 100), after adding `s00`, `s01`, ... through `add_scenario`, the listing has that many entries and starts with s00 labelled "scenario 00". |
| `Manager.ListedScenarioLookup` | test/test_core.py:121-124 | In the same directory, `get_scenario("s01")` finds the scenario, and its one action keeps the explicit label "scen01.action". |
| `Manager.LoadScenarios` | lib/python/pycstbox/homeautomation/core.py:233-259 | A path that is not a file raises ValueError and leaves the directory unchanged. A malformed document leaves it empty. Otherwise it succeeds exactly when every entry builds, and then holds exactly the document's ids. On failure it keeps only correctly built entries and lacks a failing one. |
| `Manager.SaveScenarios` | lib/python/pycstbox/homeautomation/core.py:261-274 | The written document has exactly the directory's ids, each with that scenario's label and, in order, the `_asdict()` of each of its actions. |
| `Manager.SavedDocumentReadsBack` | lib/python/pycstbox/homeautomation/core.py:261-274 | Every entry of the saved document rebuilds, through `from_dict`, the scenario it came from. |
| `Manager.SaveThenLoad` | lib/python/pycstbox/homeautomation/core.py:233-274 | Saving and then loading the same file, on any manager, reproduces the saved directory without error. |
| `Manager.LoadedDocumentSavesBack` | test/test_core.py:135-144 | A document in `save_scenarios` form, loaded without error and saved again, is identical to the input. |
| `Ordering.Insert` | lib/python/pycstbox/homeautomation/core.py:198 | Inserting a new id into a strictly sorted list keeps it strictly sorted and adds exactly that id. |
| `Ordering.SortedIds` | lib/python/pycstbox/homeautomation/core.py:198 | The ids of a set, each once, in strictly increasing order. |
| `Ordering.StrictlySortedDistinct` | lib/python/pycstbox/homeautomation/core.py:198 | A strictly sorted list of ids holds no id twice, so `sorted(items())` orders the pairs by id alone. |

## Findings

| source | as written | input that shows it | evidently intended | confidence | as-written member | corrected member |
|---|---|---|---|---|---|---|
| lib/python/pycstbox/homeautomation/core.py:81-84 | `clear()` calls `list.clear()`. Python 2 lists have no such method, and the module is Python 2 only (it uses `file()` and `iteritems`). | `clear()` on any scenario raises AttributeError and keeps its actions. | Empty the action list and keep the label, as the docstring says. | medium, not executed | `Scenarios.ClearAsWritten` | `Scenarios.Clear` |

## Left out

- File I/O. Path resolution, the default storage path, `os.path.isfile`, and JSON text reading and writing are not modelled. Loading receives the parsed document or `None`; saving returns the document.
- Manager.LoadScenarios: a file that is valid JSON but not an object makes the source raise AttributeError on `iteritems`. The model folds this case into `Malformed`, which raises ValueError. Both leave the directory empty.
- Definitions whose `actions` value is not a list, or whose action entries are not objects, are not representable. Those cases raise TypeError in the source, or for an empty string or object give no actions.
- A scenario definition that is not a JSON object is not representable: `ScenarioDict` and `Document` only hold objects. In the source, `d['label']` on a list, string, number or null raises TypeError. That happens in `update` when a request body is not an object, and in `load_scenarios` for an entry such as `{"s01": null}`, which leaves the directory partial.
- Python.Int: strings parsed from JSON are `unicode`, and Python 2's `int()` on `unicode` treats every Unicode whitespace character as a blank: besides C `isspace`, the separators U+001C to U+001F, U+0085, U+00A0, U+1680, U+2000 to U+200A, U+2028, U+2029, U+202F, U+205F and U+3000. The model's `Decimal.IsSpace` follows C `isspace` only, so `int(u"\xa050")` is 50 in the source and ValueError in the model.
- Action data and fields that are floats, lists or objects are not modelled. Neither are scenario ids that are not strings.
- Python 2 unicode details are not modelled:
  - `str()` of non-ASCII text raises UnicodeEncodeError.
  - `int()` accepts non-ASCII digits.
  - Narrow builds compare strings by UTF-16 code unit.
- Equality is structural. Python's `True == 1` equality between namedtuples is not modelled.
- The event manager is a D-Bus object. It is modelled as a sink predicate, and its effects on devices are not modelled.
- Logging (`Loggable`, `log_info`) and `__str__` are not modelled.
- Aliasing is not modelled. The `actions` getter hands out the internal list, and the web layer updates a scenario object the manager still holds. The model has value semantics, so these shared-state effects cannot be expressed.
- The `Scenario` constructor is the datatype constructor. Its copy of the caller's list is implicit.
- The dead `update(actions)` (core.py:72-79) is left out, because the later `update(d)` shadows it.
- The HTTP handlers in `lib/python/pycstbox/webservices/services/homeautomation/__init__.py` are not part of this model.
