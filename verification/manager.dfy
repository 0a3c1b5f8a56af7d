/** `ScenariosManager`: a directory from scenario id to scenario, with lookup,
    insertion, removal, a listing sorted by id, and loading from / saving to a
    document of the shape `{id: scenario.as_dict()}`. The file itself is not
    modelled: loading receives the document already parsed, or nothing when the
    path is not a file. */
module Manager {
  import opened Python
  import Scenarios
  import Ordering
  import Actions
  import Decimal

  /** `_scenarios`. */
  type Directory = map<string, Scenarios.Scenario>

  /** `get_scenario(id)`: `_scenarios[id]`, KeyError when absent. */
  function GetScenario(dir: Directory, id: string): (r: Result<Scenarios.Scenario>)
    ensures r.Success? <==> id in dir
    ensures r.Success? ==> r.value == dir[id]
    ensures r.Failure? ==> r.error == KeyError(id)
  {
    if id in dir then Success(dir[id]) else Failure(KeyError(id))
  }

  /** `id in manager`: exactly the ids `get_scenario` finds. */
  function Contains(dir: Directory, id: string): (r: bool)
    ensures r <==> GetScenario(dir, id).Success?
  {
    id in dir
  }

  /** `add_scenario(id, scenario)`: an empty id or a falsy scenario raises
      ValueError, an object of another class TypeError; otherwise the id is bound
      to the scenario, replacing any previous binding without notice. */
  function AddScenario(dir: Directory, id: string, scenario: Object<Scenarios.Scenario>): (m: Mutation<Directory>)
    ensures m.raised.None? <==> id != "" && scenario.Instance?
    ensures id == "" || scenario.Falsy() ==> m == Mutation(dir, Some(ValueError))
    ensures id != "" && scenario.Alien? && scenario.truthy ==> m == Mutation(dir, Some(TypeError))
    ensures m.raised.None? ==>
      && m.state.Keys == dir.Keys + {id}
      && m.state[id] == scenario.value
      && forall k :: k in dir && k != id ==> m.state[k] == dir[k]
  {
    if id == "" || scenario.Falsy() then Mutation(dir, Some(ValueError))
    else if !scenario.Instance? then Mutation(dir, Some(TypeError))
    else Mutation(dir[id := scenario.value], None)
  }

  /** `remove_scenario(id)`: an empty id raises ValueError, an absent one KeyError;
      otherwise exactly that id is removed. */
  function RemoveScenario(dir: Directory, id: string): (m: Mutation<Directory>)
    ensures m.raised.None? <==> id != "" && id in dir
    ensures id == "" ==> m == Mutation(dir, Some(ValueError))
    ensures id != "" && id !in dir ==> m == Mutation(dir, Some(KeyError(id)))
    ensures m.raised.None? ==>
      && m.state.Keys == dir.Keys - {id}
      && forall k :: k in m.state ==> m.state[k] == dir[k]
  {
    if id == "" then Mutation(dir, Some(ValueError))
    else if id !in dir then Mutation(dir, Some(KeyError(id)))
    else Mutation(dir - {id}, None)
  }

  /** Adding under a new id and removing it again leaves the directory as it was;
      while added, the id finds the scenario. */
  lemma AddThenRemove(dir: Directory, id: string, s: Scenarios.Scenario)
    requires id != "" && id !in dir
    ensures GetScenario(AddScenario(dir, id, Instance(s)).state, id) == Success(s)
    ensures RemoveScenario(AddScenario(dir, id, Instance(s)).state, id) == Mutation(dir, None)
  {
    var added := AddScenario(dir, id, Instance(s)).state;
    assert added - {id} == dir;
  }

  /** The `scenarios` property: `sorted(_scenarios.items())`, one (id, scenario)
      pair per id, in strictly increasing id order. */
  method SortedScenarios(dir: Directory) returns (items: seq<(string, Scenarios.Scenario)>)
    ensures |items| == |dir|
    ensures forall i :: 0 <= i < |items| ==> items[i].0 in dir && items[i].1 == dir[items[i].0]
    ensures forall id :: id in dir ==> exists i :: 0 <= i < |items| && items[i].0 == id
    ensures forall i, j :: 0 <= i < j < |items| ==> Ordering.Less(items[i].0, items[j].0)
  {
    var ids := Ordering.SortedIds(dir.Keys);
    items := seq(|ids|, i requires 0 <= i < |ids| => (ids[i], dir[ids[i]]));
    forall id | id in dir
      ensures exists i :: 0 <= i < |items| && items[i].0 == id
    {
      assert id in ids;
      var i :| 0 <= i < |ids| && ids[i] == id;
      assert items[i].0 == id;
    }
  }

  /** The parsed storage document: scenario id to the scenario's dict form. */
  type Document = map<string, Scenarios.ScenarioDict>

  /** What `json.load` makes of the file: a JSON object, or text it rejects. */
  datatype FileContent = Parsed(doc: Document) | Malformed

  /** `load_scenarios()`: `file` is None when the path is not a regular file.
      The check of the path comes first, so that failure changes nothing; the
      directory is then emptied before the document is read, so a malformed
      document leaves it empty and a bad entry leaves only the entries read
      before it (in the dict's own iteration order, modelled by an arbitrary
      choice of the next key). */
  method LoadScenarios(dir: Directory, file: Option<FileContent>) returns (m: Mutation<Directory>)
    ensures file.None? ==> m == Mutation(dir, Some(ValueError))
    ensures file == Some(Malformed) ==> m == Mutation(map[], Some(ValueError))
    ensures file.Some? && file.value.Parsed? ==>
      var doc := file.value.doc;
      && (m.raised.None? <==> forall k :: k in doc ==> Scenarios.FromDict(doc[k]).Success?)
      && (forall k :: k in m.state ==> k in doc && Scenarios.FromDict(doc[k]) == Success(m.state[k]))
      && (m.raised.None? ==> m.state.Keys == doc.Keys)
      && (m.raised.Some? ==>
            exists k :: k in doc && k !in m.state && Scenarios.FromDict(doc[k]) == Failure(m.raised.value))
    ensures file.Some? ==> forall k :: k in m.state ==> Scenarios.Valid(m.state[k])
  {
    if file.None? {
      return Mutation(dir, Some(ValueError));
    }
    if file.value.Malformed? {
      return Mutation(map[], Some(ValueError));
    }
    var doc := file.value.doc;
    var loaded: Directory := map[];
    var rest := doc.Keys;
    while rest != {}
      invariant rest <= doc.Keys
      invariant loaded.Keys == doc.Keys - rest
      invariant forall k :: k in loaded ==> Scenarios.FromDict(doc[k]) == Success(loaded[k])
      decreases |rest|
    {
      var k :| k in rest;
      var r := Scenarios.FromDict(doc[k]);
      if r.Failure? {
        return Mutation(loaded, Some(r.error));
      }
      loaded := loaded[k := r.value];
      rest := rest - {k};
    }
    return Mutation(loaded, None);
  }

  /** `save_scenarios()`: the document `{id: scenario.as_dict()}` that is written. */
  function SaveScenarios(dir: Directory): (doc: Document)
    ensures doc.Keys == dir.Keys
    ensures forall k :: k in doc ==> doc[k].caption == Some(dir[k].caption) && doc[k].actions.Some?
    ensures forall k :: k in doc ==>
      && |doc[k].actions.value| == |dir[k].actions|
      && forall i :: 0 <= i < |dir[k].actions| ==> doc[k].actions.value[i] == Actions.ToDict(dir[k].actions[i])
  {
    map k | k in dir :: Scenarios.AsDict(dir[k])
  }

  /** Every scenario of a directory of valid scenarios reads back from the
      document `save_scenarios` writes. */
  lemma SavedDocumentReadsBack(dir: Directory)
    requires forall k :: k in dir ==> Scenarios.Valid(dir[k])
    ensures forall k :: k in SaveScenarios(dir) ==> Scenarios.FromDict(SaveScenarios(dir)[k]) == Success(dir[k])
  {
    forall k | k in dir
      ensures Scenarios.FromDict(SaveScenarios(dir)[k]) == Success(dir[k])
    {
      Scenarios.DictRoundTrip(dir[k]);
    }
  }

  /** `save_scenarios` then `load_scenarios` of the same file, on any manager,
      reproduces the saved directory and raises nothing. */
  method SaveThenLoad(dir: Directory, other: Directory) returns (m: Mutation<Directory>)
    requires forall k :: k in dir ==> Scenarios.Valid(dir[k])
    ensures m == Mutation(dir, None)
  {
    var doc := SaveScenarios(dir);
    SavedDocumentReadsBack(dir);
    m := LoadScenarios(other, Some(Parsed(doc)));
    assert m.state == dir;
  }

  /** A document in the form `save_scenarios` writes, once loaded, is saved back
      identical: the directory `load_scenarios` builds from it without error
      turns into the same document. */
  lemma LoadedDocumentSavesBack(doc: Document, loaded: Directory)
    requires forall k :: k in doc ==> Scenarios.Canonical(doc[k])
    requires loaded.Keys == doc.Keys
    requires forall k :: k in loaded ==> Scenarios.FromDict(doc[k]) == Success(loaded[k])
    ensures SaveScenarios(loaded) == doc
  {
    forall k | k in doc
      ensures Scenarios.AsDict(loaded[k]) == doc[k]
    {
      Scenarios.CanonicalDictRoundTrip(doc[k]);
    }
  }

  /** Calls `add_scenario` once per (id, scenario) pair, in sequence order. */
  function AddScenarios(dir: Directory, entries: seq<(string, Scenarios.Scenario)>): Directory
    decreases |entries|
  {
    if |entries| == 0 then dir
    else AddScenarios(AddScenario(dir, entries[0].0, Instance(entries[0].1)).state, entries[1..])
  }

  /** Adding pairs whose ids are distinct, non-empty and new adds exactly those
      ids, one binding per call. */
  lemma {:induction false} AddScenariosKeys(dir: Directory, entries: seq<(string, Scenarios.Scenario)>)
    requires forall i, j :: 0 <= i < j < |entries| ==> entries[i].0 != entries[j].0
    requires forall i :: 0 <= i < |entries| ==> entries[i].0 != "" && entries[i].0 !in dir
    ensures |AddScenarios(dir, entries)| == |dir| + |entries|
    ensures forall x :: x in AddScenarios(dir, entries) <==>
      x in dir || exists i :: 0 <= i < |entries| && entries[i].0 == x
    decreases |entries|
  {
    if |entries| > 0 {
      var next := AddScenario(dir, entries[0].0, Instance(entries[0].1)).state;
      var rest := entries[1..];
      assert forall i :: 0 <= i < |rest| ==> rest[i] == entries[i + 1];
      AddScenariosKeys(next, rest);
      forall x | x in AddScenarios(next, rest)
        ensures x in dir || exists i :: 0 <= i < |entries| && entries[i].0 == x
      {
        if x !in next {
          var i :| 0 <= i < |rest| && rest[i].0 == x;
          assert entries[i + 1].0 == x;
        }
      }
    }
  }

  /** Adding pairs whose ids are distinct and non-empty binds each id to its
      scenario and keeps every binding no pair touches. */
  lemma {:induction false} AddScenariosBinds(dir: Directory, entries: seq<(string, Scenarios.Scenario)>)
    requires forall i, j :: 0 <= i < j < |entries| ==> entries[i].0 != entries[j].0
    requires forall i :: 0 <= i < |entries| ==> entries[i].0 != ""
    ensures forall x :: x in dir && (forall i :: 0 <= i < |entries| ==> entries[i].0 != x) ==>
      x in AddScenarios(dir, entries) && AddScenarios(dir, entries)[x] == dir[x]
    ensures forall i :: 0 <= i < |entries| ==>
      entries[i].0 in AddScenarios(dir, entries) && AddScenarios(dir, entries)[entries[i].0] == entries[i].1
    decreases |entries|
  {
    if |entries| > 0 {
      var next := AddScenario(dir, entries[0].0, Instance(entries[0].1)).state;
      var rest := entries[1..];
      assert forall i :: 0 <= i < |rest| ==> rest[i] == entries[i + 1];
      AddScenariosBinds(next, rest);
      forall i | 0 < i < |entries|
        ensures entries[i].0 in AddScenarios(next, rest)
        ensures AddScenarios(next, rest)[entries[i].0] == entries[i].1
      {
        assert rest[i - 1] == entries[i];
      }
    }
  }

  /** `'%02d' % i` for i below 100. */
  function TwoDigits(i: nat): (t: string)
    requires i < 100
    ensures |t| == 2 && '0' <= t[0] && '0' <= t[1]
  {
    [Decimal.DigitChar(i / 10), Decimal.DigitChar(i % 10)]
  }

  lemma TwoDigitsInjective(i: nat, j: nat)
    requires i < 100 && j < 100 && i != j
    ensures TwoDigits(i) != TwoDigits(j)
  {
    assert i == i / 10 * 10 + i % 10 && j == j / 10 * 10 + j % 10;
    assert Decimal.DigitValue(TwoDigits(i)[0]) == i / 10 && Decimal.DigitValue(TwoDigits(j)[0]) == j / 10;
    assert Decimal.DigitValue(TwoDigits(i)[1]) == i % 10 && Decimal.DigitValue(TwoDigits(j)[1]) == j % 10;
  }

  /** The scenario the listing test adds under `s<nn>`: label `scenario <nn>`, and
      one `nop` action with the explicit label `scen<nn>.action`, which the
      constructor keeps as given. */
  function Numbered(i: nat): Scenarios.Scenario
    requires i < 100
  {
    Scenarios.Scenario(DStr("scenario " + TwoDigits(i)),
                       [Actions.Action(DStr("nop"), DStr("none"), DStr(""), DStr("scen" + TwoDigits(i) + ".action"))])
  }

  /** The ids and scenarios the listing test adds, in its order: `s00`, `s01`, ... */
  function TestEntries(count: nat): (es: seq<(string, Scenarios.Scenario)>)
    requires count <= 100
    ensures |es| == count
  {
    seq(count, i requires 0 <= i < count => ("s" + TwoDigits(i), Numbered(i)))
  }

  /** The directory of the listing test: `count` `add_scenario` calls on an empty manager. */
  function TestDirectory(count: nat): Directory
    requires count <= 100
  {
    AddScenarios(map[], TestEntries(count))
  }

  /** The ids are distinct, so each call adds a binding of its own. */
  lemma TestEntriesAdded(count: nat)
    requires count <= 100
    ensures |TestDirectory(count)| == count
    ensures forall x :: x in TestDirectory(count) <==> exists i :: 0 <= i < count && TestEntries(count)[i].0 == x
    ensures forall i :: 0 <= i < count ==> TestDirectory(count)[TestEntries(count)[i].0] == TestEntries(count)[i].1
  {
    var es := TestEntries(count);
    forall i, j | 0 <= i < j < |es|
      ensures es[i].0 != es[j].0
    {
      TwoDigitsInjective(i, j);
      assert es[i].0[1..] == TwoDigits(i) && es[j].0[1..] == TwoDigits(j);
    }
    AddScenariosKeys(map[], es);
    AddScenariosBinds(map[], es);
  }

  /** No id of the form `s<digit><digit>` comes before s00. */
  lemma NotBelowS00(t: string)
    requires |t| == 2 && '0' <= t[0] && '0' <= t[1]
    ensures !Ordering.Less("s" + t, "s00")
  {
    var x := "s" + t;
    assert x[0] == 's' && x[1..] == t && t[1..] == [t[1]];
    assert Ordering.Less(x, "s00") == Ordering.Less(x[1..], "s00"[1..]);
    assert Ordering.Less(t, "00") == Ordering.Less(t[1..], "00"[1..]);
    assert Ordering.Less([t[1]], "0") == Ordering.Less([t[1]][1..], "0"[1..]);
  }

  /** What the listing test relies on about its directory: `count` ids, s00 among
      them with label "scenario 00", and no id before it. */
  predicate ListingFixture(dir: Directory, count: nat) {
    && |dir| == count
    && "s00" in dir && dir["s00"].caption == DStr("scenario 00")
    && forall x :: x in dir ==> !Ordering.Less(x, "s00")
  }

  lemma TestDirectoryFixture(count: nat)
    requires 1 <= count <= 100
    ensures ListingFixture(TestDirectory(count), count)
  {
    TestEntriesAdded(count);
    var es := TestEntries(count);
    assert TwoDigits(0) == "00";
    assert es[0].0 == "s00" && es[0].1.caption == DStr("scenario 00");
    forall x | x in TestDirectory(count)
      ensures !Ordering.Less(x, "s00")
    {
      var i :| 0 <= i < count && es[i].0 == x;
      NotBelowS00(TwoDigits(i));
    }
  }

  /** In a listing sorted by id, an id that no id of the directory comes before is first. */
  lemma LeastComesFirst(items: seq<(string, Scenarios.Scenario)>, dir: Directory, least: string)
    requires forall i :: 0 <= i < |items| ==> items[i].0 in dir
    requires forall i, j :: 0 <= i < j < |items| ==> Ordering.Less(items[i].0, items[j].0)
    requires exists i :: 0 <= i < |items| && items[i].0 == least
    requires forall x :: x in dir ==> !Ordering.Less(x, least)
    ensures items[0].0 == least
  {
    var i :| 0 <= i < |items| && items[i].0 == least;
    assert items[0].0 in dir;
  }

  /** The listing of such a directory has `count` entries, s00 first. */
  lemma FixtureListing(dir: Directory, count: nat, items: seq<(string, Scenarios.Scenario)>)
    requires ListingFixture(dir, count)
    requires |items| == |dir|
    requires forall i :: 0 <= i < |items| ==> items[i].0 in dir && items[i].1 == dir[items[i].0]
    requires forall id :: id in dir ==> exists i :: 0 <= i < |items| && items[i].0 == id
    requires forall i, j :: 0 <= i < j < |items| ==> Ordering.Less(items[i].0, items[j].0)
    ensures |items| == count && items[0].0 == "s00" && items[0].1.caption == DStr("scenario 00")
  {
    assert "s00" in dir;
    LeastComesFirst(items, dir, "s00");
  }

  /** The listing test, for its `scenarios_count` (ten in the test): as many
      scenarios listed as were added, s00 with label "scenario 00" first. */
  method ListingExample(count: nat) returns (items: seq<(string, Scenarios.Scenario)>)
    requires 1 <= count <= 100
    ensures |items| == count
    ensures items[0].0 == "s00" && items[0].1.caption == DStr("scenario 00")
  {
    var dir := TestDirectory(count);
    TestDirectoryFixture(count);
    items := SortedScenarios(dir);
    FixtureListing(dir, count, items);
  }

  /** The lookup of the listing test: s01 is found, and its action keeps the
      explicit label it was built with. */
  lemma ListedScenarioLookup(count: nat)
    requires 2 <= count <= 100
    ensures GetScenario(TestDirectory(count), "s01").Success?
    ensures GetScenario(TestDirectory(count), "s01").value.actions
            == [Actions.Action(DStr("nop"), DStr("none"), DStr(""), DStr("scen01.action"))]
  {
    TestEntriesAdded(count);
    var e := TestEntries(count)[1];
    assert TwoDigits(1) == "01";
    assert "scen" + TwoDigits(1) + ".action" == "scen01.action";
    assert e.0 == "s01";
  }
}
