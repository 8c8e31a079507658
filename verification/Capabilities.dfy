// What an agent says it can do: one page of a model catalogue read from JSON, the
// merging of pages, and the loop that asks for them.
module Capabilities {
  import opened NameLists
  import opened Wrappers

  datatype Json =
    | Null
    | Bool(flag: bool)
    | Number(value: real)
    | Str(text: string)
    | Arr(items: seq<Json>)
    | Obj(fields: map<string, Json>)

  datatype Model = Model(
    id: string,
    displayName: Option<string>,
    supportedEfforts: seq<string>,
    defaultEffort: Option<string>,
    hidden: bool)

  datatype Probe = Probe(models: seq<Model>, efforts: seq<string>, protocolCapabilities: seq<string>, source: string)

  datatype ProbeError = NoCatalog | Refused(error: Json) | NoAnswer

  // ---------- Reading JSON ----------

  function Get(value: Json, key: string): Option<Json> {
    if value.Obj? && key in value.fields then Some(value.fields[key]) else None
  }

  function Text(value: Option<Json>): Option<string> {
    match value
    case Some(Str(text)) => Some(text)
    case _ => None
  }

  // The first of these keys that holds a string.
  function FirstText(value: Json, keys: seq<string>): Option<string> {
    if keys == [] then None
    else if Text(Get(value, keys[0])).Some? then Text(Get(value, keys[0]))
    else FirstText(value, keys[1..])
  }

  // The first of these keys that is there at all.
  function FirstPresent(value: Json, keys: seq<string>): Option<Json> {
    if keys == [] then None
    else if Get(value, keys[0]).Some? then Get(value, keys[0])
    else FirstPresent(value, keys[1..])
  }

  // An effort is a string, or an object that names one.
  function EffortName(value: Json): Option<string> {
    if value.Str? then Some(value.text)
    else FirstText(value, ["reasoningEffort", "reasoning_effort", "effort"])
  }

  function EffortNames(items: seq<Json>): seq<string> {
    if items == [] then []
    else
      var front, last := EffortNames(items[..|items| - 1]), EffortName(items[|items| - 1]);
      if last.Some? then front + [last.value] else front
  }

  function StringValues(value: Json, keys: seq<string>): seq<string> {
    match FirstPresent(value, keys)
    case Some(Arr(items)) => EffortNames(items)
    case _ => []
  }

  // ---------- Keeping the first of each ----------

  function NonEmpty(values: seq<string>): seq<string> {
    if values == [] then []
    else
      var front, last := NonEmpty(values[..|values| - 1]), values[|values| - 1];
      if last != "" then front + [last] else front
  }

  function Unique(values: seq<string>): seq<string> {
    FirstSeen(NonEmpty(values))
  }

  predicate HasId(models: seq<Model>, id: string) {
    exists k :: 0 <= k < |models| && models[k].id == id
  }

  // The first model of each id, in order.
  function FirstOfEachId(models: seq<Model>): seq<Model> {
    if models == [] then []
    else
      var front, last := FirstOfEachId(models[..|models| - 1]), models[|models| - 1];
      if HasId(front, last.id) then front else front + [last]
  }

  method UniqueStrings(values: seq<string>) returns (kept: seq<string>)
    ensures kept == Unique(values)
  {
    var seen: set<string> := {};
    kept := [];
    for i := 0 to |values|
      invariant kept == Unique(values[..i])
      invariant forall value :: value in seen <==> value in kept
    {
      assert values[..i + 1][..i] == values[..i];
      FirstSeenStep(NonEmpty(values[..i]), values[i]);
      if values[i] != "" && values[i] !in seen {
        seen := seen + {values[i]};
        kept := kept + [values[i]];
      }
    }
    assert values[..|values|] == values;
  }

  method UniqueModelCapabilities(models: seq<Model>) returns (kept: seq<Model>)
    ensures kept == FirstOfEachId(models)
  {
    var seen: set<string> := {};
    kept := [];
    for i := 0 to |models|
      invariant kept == FirstOfEachId(models[..i])
      invariant forall id :: id in seen <==> HasId(kept, id)
    {
      assert models[..i + 1][..i] == models[..i];
      if models[i].id !in seen {
        HasIdOfAppend(kept, models[i]);
        seen := seen + {models[i].id};
        kept := kept + [models[i]];
      }
    }
    assert models[..|models|] == models;
  }

  // ---------- One page ----------

  // Items that are not objects, or have no name, are passed over.
  function ModelOf(item: Json): Option<Model> {
    var id := FirstText(item, ["id", "model", "slug"]);
    if id.None? || id.value == "" then None
    else Some(Model(
      id.value,
      FirstText(item, ["displayName", "display_name"]),
      Unique(StringValues(item, ["supportedReasoningEfforts", "supported_reasoning_levels"])),
      FirstText(item, ["defaultReasoningEffort", "default_reasoning_level"]),
      Get(item, "hidden") == Some(Bool(true))))
  }

  function ModelsOf(items: seq<Json>): seq<Model> {
    if items == [] then []
    else
      var front, last := ModelsOf(items[..|items| - 1]), ModelOf(items[|items| - 1]);
      if last.Some? then front + [last.value] else front
  }

  function EffortsOf(models: seq<Model>): seq<string> {
    if models == [] then [] else EffortsOf(models[..|models| - 1]) + models[|models| - 1].supportedEfforts
  }

  // A data field that is no list hides a models field that is.
  function CatalogItems(value: Json): Option<seq<Json>> {
    match FirstPresent(value, ["data", "models"])
    case Some(Arr(items)) => Some(items)
    case _ => None
  }

  function Catalog(items: seq<Json>): Probe {
    Probe(ModelsOf(items), Unique(EffortsOf(ModelsOf(items))), [], "codex model catalog")
  }

  method ParseCodexModelCatalog(value: Json) returns (page: Result<Probe, ProbeError>)
    ensures page == match CatalogItems(value) case Some(items) => Ok(Catalog(items)) case None => Err(NoCatalog)
  {
    var items := CatalogItems(value);
    if items.None? {
      return Err(NoCatalog);
    }
    var models := [];
    for i := 0 to |items.value|
      invariant models == ModelsOf(items.value[..i])
    {
      assert items.value[..i + 1][..i] == items.value[..i];
      var model := ModelOf(items.value[i]);
      if model.Some? {
        models := models + [model.value];
      }
    }
    assert items.value[..|items.value|] == items.value;
    var efforts := [];
    for i := 0 to |models|
      invariant efforts == EffortsOf(models[..i])
    {
      assert models[..i + 1][..i] == models[..i];
      efforts := efforts + models[i].supportedEfforts;
    }
    assert models[..|models|] == models;
    efforts := UniqueStrings(efforts);
    page := Ok(Probe(models, efforts, [], "codex model catalog"));
  }

  // ---------- Merging pages ----------

  function Merged(target: Probe, page: Probe): Probe {
    target.(
      models := FirstOfEachId(target.models + page.models),
      efforts := Unique(target.efforts + page.efforts),
      protocolCapabilities := Unique(target.protocolCapabilities + page.protocolCapabilities))
  }

  class ProbeData {
    var models: seq<Model>
    var efforts: seq<string>
    var protocolCapabilities: seq<string>
    var source: string

    function Value(): Probe
      reads this
    {
      Probe(models, efforts, protocolCapabilities, source)
    }

    constructor (source: string)
      ensures Value() == Probe([], [], [], source)
    {
      models, efforts, protocolCapabilities := [], [], [];
      this.source := source;
    }

    method Merge(page: Probe)
      modifies this
      ensures Value() == Merged(old(Value()), page)
    {
      models := models + page.models;
      efforts := efforts + page.efforts;
      protocolCapabilities := protocolCapabilities + page.protocolCapabilities;
      models := UniqueModelCapabilities(models);
      efforts := UniqueStrings(efforts);
      protocolCapabilities := UniqueStrings(protocolCapabilities);
    }
  }

  // ---------- The paging loop ----------

  const APP_SERVER := "codex app-server model/list + features"

  function ResultOf(response: Json): Json {
    if Get(response, "result").Some? then Get(response, "result").value else Null
  }

  function NextCursor(response: Json): Option<string> {
    Text(FirstPresent(ResultOf(response), ["nextCursor", "next_cursor"]))
  }

  // What reading these answers, in the order they come, adds to what was read before.
  // Running out of answers is the agent going silent.
  function ReadPages(target: Probe, responses: seq<Json>): Result<Probe, ProbeError>
    decreases |responses|
  {
    if responses == [] then Err(NoAnswer)
    else if Get(responses[0], "error").Some? then Err(Refused(Get(responses[0], "error").value))
    else
      match CatalogItems(ResultOf(responses[0]))
      case None => Err(NoCatalog)
      case Some(items) =>
        var merged := Merged(target, Catalog(items));
        if NextCursor(responses[0]).None? then Ok(merged) else ReadPages(merged, responses[1..])
  }

  // asked holds the cursor sent with each request.
  method ProbeCodexAppServer(responses: seq<Json>)
      returns (probe: Result<Probe, ProbeError>, asked: seq<Option<string>>)
    ensures probe == ReadPages(Probe([], [], [], APP_SERVER), responses)
    ensures 0 < |asked| <= |responses| + 1 && asked[0] == None
    ensures forall k :: 0 < k < |asked| ==> asked[k] == NextCursor(responses[k - 1]) && asked[k].Some?
  {
    hide Catalog, Merged, CatalogItems, NextCursor, ResultOf, Get;
    var data := new ProbeData(APP_SERVER);
    var cursor: Option<string> := None;
    asked := [];
    var i := 0;
    while true
      invariant i == |asked| <= |responses|
      invariant if i == 0 then cursor == None else cursor == NextCursor(responses[i - 1]) && cursor.Some?
      invariant forall k :: 0 <= k < i ==> asked[k] == if k == 0 then None else NextCursor(responses[k - 1])
      invariant forall k :: 0 < k < i ==> asked[k].Some?
      invariant ReadPages(data.Value(), responses[i..]) == ReadPages(Probe([], [], [], APP_SERVER), responses)
      decreases |responses| - i
    {
      asked := asked + [cursor];
      if i == |responses| {
        return Err(NoAnswer), asked;
      }
      var response := responses[i];
      if Get(response, "error").Some? {
        return Err(Refused(Get(response, "error").value)), asked;
      }
      var page := ParseCodexModelCatalog(ResultOf(response));
      if page.Err? {
        return Err(page.error), asked;
      }
      data.Merge(page.value);
      cursor := NextCursor(response);
      if cursor.None? {
        return Ok(data.Value()), asked;
      }
      assert responses[i..][1..] == responses[i + 1..];
      i := i + 1;
    }
  }

  // ---------- Where the pages end does not matter ----------

  // Every catalogue item the loop reads, page after page.
  function ItemsRead(responses: seq<Json>): seq<Json> {
    if responses == [] || Get(responses[0], "error").Some? then []
    else
      match CatalogItems(ResultOf(responses[0]))
      case None => []
      case Some(items) => items + if NextCursor(responses[0]).None? then [] else ItemsRead(responses[1..])
  }

  lemma HasIdOfAppend(models: seq<Model>, model: Model)
    ensures forall id :: HasId(models + [model], id) <==> HasId(models, id) || id == model.id
  {
    forall id ensures HasId(models + [model], id) <==> HasId(models, id) || id == model.id {
      if HasId(models, id) {
        var k :| 0 <= k < |models| && models[k].id == id;
        assert (models + [model])[k].id == id;
      } else if id == model.id {
        assert (models + [model])[|models|].id == id;
      }
    }
  }

  lemma {:induction false} NonEmptySplits(a: seq<string>, b: seq<string>)
    ensures NonEmpty(a + b) == NonEmpty(a) + NonEmpty(b)
    decreases |b|
  {
    if b == [] {
      assert a + b == a;
    } else {
      assert (a + b)[..|a + b| - 1] == a + b[..|b| - 1];
      NonEmptySplits(a, b[..|b| - 1]);
    }
  }

  lemma {:induction false} NonEmptyKeeps(values: seq<string>)
    requires "" !in values
    ensures NonEmpty(values) == values
    decreases |values|
  {
    if values != [] {
      assert values == values[..|values| - 1] + [values[|values| - 1]];
      NonEmptyKeeps(values[..|values| - 1]);
    }
  }

  lemma {:induction false} NonEmptyMembers(values: seq<string>, value: string)
    ensures value in NonEmpty(values) <==> value in values && value != ""
    decreases |values|
  {
    if values != [] {
      assert values == values[..|values| - 1] + [values[|values| - 1]];
      NonEmptyMembers(values[..|values| - 1], value);
    }
  }

  lemma UniqueMembers(values: seq<string>)
    ensures forall value :: value in Unique(values) <==> value in values && value != ""
    ensures DistinctNames(Unique(values))
  {
    forall value ensures value in Unique(values) <==> value in values && value != "" {
      NonEmptyMembers(values, value);
      ExtendMember([], NonEmpty(values), value);
    }
    ExtendDistinct([], NonEmpty(values));
  }

  // Merging lists already cut down is cutting down the whole.
  lemma UniqueMerges(a: seq<string>, b: seq<string>)
    ensures Unique(Unique(a) + Unique(b)) == Unique(a + b)
  {
    UniqueMembers(a);
    UniqueMembers(b);
    NonEmptyKeeps(Unique(a) + Unique(b));
    var x, y := NonEmpty(a), NonEmpty(b);
    NonEmptySplits(a, b);
    ExtendAppends([], FirstSeen(x), FirstSeen(y));
    ExtendByFirstSeen([], x);
    ExtendByFirstSeen(FirstSeen(x), y);
    ExtendAppends([], x, y);
  }

  lemma {:induction false} FirstOfEachIdMerges(a: seq<Model>, b: seq<Model>)
    ensures FirstOfEachId(FirstOfEachId(a) + b) == FirstOfEachId(a + b)
    decreases |a| + |b|
  {
    if b != [] {
      var front := b[..|b| - 1];
      FirstOfEachIdMerges(a, front);
      assert (a + b)[..|a + b| - 1] == a + front;
      assert (FirstOfEachId(a) + b)[..|FirstOfEachId(a) + b| - 1] == FirstOfEachId(a) + front;
    } else {
      assert a + b == a && FirstOfEachId(a) + b == FirstOfEachId(a);
      if a != [] {
        var front := a[..|a| - 1];
        FirstOfEachIdMerges(front, []);
        assert FirstOfEachId(front) + [] == FirstOfEachId(front) && front + [] == front;
        if !HasId(FirstOfEachId(front), a[|a| - 1].id) {
          assert FirstOfEachId(a)[..|FirstOfEachId(a)| - 1] == FirstOfEachId(front);
        }
      }
    }
  }

  lemma {:induction false} ModelsOfSplits(a: seq<Json>, b: seq<Json>)
    ensures ModelsOf(a + b) == ModelsOf(a) + ModelsOf(b)
    decreases |b|
  {
    if b == [] {
      assert a + b == a;
    } else {
      assert (a + b)[..|a + b| - 1] == a + b[..|b| - 1];
      ModelsOfSplits(a, b[..|b| - 1]);
    }
  }

  lemma {:induction false} EffortsOfSplits(a: seq<Model>, b: seq<Model>)
    ensures EffortsOf(a + b) == EffortsOf(a) + EffortsOf(b)
    decreases |b|
  {
    if b == [] {
      assert a + b == a;
    } else {
      assert (a + b)[..|a + b| - 1] == a + b[..|b| - 1];
      EffortsOfSplits(a, b[..|b| - 1]);
    }
  }

  // The probe that one page holding all these items would have given.
  function Whole(items: seq<Json>): Probe {
    Probe(FirstOfEachId(ModelsOf(items)), Unique(EffortsOf(ModelsOf(items))), [], APP_SERVER)
  }

  lemma OneMorePage(before: seq<Json>, items: seq<Json>)
    ensures Merged(Whole(before), Catalog(items)) == Whole(before + items)
  {
    var a, b := ModelsOf(before), ModelsOf(items);
    ModelsOfSplits(before, items);
    FirstOfEachIdMerges(a, b);
    EffortsOfSplits(a, b);
    UniqueMerges(EffortsOf(a), EffortsOf(b));
  }

  lemma {:induction false} PagesAreOneCatalog(before: seq<Json>, responses: seq<Json>)
    ensures
      var probe := ReadPages(Whole(before), responses);
      probe.Ok? ==> probe.value == Whole(before + ItemsRead(responses))
    decreases |responses|
  {
    hide Whole, Merged, Catalog, CatalogItems, NextCursor, ResultOf, Get;
    if responses != [] && Get(responses[0], "error").None? {
      var items := CatalogItems(ResultOf(responses[0]));
      if items.Some? {
        OneMorePage(before, items.value);
        if NextCursor(responses[0]).None? {
          assert ItemsRead(responses) == items.value;
        } else {
          PagesAreOneCatalog(before + items.value, responses[1..]);
          assert before + ItemsRead(responses) == before + items.value + ItemsRead(responses[1..]);
        }
      }
    }
  }

  // The first n answers are pages of a catalogue, and the last of them is its last.
  predicate WholeCatalog(responses: seq<Json>, n: nat) {
    && 0 < n <= |responses|
    && (forall k :: 0 <= k < n ==> Get(responses[k], "error").None? && CatalogItems(ResultOf(responses[k])).Some?)
    && (forall k :: 0 <= k < n ==> (NextCursor(responses[k]).None? <==> k == n - 1))
  }

  // A probe succeeds exactly when, up to the first page without a cursor, every answer
  // is a page.
  lemma {:induction false} ProbeSucceeds(target: Probe, responses: seq<Json>)
    ensures ReadPages(target, responses).Ok? <==> exists n: nat :: WholeCatalog(responses, n)
    decreases |responses|
  {
    hide Merged, Catalog, CatalogItems, NextCursor, ResultOf, Get;
    if responses != [] && Get(responses[0], "error").None? && CatalogItems(ResultOf(responses[0])).Some? {
      if NextCursor(responses[0]).None? {
        assert WholeCatalog(responses, 1);
      } else {
        ProbeSucceeds(Merged(target, Catalog(CatalogItems(ResultOf(responses[0])).value)), responses[1..]);
        forall n: nat ensures WholeCatalog(responses[1..], n) ==> WholeCatalog(responses, n + 1) {
          OneMoreAnswer(responses, n);
        }
        forall n: nat | WholeCatalog(responses, n) ensures n > 1 && WholeCatalog(responses[1..], n - 1) {
          OneLessAnswer(responses, n);
        }
      }
    }
  }

  lemma OneMoreAnswer(responses: seq<Json>, n: nat)
    requires responses != [] && NextCursor(responses[0]).Some?
    requires Get(responses[0], "error").None? && CatalogItems(ResultOf(responses[0])).Some?
    ensures WholeCatalog(responses[1..], n) ==> WholeCatalog(responses, n + 1)
  {
    hide CatalogItems, NextCursor, ResultOf, Get;
    assert forall k :: 0 < k < |responses| ==> responses[k] == responses[1..][k - 1];
  }

  lemma OneLessAnswer(responses: seq<Json>, n: nat)
    requires WholeCatalog(responses, n) && NextCursor(responses[0]).Some?
    ensures n > 1 && WholeCatalog(responses[1..], n - 1)
  {
    hide CatalogItems, NextCursor, ResultOf, Get;
  }

  // However a catalogue is cut into pages, the probe is the same, and it is the one a
  // single page would have given.
  lemma {:induction false} PagingIsIrrelevant(responses: seq<Json>, responses': seq<Json>)
    requires ItemsRead(responses) == ItemsRead(responses')
    ensures
      var start := Probe([], [], [], APP_SERVER);
      var probe, probe' := ReadPages(start, responses), ReadPages(start, responses');
      && (probe.Ok? ==> probe.value == Whole(ItemsRead(responses)))
      && (probe.Ok? && probe'.Ok? ==> probe == probe')
  {
    assert Whole([]) == Probe([], [], [], APP_SERVER);
    PagesAreOneCatalog([], responses);
    PagesAreOneCatalog([], responses');
    assert [] + ItemsRead(responses) == ItemsRead(responses);
  }

  // ---------- What is read ----------

  predicate Holds(value: Json, key: string, held: Json) {
    value.Obj? && key in value.fields && value.fields[key] == held
  }

  predicate Lacks(value: Json, key: string) {
    value.Obj? ==> key !in value.fields
  }

  // The first of the keys that holds a string holds this one.
  ghost predicate SaysFirst(value: Json, keys: seq<string>, text: string) {
    exists k :: && 0 <= k < |keys| && Holds(value, keys[k], Str(text))
                && forall j, t :: 0 <= j < k ==> !Holds(value, keys[j], Str(t))
  }

  lemma {:induction false} FirstTextIs(value: Json, keys: seq<string>, text: string)
    ensures FirstText(value, keys) == Some(text) <==> SaysFirst(value, keys, text)
    decreases |keys|
  {
    if keys != [] {
      var rest := keys[1..];
      FirstTextIs(value, rest, text);
      var own := Text(Get(value, keys[0]));
      assert forall t :: Holds(value, keys[0], Str(t)) <==> own == Some(t);
      assert forall k :: 0 < k < |keys| ==> keys[k] == rest[k - 1];
      if own.Some? {
        assert Holds(value, keys[0], Str(own.value));
      } else {
        if SaysFirst(value, rest, text) {
          var k :| && 0 <= k < |rest| && Holds(value, rest[k], Str(text))
                   && forall j, t :: 0 <= j < k ==> !Holds(value, rest[j], Str(t));
          assert Holds(value, keys[k + 1], Str(text));
        }
        if SaysFirst(value, keys, text) {
          var k :| && 0 <= k < |keys| && Holds(value, keys[k], Str(text))
                   && forall j, t :: 0 <= j < k ==> !Holds(value, keys[j], Str(t));
          assert Holds(value, rest[k - 1], Str(text));
          assert forall j :: 0 <= j < k - 1 ==> rest[j] == keys[j + 1];
        }
      }
    }
  }

  lemma FirstPresentOfTwo(value: Json, a: string, b: string, found: Json)
    ensures FirstPresent(value, [a, b]) == Some(found) <==>
              Holds(value, a, found) || (Lacks(value, a) && Holds(value, b, found))
  {
    assert [a, b][1..] == [b] && [b][1..] == [];
    assert FirstPresent(value, [b]) == Get(value, b);
  }

  // The efforts under one of two keys are those of the list under the first that is there
  // at all; anything but a list there gives none, whatever the second holds.
  lemma StringValuesAre(value: Json, a: string, b: string)
    ensures forall items :: Holds(value, a, Arr(items)) || (Lacks(value, a) && Holds(value, b, Arr(items))) ==>
              StringValues(value, [a, b]) == EffortNames(items)
    ensures (forall items :: !Holds(value, a, Arr(items)) && (Lacks(value, a) ==> !Holds(value, b, Arr(items)))) ==>
              StringValues(value, [a, b]) == []
  {
    forall found { FirstPresentOfTwo(value, a, b, found); }
    hide EffortNames, FirstPresent;
    var found := FirstPresent(value, [a, b]);
    if found.Some? && found.value.Arr? {
      assert Holds(value, a, Arr(found.value.items)) || Holds(value, b, Arr(found.value.items));
    }
  }

  // The catalogue of a page is its data field, or its models field if it has no data
  // field, and has to be a list.
  lemma CatalogItemsAre(value: Json, items: seq<Json>)
    ensures CatalogItems(value) == Some(items) <==>
              Holds(value, "data", Arr(items)) || (Lacks(value, "data") && Holds(value, "models", Arr(items)))
  {
    forall found { FirstPresentOfTwo(value, "data", "models", found); }
    hide FirstPresent, Holds, Lacks;
  }

  // The cursor asked with next is the text under nextCursor in the answer's result, or
  // under next_cursor if nextCursor is not there at all. Anything else ends the paging.
  lemma CursorIs(response: Json, cursor: string)
    ensures NextCursor(response) == Some(cursor) <==>
              exists page :: Holds(response, "result", page)
                && (|| Holds(page, "nextCursor", Str(cursor))
                    || (Lacks(page, "nextCursor") && Holds(page, "next_cursor", Str(cursor))))
  {
    var page := ResultOf(response);
    assert forall other :: Holds(response, "result", other) ==> other == page;
    assert page != Null ==> Holds(response, "result", page);
    forall found { FirstPresentOfTwo(page, "nextCursor", "next_cursor", found); }
    hide FirstPresent, ResultOf;
  }

  // What is read of a catalogue item.
  lemma ModelIs(item: Json, model: Model)
    ensures ModelOf(item) == Some(model) <==>
              && model.id != "" && SaysFirst(item, ["id", "model", "slug"], model.id)
              && (forall name :: model.displayName == Some(name) <==>
                    SaysFirst(item, ["displayName", "display_name"], name))
              && (forall effort :: model.defaultEffort == Some(effort) <==>
                    SaysFirst(item, ["defaultReasoningEffort", "default_reasoning_level"], effort))
              && model.supportedEfforts
                 == Unique(StringValues(item, ["supportedReasoningEfforts", "supported_reasoning_levels"]))
              && (model.hidden <==> Holds(item, "hidden", Bool(true)))
  {
    hide FirstText, SaysFirst, Unique, StringValues, ModelOf;
    ModelFieldsAre(item, model);
    assert Holds(item, "hidden", Bool(true)) <==> Get(item, "hidden") == Some(Bool(true));
    hide Holds, Get;
    FirstTextIs(item, ["id", "model", "slug"], model.id);
    forall name { FirstTextIs(item, ["displayName", "display_name"], name); }
    forall effort { FirstTextIs(item, ["defaultReasoningEffort", "default_reasoning_level"], effort); }
  }

  lemma ModelFieldsAre(item: Json, model: Model)
    ensures
      var id := FirstText(item, ["id", "model", "slug"]);
      var displayName := FirstText(item, ["displayName", "display_name"]);
      var defaultEffort := FirstText(item, ["defaultReasoningEffort", "default_reasoning_level"]);
      ModelOf(item) == Some(model) <==>
        && id == Some(model.id) && model.id != ""
        && (forall name :: model.displayName == Some(name) <==> displayName == Some(name))
        && (forall effort :: model.defaultEffort == Some(effort) <==> defaultEffort == Some(effort))
        && model.supportedEfforts
           == Unique(StringValues(item, ["supportedReasoningEfforts", "supported_reasoning_levels"]))
        && (model.hidden <==> Get(item, "hidden") == Some(Bool(true)))
  {
    hide FirstText, Unique, StringValues, Get;
    OptionsAgree(model.displayName, FirstText(item, ["displayName", "display_name"]));
    OptionsAgree(model.defaultEffort, FirstText(item, ["defaultReasoningEffort", "default_reasoning_level"]));
  }

  lemma OptionsAgree(a: Option<string>, b: Option<string>)
    ensures a == b <==> forall text :: a == Some(text) <==> b == Some(text)
  {
    if a.Some? {
      assert a == Some(a.value);
    }
    if b.Some? {
      assert b == Some(b.value);
    }
  }

  // An effort is given as a string, or as an object that says it under one of three keys.
  lemma EffortNameIs(item: Json, effort: string)
    ensures EffortName(item) == Some(effort) <==>
              item == Str(effort) || SaysFirst(item, ["reasoningEffort", "reasoning_effort", "effort"], effort)
  {
    FirstTextIs(item, ["reasoningEffort", "reasoning_effort", "effort"], effort);
    hide FirstText;
  }

  // A list's efforts, and a page's models, are those of its items in order; items that
  // give none are passed over.
  lemma OneMoreItem(items: seq<Json>, item: Json)
    ensures EffortNames(items + [item])
         == EffortNames(items) + match EffortName(item) case Some(effort) => [effort] case None => []
    ensures ModelsOf(items + [item])
         == ModelsOf(items) + match ModelOf(item) case Some(model) => [model] case None => []
  {
    hide EffortName, ModelOf;
    assert (items + [item])[..|items|] == items;
  }

  // ---------- What is kept ----------

  lemma {:induction false} FirstOfEachIdKeeps(models: seq<Model>)
    ensures forall model :: model in FirstOfEachId(models) ==> model in models
    ensures forall id :: HasId(FirstOfEachId(models), id) <==> HasId(models, id)
    ensures forall j, k :: 0 <= j < k < |FirstOfEachId(models)| ==>
              FirstOfEachId(models)[j].id != FirstOfEachId(models)[k].id
    decreases |models|
  {
    if models != [] {
      var front, last := models[..|models| - 1], models[|models| - 1];
      FirstOfEachIdKeeps(front);
      assert models == front + [last];
      HasIdOfAppend(front, last);
      HasIdOfAppend(FirstOfEachId(front), last);
    }
  }

  // Of the models of one id the one that came first is kept.
  lemma {:induction false} FirstIsKept(models: seq<Model>, model: Model)
    ensures model in FirstOfEachId(models) <==>
              exists k :: 0 <= k < |models| && models[k] == model && !HasId(models[..k], model.id)
    decreases |models|
  {
    if models != [] {
      var front, last := models[..|models| - 1], models[|models| - 1];
      FirstIsKept(front, model);
      FirstOfEachIdKeeps(front);
      assert forall k :: 0 <= k <= |front| ==> models[..k] == front[..k];
      assert forall k :: 0 <= k < |front| ==> models[k] == front[k];
      assert front[..|front|] == front;
      assert HasId(FirstOfEachId(front), last.id) <==> HasId(models[..|front|], last.id);
    }
  }

  lemma {:induction false} EffortsOfMembers(models: seq<Model>, effort: string)
    ensures effort in EffortsOf(models) <==> exists model :: model in models && effort in model.supportedEfforts
    decreases |models|
  {
    if models != [] {
      var front, last := models[..|models| - 1], models[|models| - 1];
      EffortsOfMembers(front, effort);
      assert models == front + [last];
      assert forall model :: model in models <==> model in front || model == last;
    }
  }

  lemma {:induction false} EffortsAreNamed(items: seq<Json>)
    ensures forall model :: model in ModelsOf(items) ==> "" !in model.supportedEfforts && model.id != ""
    decreases |items|
  {
    if items != [] {
      EffortsAreNamed(items[..|items| - 1]);
      UniqueMembers(StringValues(items[|items| - 1], ["supportedReasoningEfforts", "supported_reasoning_levels"]));
    }
  }

  // The models are the first of each id. The efforts are those of every model read, so
  // they contain the efforts of every model kept.
  lemma WhatAProbeHolds(items: seq<Json>)
    ensures forall id :: HasId(Whole(items).models, id) <==> HasId(ModelsOf(items), id)
    ensures forall effort :: effort in Whole(items).efforts <==>
              exists model :: model in ModelsOf(items) && effort in model.supportedEfforts
    ensures forall model, effort :: model in Whole(items).models && effort in model.supportedEfforts ==>
              effort in Whole(items).efforts
  {
    var models := ModelsOf(items);
    FirstOfEachIdKeeps(models);
    UniqueMembers(EffortsOf(models));
    EffortsAreNamed(items);
    forall effort
      ensures effort in EffortsOf(models) <==> exists model :: model in models && effort in model.supportedEfforts
    {
      EffortsOfMembers(models, effort);
    }
  }
}
