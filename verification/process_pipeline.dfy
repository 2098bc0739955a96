/** The process pipeline: construction validates a configuration against the
    registered inputs ahead of time, and `run` executes the configured steps.

    Construction checks its keyword arguments, creates the result store,
    registers the inputs, checks the configuration has `Inputs` and
    `PipelineSteps`, checks the declared inputs against the store, and folds
    over the steps on a copy of the store: each step's inputs must already be
    available and its deliverables, registered as placeholders, must be new.
    `run` instantiates each step's class from a registry and executes it.

    Reading and parsing the YAML file is outside the model: the parsed
    document is a parameter, as is the `pedantic_input_checking` setting. */
module ProcessPipeline {
  import opened Errors
  import opened Values
  import opened DataManager
  import opened SerialisableInputs
  import opened ProcessStep

  const Required: RequiredSchema := [("config_path", PathType), ("output_dir", PathType), ("inputs", DictType)]

  /** The default of `framework_config` is a `FrameworkConfig`, not a `dict`. */
  const Optional: OptionalSchema :=
    [("data_manager_type", StrType, StrValue("native")), ("framework_config", DictType, FrameworkSettings(true))]

  /** The names in the `data_managers` registry. */
  const DataManagerKinds: set<string> := {"native"}

  const ConfigKeys: set<string> := {"Inputs", "PipelineSteps"}
  const StepKeys: set<string> := {"DisplayId", "ProcessStep", "Deliverables"}

  datatype Pipeline = Pipeline(attrs: Attrs, dm: DataManager, config: seq<(string, Node)>, steps: seq<Node>)

  // ---------------------------------------------------------------- the configuration

  /** The key check of `_load_config` on the parsed document: `keys()` of a
      non-mapping raises `AttributeError`, a missing key `ValueError`. */
  function CheckConfig(config: Node): (r: Result<seq<(string, Node)>>)
    ensures r.Ok? <==> config.NDict? && ConfigKeys <= Keys(config.entries)
    ensures r.Ok? ==> r.value == config.entries
    ensures !config.NDict? ==> r == Err(ConfigNotMapping) && ClassOf(r.error) == AttributeError
    ensures config.NDict? && r.Err? ==>
      r.error == MissingConfigKeys(ConfigKeys - Keys(config.entries)) && ClassOf(r.error) == ValueError
  {
    if !config.NDict? then Err(ConfigNotMapping)
    else if ConfigKeys - Keys(config.entries) != {} then Err(MissingConfigKeys(ConfigKeys - Keys(config.entries)))
    else
      EmptyDifference(ConfigKeys, Keys(config.entries));
      Ok(config.entries)
  }

  /** `if missing:` on a set difference. */
  lemma EmptyDifference<T>(a: set<T>, b: set<T>)
    ensures a - b == {} <==> a <= b
  {
    if a - b == {} {
      forall x | x in a
        ensures x in b
      {
        assert x !in a - b;
      }
    }
  }

  /** The keys a sequence of YAML values denotes. */
  function KeysOf(items: seq<Node>): (ks: set<Key>)
    ensures forall k :: k in ks <==> exists i | 0 <= i < |items| :: KeyOf(items[i]) == k
  {
    set i | 0 <= i < |items| :: KeyOf(items[i])
  }

  /** Every value names a stored id; an unhashable one raises `TypeError`. */
  function CheckAllStored(items: seq<Node>, dm: DataManager, from: nat, missing: Error): (r: Result<()>)
    requires from <= |items|
    ensures r.Ok? <==> forall i | from <= i < |items| :: !KeyOf(items[i]).KUnhashable? && KeyOf(items[i]) in dm.results
    ensures r.Err? ==> r.error == missing || r.error == Unhashable
    decreases |items| - from
  {
    if from == |items| then Ok(())
    else
      match Contains(dm, KeyOf(items[from]))
      case Err(e) => Err(e)
      case Ok(present) => if !present then Err(missing) else CheckAllStored(items, dm, from + 1, missing)
  }

  /** `_validate_inputs`: `Inputs` must be a list; every declared input must be
      stored; a stored input that is not declared raises only when checking is
      pedantic, and otherwise is only warned about. */
  function ValidateInputs(config: seq<(string, Node)>, dm: DataManager, pedantic: bool): (r: Result<()>)
    requires "Inputs" in Keys(config)
    ensures r.Ok? <==>
      var declared := Lookup(config, "Inputs");
      && declared.NList?
      && (forall i | 0 <= i < |declared.items| ::
            !KeyOf(declared.items[i]).KUnhashable? && KeyOf(declared.items[i]) in dm.results)
      && (pedantic ==> dm.results.Keys <= KeysOf(declared.items))
    ensures r.Err? ==> ClassOf(r.error) == ValueError || r.error == Unhashable
  {
    var declared := Lookup(config, "Inputs");
    if !declared.NList? then Err(InputsNotList)
    else
      var _ :- CheckAllStored(declared.items, dm, 0, InputNotRegistered);
      var extra := dm.results.Keys - KeysOf(declared.items);
      if extra != {} && pedantic then Err(UndeclaredInputs)
      else
        EmptyDifference(dm.results.Keys, KeysOf(declared.items));
        Ok(())
  }

  /** With pedantic checking, the declared inputs are exactly the stored ones. */
  lemma PedanticInputsExact(config: seq<(string, Node)>, dm: DataManager)
    requires "Inputs" in Keys(config)
    requires ValidateInputs(config, dm, true).Ok?
    ensures KeysOf(Lookup(config, "Inputs").items) == dm.results.Keys
  {
  }

  // ---------------------------------------------------------------- the steps

  /** `{k: None for k in values}` keeps the first of equal keys. */
  function Dedup(ks: seq<Key>): (d: seq<Key>)
    ensures forall i, j | 0 <= i < j < |d| :: d[i] != d[j]
    ensures forall k :: k in d <==> k in ks
  {
    if ks == [] then []
    else
      var d := Dedup(ks[..|ks| - 1]);
      assert forall k :: k in ks <==> k in ks[..|ks| - 1] || k == ks[|ks| - 1];
      if ks[|ks| - 1] in d then d else d + [ks[|ks| - 1]]
  }

  /** The placeholder entries `dm_copy.register` receives. */
  function Placeholders(ks: seq<Key>): (entries: seq<(Key, Value)>)
    ensures |entries| == |ks|
    ensures forall i | 0 <= i < |ks| :: entries[i] == (ks[i], NoneValue)
  {
    seq(|ks|, i requires 0 <= i < |ks| => (ks[i], NoneValue))
  }

  /** The ids a step's deliverables mapping names. */
  function DeliverableIds(values: seq<Node>): (ks: seq<Key>)
    ensures |ks| == |values|
    ensures forall i | 0 <= i < |values| :: ks[i] == KeyOf(values[i])
  {
    seq(|values|, i requires 0 <= i < |values| => KeyOf(values[i]))
  }

  /** The `try` around registering a step's deliverables on the copy: any
      exception inside it, from an unhashable or non-string id or an id
      already defined, becomes `ValueError`. */
  function RegisterDeliverables(values: seq<Node>, n: nat, dm: DataManager): (r: Result<DataManager>)
    ensures r.Ok? <==> FreshIds(values, dm.results.Keys)
    ensures r.Err? ==> r.error == DeliverableAlreadyDefined(n)
    ensures r.Ok? ==> r.value.results.Keys == dm.results.Keys + KeysOf(values)
  {
    var ids := DeliverableIds(values);
    if exists i | 0 <= i < |values| :: ids[i].KUnhashable? then Err(DeliverableAlreadyDefined(n))
    else
      DeliverablesOutcome(dm, values);
      match Register(dm, IdDict(Placeholders(Dedup(ids))), NoneValue)
      case Raised(_, _) => Err(DeliverableAlreadyDefined(n))
      case Returned(s) => Ok(s)
  }

  /** The keys of the placeholder entries are the ids, each once. */
  lemma PlaceholderKeys(ids: seq<Key>)
    ensures var e := Placeholders(Dedup(ids));
      && (forall i, j | 0 <= i < j < |e| :: e[i].0 != e[j].0)
      && (forall k :: k in ids <==> exists j | 0 <= j < |e| :: e[j].0 == k)
  {
    var d := Dedup(ids);
    var e := Placeholders(d);
    forall k
      ensures k in ids <==> exists j | 0 <= j < |e| :: e[j].0 == k
    {
      if k in ids {
        var j :| 0 <= j < |d| && d[j] == k;
        assert e[j].0 == k;
      }
    }
  }

  /** Every deliverable id is a string not stored yet. */
  predicate FreshIds(values: seq<Node>, avail: set<Key>)
  {
    forall i | 0 <= i < |values| :: KeyOf(values[i]).KStr? && KeyOf(values[i]) !in avail
  }

  /** Registering the placeholders returns exactly when every id is a string
      not stored yet, and then adds exactly the ids. */
  lemma DeliverablesOutcome(dm: DataManager, values: seq<Node>)
    ensures var r := Register(dm, IdDict(Placeholders(Dedup(DeliverableIds(values)))), NoneValue);
      && (r.Returned? <==> FreshIds(values, dm.results.Keys))
      && (r.Returned? ==> r.state.results.Keys == dm.results.Keys + KeysOf(values))
  {
    var ids := DeliverableIds(values);
    var e := Placeholders(Dedup(ids));
    PlaceholderKeys(ids);
    if !AllStringKeys(e) {
      NonStringDeliverable(values, e);
    } else if FreshIds(values, dm.results.Keys) {
      FreshDeliverables(dm, values, e);
    } else {
      StaleDeliverable(dm, values, e);
    }
  }

  lemma NonStringDeliverable(values: seq<Node>, e: seq<(Key, Value)>)
    requires forall k :: k in DeliverableIds(values) <==> exists j | 0 <= j < |e| :: e[j].0 == k
    requires !AllStringKeys(e)
    ensures exists i | 0 <= i < |values| :: !KeyOf(values[i]).KStr?
  {
    var ids := DeliverableIds(values);
    var j :| 0 <= j < |e| && !e[j].0.KStr?;
    assert e[j].0 in ids;
    var i :| 0 <= i < |ids| && ids[i] == e[j].0;
    assert !KeyOf(values[i]).KStr?;
  }

  lemma StaleDeliverable(dm: DataManager, values: seq<Node>, e: seq<(Key, Value)>)
    requires forall k :: k in DeliverableIds(values) <==> exists j | 0 <= j < |e| :: e[j].0 == k
    requires forall i, j | 0 <= i < j < |e| :: e[i].0 != e[j].0
    requires AllStringKeys(e) && !FreshIds(values, dm.results.Keys)
    ensures RegisterBulk(dm, e).Raised?
  {
    var ids := DeliverableIds(values);
    var i :| 0 <= i < |values| && !(KeyOf(values[i]).KStr? && KeyOf(values[i]) !in dm.results);
    assert ids[i] in ids;
    var j :| 0 <= j < |e| && e[j].0 == ids[i];
    assert e[j].0 in dm.results;
    DistinctBulkOutcome(dm, e);
  }

  lemma FreshDeliverables(dm: DataManager, values: seq<Node>, e: seq<(Key, Value)>)
    requires e == Placeholders(Dedup(DeliverableIds(values)))
    requires forall k :: k in DeliverableIds(values) <==> exists j | 0 <= j < |e| :: e[j].0 == k
    requires forall i, j | 0 <= i < j < |e| :: e[i].0 != e[j].0
    requires AllStringKeys(e) && FreshIds(values, dm.results.Keys)
    ensures RegisterBulk(dm, e).Returned?
    ensures RegisterBulk(dm, e).state.results.Keys == dm.results.Keys + KeysOf(values)
  {
    var ids := DeliverableIds(values);
    forall j | 0 <= j < |e|
      ensures e[j].0 !in dm.results
    {
      assert e[j].0 in ids;
      var i :| 0 <= i < |ids| && ids[i] == e[j].0;
      assert KeyOf(values[i]) == e[j].0;
    }
    DistinctBulkOutcome(dm, e);
    BulkKeys(dm, values, e);
  }

  /** The ids added by a returning bulk registration of the placeholders. */
  lemma BulkKeys(dm: DataManager, values: seq<Node>, e: seq<(Key, Value)>)
    requires e == Placeholders(Dedup(DeliverableIds(values)))
    requires forall k :: k in DeliverableIds(values) <==> exists j | 0 <= j < |e| :: e[j].0 == k
    requires RegisterBulk(dm, e).Returned?
    requires forall k :: k in RegisterBulk(dm, e).state.results <==> k in dm.results || exists j | 0 <= j < |e| :: e[j].0 == k
    ensures RegisterBulk(dm, e).state.results.Keys == dm.results.Keys + KeysOf(values)
  {
    var ids := DeliverableIds(values);
    forall k
      ensures k in KeysOf(values) <==> k in ids
    {
      if k in KeysOf(values) {
        var i :| 0 <= i < |values| && KeyOf(values[i]) == k;
        assert ids[i] == k;
      }
    }
  }

  /** A step's `Inputs` mapping: every id it names must be stored. */
  function CheckStepInputs(inputs: Node, n: nat, dm: DataManager): (r: Result<()>)
    ensures r.Ok? <==> inputs.NDict? && StoredAll(DictValues(inputs.entries), dm.results.Keys)
    ensures r.Err? ==> ClassOf(r.error) == ValueError || r.error == Unhashable
  {
    if !inputs.NDict? then Err(StepInputsNotDict(n))
    else CheckAllStored(DictValues(inputs.entries), dm, 0, StepInputUnavailable(n))
  }

  /** Every value names a hashable id in `avail`. */
  predicate StoredAll(items: seq<Node>, avail: set<Key>)
  {
    forall i | 0 <= i < |items| :: !KeyOf(items[i]).KUnhashable? && KeyOf(items[i]) in avail
  }

  /** The ids of the `Deliverables` mapping of a well-shaped step. */
  function Delivered(step: Node): set<Key>
  {
    if step.NDict? && "Deliverables" in Keys(step.entries) && Lookup(step.entries, "Deliverables").NDict?
    then KeysOf(DictValues(Lookup(step.entries, "Deliverables").entries))
    else {}
  }

  /** A step delivers exactly the ids of the `Deliverables` entries no later
      entry with the same name overwrites, as the parsed dictionary holds them. */
  lemma DeliveredMeans(step: Node, k: Key)
    requires step.NDict? && "Deliverables" in Keys(step.entries) && Lookup(step.entries, "Deliverables").NDict?
    ensures var ds := Lookup(step.entries, "Deliverables").entries;
      k in Delivered(step) <==> exists i | 0 <= i < |ds| :: LastWith(ds, ds[i].0, i) && KeyOf(ds[i].1) == k
  {
    var ds := Lookup(step.entries, "Deliverables").entries;
    var vs := DictValues(ds);
    if k in Delivered(step) {
      var j :| 0 <= j < |vs| && KeyOf(vs[j]) == k;
      DictValuesMeans(ds, vs[j]);
    }
    if exists i | 0 <= i < |ds| :: LastWith(ds, ds[i].0, i) && KeyOf(ds[i].1) == k {
      var i :| 0 <= i < |ds| && LastWith(ds, ds[i].0, i) && KeyOf(ds[i].1) == k;
      DictValuesMeans(ds, ds[i].1);
      var j :| 0 <= j < |vs| && vs[j] == ds[i].1;
    }
  }

  /** What validating one step demands, with `avail` the ids stored so far: a
      mapping with the three required keys, an `Inputs` mapping (if any) whose
      ids are all available, and a `Deliverables` mapping whose ids are strings
      none of which is available yet. */
  predicate StepValid(step: Node, avail: set<Key>)
  {
    && step.NDict?
    && StepKeys <= Keys(step.entries)
    && ("Inputs" in Keys(step.entries) ==>
          && Lookup(step.entries, "Inputs").NDict?
          && StoredAll(DictValues(Lookup(step.entries, "Inputs").entries), avail))
    && Lookup(step.entries, "Deliverables").NDict?
    && FreshIds(DictValues(Lookup(step.entries, "Deliverables").entries), avail)
  }

  /** One iteration of the loop of `_validate_pipeline_steps`, step number `n`. */
  function CheckStep(step: Node, n: nat, dm: DataManager): (r: Result<DataManager>)
    ensures r.Ok? <==> StepValid(step, dm.results.Keys)
    ensures r.Ok? ==> r.value.results.Keys == dm.results.Keys + Delivered(step)
    ensures r.Err? ==> ClassOf(r.error) == ValueError || r.error == Unhashable
  {
    if !step.NDict? then Err(StepNotDict(n))
    else if StepKeys - Keys(step.entries) != {} then Err(StepMissingKeys(n, StepKeys - Keys(step.entries)))
    else
      EmptyDifference(StepKeys, Keys(step.entries));
      assert "Deliverables" in StepKeys;
      var _ :- if "Inputs" in Keys(step.entries) then CheckStepInputs(Lookup(step.entries, "Inputs"), n, dm) else Ok(());
      var deliverables := Lookup(step.entries, "Deliverables");
      if !deliverables.NDict? then Err(StepDeliverablesNotDict(n))
      else RegisterDeliverables(DictValues(deliverables.entries), n, dm)
  }

  /** The loop from step `from` on (numbered from 1) over the copy `dm`. */
  function ValidateSteps(steps: seq<Node>, dm: DataManager, from: nat): (r: Result<DataManager>)
    requires from <= |steps|
    ensures r.Err? ==> ClassOf(r.error) == ValueError || r.error == Unhashable
    ensures r.Ok? ==> dm.results.Keys <= r.value.results.Keys
    decreases |steps| - from
  {
    if from == |steps| then Ok(dm)
    else
      var next :- CheckStep(steps[from], from + 1, dm);
      ValidateSteps(steps, next, from + 1)
  }

  /** The ids available before step `i`: the registered ids and every id
      delivered by an earlier step. */
  function Available(initial: set<Key>, steps: seq<Node>, i: nat): (avail: set<Key>)
    requires i <= |steps|
    ensures initial <= avail
  {
    if i == 0 then initial else Available(initial, steps, i - 1) + Delivered(steps[i - 1])
  }

  /** Some step before step `i` delivers `k`. */
  predicate DeliveredBefore(steps: seq<Node>, i: nat, k: Key)
    requires i <= |steps|
  {
    exists j | 0 <= j < i :: k in Delivered(steps[j])
  }

  /** An id is available before step `i` exactly when it is registered or
      delivered by an earlier step. */
  lemma {:induction false} AvailableMeans(initial: set<Key>, steps: seq<Node>, i: nat, k: Key)
    requires i <= |steps|
    ensures k in Available(initial, steps, i) <==> k in initial || DeliveredBefore(steps, i, k)
  {
    if i > 0 {
      AvailableMeans(initial, steps, i - 1, k);
      DeliveredBeforeStep(steps, i, k);
    }
  }

  lemma DeliveredBeforeStep(steps: seq<Node>, i: nat, k: Key)
    requires 0 < i <= |steps|
    ensures DeliveredBefore(steps, i, k) <==> DeliveredBefore(steps, i - 1, k) || k in Delivered(steps[i - 1])
  {
    if DeliveredBefore(steps, i, k) {
      var j :| 0 <= j < i && k in Delivered(steps[j]);
      if j < i - 1 {
        assert DeliveredBefore(steps, i - 1, k);
      }
    }
  }

  /** Every step from `from` on is valid against the ids available before it. */
  predicate AllValid(initial: set<Key>, steps: seq<Node>, from: nat)
    requires from <= |steps|
  {
    forall i | from <= i < |steps| :: StepValid(steps[i], Available(initial, steps, i))
  }

  /** The fold succeeds exactly when every step is valid against the ids
      available before it, and the copy then holds every available id. */
  lemma {:induction false} ValidateStepsSpec(steps: seq<Node>, dm: DataManager, from: nat, initial: set<Key>)
    requires from <= |steps| && dm.results.Keys == Available(initial, steps, from)
    ensures ValidateSteps(steps, dm, from).Ok? <==> AllValid(initial, steps, from)
    ensures ValidateSteps(steps, dm, from).Ok? ==>
      ValidateSteps(steps, dm, from).value.results.Keys == Available(initial, steps, |steps|)
    decreases |steps| - from
  {
    if from < |steps| {
      var r := CheckStep(steps[from], from + 1, dm);
      AllValidSplit(steps, initial, from);
      if r.Ok? {
        StepPasses(steps, dm, from, initial);
        ValidateStepsSpec(steps, r.value, from + 1, initial);
      } else {
        StepFails(steps, dm, from, initial);
      }
    }
  }

  /** A step that passes extends the available ids by its deliverables, and
      the fold goes on from the extended copy. */
  lemma StepPasses(steps: seq<Node>, dm: DataManager, from: nat, initial: set<Key>)
    requires from < |steps| && dm.results.Keys == Available(initial, steps, from)
    requires CheckStep(steps[from], from + 1, dm).Ok?
    ensures StepValid(steps[from], Available(initial, steps, from))
    ensures CheckStep(steps[from], from + 1, dm).value.results.Keys == Available(initial, steps, from + 1)
    ensures ValidateSteps(steps, dm, from) == ValidateSteps(steps, CheckStep(steps[from], from + 1, dm).value, from + 1)
  {
  }

  /** A step that fails ends the fold with its error. */
  lemma StepFails(steps: seq<Node>, dm: DataManager, from: nat, initial: set<Key>)
    requires from < |steps| && dm.results.Keys == Available(initial, steps, from)
    requires CheckStep(steps[from], from + 1, dm).Err?
    ensures !StepValid(steps[from], Available(initial, steps, from))
    ensures ValidateSteps(steps, dm, from).Err?
  {
  }

  /** The validity of the steps from `from` on, split at `from`. */
  lemma AllValidSplit(steps: seq<Node>, initial: set<Key>, from: nat)
    requires from < |steps|
    ensures AllValid(initial, steps, from) <==>
      StepValid(steps[from], Available(initial, steps, from)) && AllValid(initial, steps, from + 1)
  {
  }

  /** `_validate_pipeline_steps`: `PipelineSteps` must be a list and pass the
      fold; the list is returned unchanged, and the store is not touched. */
  function ValidatePipelineSteps(config: seq<(string, Node)>, dm: DataManager): (r: Result<seq<Node>>)
    requires "PipelineSteps" in Keys(config)
    ensures r.Ok? <==>
      && Lookup(config, "PipelineSteps").NList?
      && ValidateSteps(Lookup(config, "PipelineSteps").items, dm, 0).Ok?
    ensures r.Ok? ==> r.value == Lookup(config, "PipelineSteps").items
  {
    var steps := Lookup(config, "PipelineSteps");
    if !steps.NList? then Err(StepsNotList)
    else
      var _ :- ValidateSteps(steps.items, dm, 0);
      Ok(steps.items)
  }

  /** Validation accepts a step list exactly when each step reads only ids that
      are registered inputs or deliverables of strictly earlier steps, and
      delivers only string ids that are neither registered inputs nor
      delivered by an earlier step: every id is defined once, before use. */
  lemma ValidatedDataflow(config: seq<(string, Node)>, dm: DataManager)
    requires "PipelineSteps" in Keys(config) && Lookup(config, "PipelineSteps").NList?
    ensures var steps := Lookup(config, "PipelineSteps").items;
      ValidatePipelineSteps(config, dm).Ok? <==>
        forall i | 0 <= i < |steps| :: StepValid(steps[i], Available(dm.results.Keys, steps, i))
    ensures var steps := Lookup(config, "PipelineSteps").items;
      ValidatePipelineSteps(config, dm).Ok? ==>
        forall i, j, k | 0 <= j < i < |steps| && k in Delivered(steps[j]) ::
          k !in dm.results && k !in Delivered(steps[i])
  {
    var steps := Lookup(config, "PipelineSteps").items;
    ValidateStepsSpec(steps, dm, 0, dm.results.Keys);
    if ValidatePipelineSteps(config, dm).Ok? {
      forall i, j, k | 0 <= j < i < |steps| && k in Delivered(steps[j])
        ensures k !in dm.results && k !in Delivered(steps[i])
      {
        AvailableMeans(dm.results.Keys, steps, i, k);
        AvailableMeans(dm.results.Keys, steps, j, k);
        DeliveredFresh(steps[i], Available(dm.results.Keys, steps, i), k);
        DeliveredFresh(steps[j], Available(dm.results.Keys, steps, j), k);
      }
    }
  }

  /** A valid step delivers only ids not available before it. */
  lemma DeliveredFresh(step: Node, avail: set<Key>, k: Key)
    requires StepValid(step, avail)
    ensures k in Delivered(step) ==> k !in avail
  {
    if k in Delivered(step) {
      var ds := DictValues(Lookup(step.entries, "Deliverables").entries);
      var i :| 0 <= i < |ds| && KeyOf(ds[i]) == k;
    }
  }

  // ---------------------------------------------------------------- construction

  /** What `on_init` reads of the attributes `__init__` set. */
  predicate AttrsShape(attrs: Attrs)
  {
    && "inputs" in attrs && attrs["inputs"].DictValue?
    && "data_manager_type" in attrs && attrs["data_manager_type"].StrValue?
  }

  /** `on_init`. Whether the configuration path exists and the parsed
      document (`None` when the file is not valid YAML) are parameters, as is
      the pedantic setting. Validation runs on a copy, so the pipeline keeps
      the store holding exactly the registered inputs. */
  function OnInit(attrs: Attrs, configExists: bool, document: Option<Node>, pedantic: bool): (r: Result<Pipeline>)
    requires AttrsShape(attrs)
    ensures !configExists ==> r == Err(ConfigFileNotFound) && ClassOf(r.error) == FileNotFoundError
    ensures configExists && attrs["data_manager_type"].s !in DataManagerKinds ==>
      r == Err(UnknownDataManager(attrs["data_manager_type"].s)) && ClassOf(r.error) == ValueError
    ensures var reg := Register(Empty, IdDict(attrs["inputs"].entries), NoneValue);
      configExists && attrs["data_manager_type"].s in DataManagerKinds && reg.Raised? ==> r == Err(reg.error)
    ensures var reg := Register(Empty, IdDict(attrs["inputs"].entries), NoneValue);
      configExists && attrs["data_manager_type"].s in DataManagerKinds && reg.Returned? && document.None? ==>
        r == Err(InvalidYaml) && ClassOf(r.error) == ValueError
    ensures var reg := Register(Empty, IdDict(attrs["inputs"].entries), NoneValue);
      configExists && attrs["data_manager_type"].s in DataManagerKinds && reg.Returned? && document.Some? ==>
        var config := CheckConfig(document.value);
        && (config.Err? ==> r == Err(config.error))
        && (config.Ok? && ValidateInputs(config.value, reg.state, pedantic).Err? ==>
              r == Err(ValidateInputs(config.value, reg.state, pedantic).error))
        && (config.Ok? && ValidateInputs(config.value, reg.state, pedantic).Ok? ==>
              (r.Ok? <==> ValidatePipelineSteps(config.value, reg.state).Ok?))
    ensures r.Ok? ==>
      && configExists && document.Some?
      && r.value.attrs == attrs
      && Register(Empty, IdDict(attrs["inputs"].entries), NoneValue) == Returned(r.value.dm)
      && CheckConfig(document.value) == Ok(r.value.config)
      && ValidateInputs(r.value.config, r.value.dm, pedantic).Ok?
      && ValidatePipelineSteps(r.value.config, r.value.dm) == Ok(r.value.steps)
  {
    var kind := attrs["data_manager_type"].s;
    if !configExists then Err(ConfigFileNotFound)
    else if kind !in DataManagerKinds then Err(UnknownDataManager(kind))
    else
      match Register(Empty, IdDict(attrs["inputs"].entries), NoneValue)
      case Raised(_, e) => Err(e)
      case Returned(dm) =>
        if document.None? then Err(InvalidYaml)
        else
          var config :- CheckConfig(document.value);
          var _ :- ValidateInputs(config, dm, pedantic);
          var steps :- ValidatePipelineSteps(config, dm);
          Ok(Pipeline(attrs, dm, config, steps))
  }

  /** `ProcessPipeline(**kwargs)`: keyword validation, then `on_init`, whose
      outcome is the outcome of construction; `InitShape` shows accepted
      arguments have the shape `on_init` reads. */
  function Construct(kwargs: Attrs, configExists: bool, document: Option<Node>, pedantic: bool): (r: Result<Pipeline>)
    ensures r.Ok? ==> SerialisableInputs.Init(Required, Optional, kwargs) == Ok(r.value.attrs)
    ensures SerialisableInputs.Init(Required, Optional, kwargs).Err? ==> r == Err(SerialisableInputs.Init(Required, Optional, kwargs).error)
    ensures var attrs := SerialisableInputs.Init(Required, Optional, kwargs);
      attrs.Ok? && AttrsShape(attrs.value) ==> r == OnInit(attrs.value, configExists, document, pedantic)
  {
    var attrs :- SerialisableInputs.Init(Required, Optional, kwargs);
    InitShape(kwargs);
    OnInit(attrs, configExists, document, pedantic)
  }

  /** A constructed pipeline holds steps of the shape `run` reads, each valid
      against the ids available before it; with pedantic checking its declared
      inputs are exactly the stored ones. */
  lemma Constructed(kwargs: Attrs, configExists: bool, document: Option<Node>, pedantic: bool)
    requires Construct(kwargs, configExists, document, pedantic).Ok?
    ensures var p := Construct(kwargs, configExists, document, pedantic).value;
      && "Inputs" in Keys(p.config) && "PipelineSteps" in Keys(p.config)
      && (forall i | 0 <= i < |p.steps| :: StepShaped(p.steps[i]))
      && (forall i | 0 <= i < |p.steps| :: StepValid(p.steps[i], Available(p.dm.results.Keys, p.steps, i)))
      && (pedantic ==> KeysOf(Lookup(p.config, "Inputs").items) == p.dm.results.Keys)
  {
    var p := Construct(kwargs, configExists, document, pedantic).value;
    assert "Inputs" in ConfigKeys && "PipelineSteps" in ConfigKeys;
    ValidatedDataflow(p.config, p.dm);
    forall i | 0 <= i < |p.steps|
      ensures StepShaped(p.steps[i])
    {
      ValidShaped(p.steps[i], Available(p.dm.results.Keys, p.steps, i));
    }
    if pedantic {
      PedanticInputsExact(p.config, p.dm);
    }
  }

  /** Accepted keyword arguments give `on_init` what it reads: `inputs` is a
      dictionary, and `data_manager_type` is a string, supplied or defaulted. */
  lemma InitShape(kwargs: Attrs)
    requires SerialisableInputs.Init(Required, Optional, kwargs).Ok?
    ensures AttrsShape(SerialisableInputs.Init(Required, Optional, kwargs).value)
  {
    InputsShape(kwargs);
    KindShape(kwargs);
  }

  /** The required `inputs` is a dictionary. */
  lemma InputsShape(kwargs: Attrs)
    requires SerialisableInputs.Init(Required, Optional, kwargs).Ok?
    ensures var attrs := SerialisableInputs.Init(Required, Optional, kwargs).value;
      "inputs" in attrs && attrs["inputs"].DictValue?
  {
    RequiredKept(Required, Optional, kwargs, 2);
  }

  /** The optional `data_manager_type` is a string, supplied or defaulted. */
  lemma KindShape(kwargs: Attrs)
    requires SerialisableInputs.Init(Required, Optional, kwargs).Ok?
    ensures var attrs := SerialisableInputs.Init(Required, Optional, kwargs).value;
      "data_manager_type" in attrs && attrs["data_manager_type"].StrValue?
  {
    if "data_manager_type" !in kwargs {
      InitDefaults(Required, Optional, kwargs, 0);
    } else {
      OptionalKept(Required, Optional, kwargs, 0);
    }
  }

  /** The `framework_config` default is not an instance of its declared class,
      so the reload round trip cannot be relied on for this class: reloading
      the attributes of a pipeline built with the default raises `TypeError`. */
  lemma FrameworkDefaultMistyped(kwargs: Attrs)
    requires SerialisableInputs.Init(Required, Optional, kwargs).Ok? && "framework_config" !in kwargs
    ensures !DefaultsWellTyped(Optional)
    ensures var attrs := SerialisableInputs.Init(Required, Optional, kwargs).value;
      SerialisableInputs.Init(Required, Optional, attrs).Err?
      && ClassOf(SerialisableInputs.Init(Required, Optional, attrs).error) == TypeError
  {
    var attrs := SerialisableInputs.Init(Required, Optional, kwargs).value;
    DefaultMistyped(kwargs);
    RequiredStillPass(kwargs);
    MistypedOptionalRaises(Required, Optional, attrs, 1);
  }

  /** The constructed attributes hold the `framework_config` default, which
      fails its class check. */
  lemma DefaultMistyped(kwargs: Attrs)
    requires SerialisableInputs.Init(Required, Optional, kwargs).Ok? && "framework_config" !in kwargs
    ensures !DefaultsWellTyped(Optional)
    ensures OptionalFails(Optional, SerialisableInputs.Init(Required, Optional, kwargs).value, 1)
  {
    var attrs := SerialisableInputs.Init(Required, Optional, kwargs).value;
    InitDefaults(Required, Optional, kwargs, 1);
    assert Optional[1].1 == DictType && Optional[1].2 == FrameworkSettings(true);
    assert Optional[1].0 in attrs && attrs[Optional[1].0] == FrameworkSettings(true);
    assert !IsInstance(FrameworkSettings(true), DictType);
  }

  /** The constructed attributes pass every required check again. */
  lemma RequiredStillPass(kwargs: Attrs)
    requires SerialisableInputs.Init(Required, Optional, kwargs).Ok?
    ensures forall j | 0 <= j < |Required| ::
      !RequiredFails(Required, SerialisableInputs.Init(Required, Optional, kwargs).value, j)
  {
    forall j | 0 <= j < |Required|
      ensures !RequiredFails(Required, SerialisableInputs.Init(Required, Optional, kwargs).value, j)
    {
      RequiredKept(Required, Optional, kwargs, j);
    }
  }

  // ---------------------------------------------------------------- running

  /** What `run` reads of a validated step: a mapping with the three required
      keys whose `Inputs`, if present, is a mapping. */
  predicate StepShaped(step: Node)
  {
    && step.NDict?
    && StepKeys <= Keys(step.entries)
    && ("Inputs" in Keys(step.entries) ==> Lookup(step.entries, "Inputs").NDict?)
  }

  /** Every step from `from` on has the shape `run` reads. */
  predicate AllShaped(steps: seq<Node>, from: nat)
  {
    forall i | from <= i < |steps| :: StepShaped(steps[i])
  }

  /** A valid step has the shape `run` reads. */
  lemma ValidShaped(step: Node, avail: set<Key>)
    requires StepValid(step, avail)
    ensures StepShaped(step)
  {
  }

  /** The step-class registry `process_steps`. */
  type Registry = map<string, StepClass>

  /** The class a step names: an unhashable name raises `TypeError`, an
      unknown one `ValueError` with the step's number. */
  function ClassFor(step: Node, n: nat, classes: Registry): (r: Result<StepClass>)
    requires StepShaped(step)
    ensures r.Ok? <==> KeyOf(Lookup(step.entries, "ProcessStep")).KStr?
                       && KeyOf(Lookup(step.entries, "ProcessStep")).s in classes
    ensures r.Ok? ==> r.value == classes[KeyOf(Lookup(step.entries, "ProcessStep")).s]
    ensures r.Err? && !KeyOf(Lookup(step.entries, "ProcessStep")).KUnhashable? ==> r.error == UnknownProcessStep(n)
  {
    var name := KeyOf(Lookup(step.entries, "ProcessStep"));
    if name.KUnhashable? then Err(Unhashable)
    else if !name.KStr? || name.s !in classes then Err(UnknownProcessStep(n))
    else Ok(classes[name.s])
  }

  /** The inputs mapping a step is constructed with: `inputs or {}`. */
  function ProvidedInputs(step: Node): seq<(string, Node)>
    requires StepShaped(step)
  {
    if "Inputs" in Keys(step.entries) then Lookup(step.entries, "Inputs").entries else []
  }

  function StepOptions(step: Node): Option<Node>
    requires step.NDict?
  {
    if "Options" in Keys(step.entries) then Some(Lookup(step.entries, "Options")) else None
  }

  /** `process_class(**kwargs)` followed by `execute()`: the store after the
      call, and the exception raised, if any. */
  function ConstructAndExecute(cls: StepClass, dm: DataManager, provided: seq<(string, Node)>, options: Option<Node>)
    : (r: Raises<DataManager>)
    ensures ProcessStep.Init(cls, dm, provided, options).Err? ==>
      r == Raised(dm, ProcessStep.Init(cls, dm, provided, options).error)
    ensures r.Returned? && Distinct(cls.deliverables) ==>
      && (forall k | k in dm.results :: k in r.state.results && r.state.results[k] == dm.results[k])
      && (forall i | 0 <= i < |cls.deliverables| :: KStr(cls.deliverables[i].0) in r.state.results)
  {
    match ProcessStep.Init(cls, dm, provided, options)
    case Err(e) => Raised(dm, e)
    case Ok(s) =>
      if Distinct(cls.deliverables) then
        ExecuteOutcome(cls, s);
        ProcessStep.Execute(cls, s)
      else ProcessStep.Execute(cls, s)
  }

  /** How `run` instantiates and executes one step class: `ConstructAndExecute`
      in the program, any function in the lemmas about the loop. */
  type Instantiate = (StepClass, DataManager, seq<(string, Node)>, Option<Node>) -> Raises<DataManager>

  /** One iteration of `run`: look the class up, then construct and execute. */
  function RunStep(step: Node, n: nat, classes: Registry, exec: Instantiate, dm: DataManager): (r: Raises<DataManager>)
    requires StepShaped(step)
    ensures ClassFor(step, n, classes).Err? ==> r == Raised(dm, ClassFor(step, n, classes).error)
    ensures ClassFor(step, n, classes).Ok? ==>
      r == exec(ClassFor(step, n, classes).value, dm, ProvidedInputs(step), StepOptions(step))
    ensures ClassFor(step, n, classes).Err? ==>
      r.Raised? && r.state == dm && ClassOf(r.error) in {TypeError, ValueError}
  {
    match ClassFor(step, n, classes)
    case Err(e) => Raised(dm, e)
    case Ok(cls) => exec(cls, dm, ProvidedInputs(step), StepOptions(step))
  }

  /** One step of `run` once its class has been looked up: the store before
      it to the store after it, or the exception it raises. */
  type Turn = DataManager -> Raises<DataManager>

  /** The turns of `run`, one per step, in list order. */
  function Turns(steps: seq<Node>, classes: Registry, exec: Instantiate): (ts: seq<Turn>)
    requires AllShaped(steps, 0)
    ensures |ts| == |steps|
    ensures forall i, dm | 0 <= i < |steps| :: ts[i](dm) == RunStep(steps[i], i + 1, classes, exec, dm)
  {
    seq(|steps|, i requires 0 <= i < |steps| => (dm => RunStep(steps[i], i + 1, classes, exec, dm)))
  }

  /** The loop of `run` from turn `from` on. An exception ends the run; the
      store keeps whatever the turns before it registered. */
  function RunFrom(ts: seq<Turn>, dm: DataManager, from: nat): Raises<DataManager>
    requires from <= |ts|
    decreases |ts| - from
  {
    if from == |ts| then Returned(dm)
    else
      match ts[from](dm)
      case Raised(s, e) => Raised(s, e)
      case Returned(s) => RunFrom(ts, s, from + 1)
  }

  /** `run`: a run that returns found the class of every step and, when
      every registered class declares distinct deliverables, keeps every
      entry stored before it. */
  function Run(p: Pipeline, classes: Registry): (r: Raises<DataManager>)
    requires AllShaped(p.steps, 0)
    ensures r.Returned? ==> forall i | 0 <= i < |p.steps| :: ClassFor(p.steps[i], i + 1, classes).Ok?
    ensures r.Returned? && (forall name | name in classes :: Distinct(classes[name].deliverables)) ==>
      forall k | k in p.dm.results :: k in r.state.results && r.state.results[k] == p.dm.results[k]
  {
    RunReturnedKnown(p.steps, classes, ConstructAndExecute, p.dm, 0);
    assert (forall name | name in classes :: Distinct(classes[name].deliverables)) ==>
      var r := RunFrom(Turns(p.steps, classes, ConstructAndExecute), p.dm, 0);
      r.Returned? ==> forall k | k in p.dm.results :: k in r.state.results && r.state.results[k] == p.dm.results[k]
    by {
      if forall name | name in classes :: Distinct(classes[name].deliverables) {
        RunKeeps(p.steps, classes, p.dm, 0);
      }
    }
    RunFrom(Turns(p.steps, classes, ConstructAndExecute), p.dm, 0)
  }

  /** A run that returns found the class of every step. */
  lemma {:induction false} RunReturnedKnown(steps: seq<Node>, classes: Registry, exec: Instantiate, dm: DataManager, from: nat)
    requires from <= |steps| && AllShaped(steps, 0)
    ensures RunFrom(Turns(steps, classes, exec), dm, from).Returned? ==>
      forall i | from <= i < |steps| :: ClassFor(steps[i], i + 1, classes).Ok?
    decreases |steps| - from
  {
    if from < |steps| {
      var r := RunStep(steps[from], from + 1, classes, exec, dm);
      if r.Returned? {
        RunReturnedKnown(steps, classes, exec, r.state, from + 1);
      }
    }
  }

  /** The turns run in list order: running up to turn `u` and then on from
      the store reached is the whole run. */
  lemma {:induction false} RunPrefix(ts: seq<Turn>, dm: DataManager, from: nat, u: nat)
    requires from <= u <= |ts|
    ensures RunFrom(ts, dm, from) ==
      match RunFrom(ts[..u], dm, from)
      case Returned(s) => RunFrom(ts, s, u)
      case Raised(s, e) => Raised(s, e)
    decreases u - from
  {
    if from < u {
      assert ts[..u][from] == ts[from];
      var r := ts[from](dm);
      if r.Returned? {
        RunPrefix(ts, r.state, from + 1, u);
      }
    }
  }

  /** When step `u` names an unknown class, the run executes the steps before
      it and, if they all return, raises `ValueError` for step `u + 1`
      (numbered from 1) with the store they left. */
  lemma RunStopsAtUnknown(steps: seq<Node>, classes: Registry, exec: Instantiate, dm: DataManager, u: nat)
    requires u < |steps| && AllShaped(steps, 0)
    requires ClassFor(steps[u], u + 1, classes) == Err(UnknownProcessStep(u + 1))
    ensures var ts := Turns(steps, classes, exec);
      var before := RunFrom(ts[..u], dm, 0);
      RunFrom(ts, dm, 0) == if before.Returned? then Raised(before.state, UnknownProcessStep(u + 1)) else before
    ensures var ts := Turns(steps, classes, exec);
      var before := RunFrom(ts[..u], dm, 0);
      before.Returned? ==> ClassOf(RunFrom(ts, dm, 0).error) == ValueError
  {
    var ts := Turns(steps, classes, exec);
    RunPrefix(ts, dm, 0, u);
    var before := RunFrom(ts[..u], dm, 0);
    if before.Returned? {
      var st := before.state;
      assert RunStep(steps[u], u + 1, classes, exec, st) == Raised(st, UnknownProcessStep(u + 1));
      assert ts[u](st) == Raised(st, UnknownProcessStep(u + 1));
      assert RunFrom(ts, st, u) == Raised(st, UnknownProcessStep(u + 1));
    }
  }

  /** When every registered class declares distinct deliverables, a run that
      returns keeps everything stored before it. */
  lemma {:induction false} RunKeeps(steps: seq<Node>, classes: Registry, dm: DataManager, from: nat)
    requires from <= |steps| && AllShaped(steps, 0)
    requires forall name | name in classes :: Distinct(classes[name].deliverables)
    ensures var r := RunFrom(Turns(steps, classes, ConstructAndExecute), dm, from);
      r.Returned? ==> forall k | k in dm.results :: k in r.state.results && r.state.results[k] == dm.results[k]
    decreases |steps| - from
  {
    if from < |steps| {
      var r := RunStep(steps[from], from + 1, classes, ConstructAndExecute, dm);
      if r.Returned? {
        RunKeeps(steps, classes, r.state, from + 1);
      }
    }
  }
}
