/** A process step: a class with an input schema and a deliverable schema.

    Construction takes the mapping from input names to store ids, requires its
    names to be exactly the declared input names, fetches every input from the
    result store (checking its class) and stores it as an attribute, then runs
    the `_configurate` hook. `execute` runs the `_execute` hook, checks every
    deliverable is an attribute of its declared class, and registers all of
    them in the store under their declared names. The hooks are parameters. */
module ProcessStep {
  import opened Errors
  import opened Values
  import opened DataManager

  /** Names and expected classes, in declaration order. */
  type Schema = seq<(string, PyType)>

  datatype StepClass = StepClass(
    inputs: Schema,
    deliverables: Schema,
    configurate: Attrs -> Attrs,          // `_configurate`
    execute: Attrs -> Result<Attrs>)      // `_execute`

  /** A constructed step: the shared store, the options it was given and its
      attributes, which are its inputs and what its hooks set; the store and
      the options are not among them. */
  datatype Step = Step(dm: DataManager, options: Option<Node>, attrs: Attrs)

  /** A schema is a dictionary, so its names are distinct. */
  predicate Distinct(schema: Schema)
  {
    forall i, j | 0 <= i < j < |schema| :: schema[i].0 != schema[j].0
  }

  /** The store id the provided mapping gives for input `i`. */
  function ProvidedId(schema: Schema, provided: seq<(string, Node)>, i: int): Key
    requires 0 <= i < |schema| && schema[i].0 in Keys(provided)
  {
    KeyOf(Lookup(provided, schema[i].0))
  }

  /** Input `i` names a stored object of its declared class. */
  predicate InputUsable(schema: Schema, dm: DataManager, provided: seq<(string, Node)>, i: int)
    requires 0 <= i < |schema| && schema[i].0 in Keys(provided)
  {
    var k := ProvidedId(schema, provided, i);
    !k.KUnhashable? && k in dm.results && IsInstance(dm.results[k], schema[i].1)
  }

  /** The loop of `_verify_and_set_inputs` from input `from` on. */
  function FetchInputs(schema: Schema, dm: DataManager, provided: seq<(string, Node)>, attrs: Attrs, from: nat)
    : (r: Result<Attrs>)
    requires from <= |schema| && Keys(schema) == Keys(provided)
    ensures r.Ok? <==> forall i | from <= i < |schema| :: InputUsable(schema, dm, provided, i)
    ensures r.Err? ==> ClassOf(r.error) == TypeError || ClassOf(r.error) == KeyError
    ensures r.Ok? ==> forall k :: k in r.value <==> k in attrs || exists i | from <= i < |schema| :: schema[i].0 == k
    ensures r.Ok? ==> forall i | from <= i < |schema| ::
      ProvidedId(schema, provided, i) in dm.results && r.value[schema[i].0] == dm.results[ProvidedId(schema, provided, i)]
    ensures r.Ok? ==> forall k | k in attrs && (forall i | from <= i < |schema| :: schema[i].0 != k) ::
      r.value[k] == attrs[k]
    decreases |schema| - from
  {
    if from == |schema| then Ok(attrs)
    else
      var key := schema[from].0;
      assert key in Keys(provided);
      var id := ProvidedId(schema, provided, from);
      var got := Get(dm, id);
      if got.Err? then
        assert !InputUsable(schema, dm, provided, from);
        Err(got.error)
      else
      var obj := got.value;
      if !IsInstance(obj, schema[from].1) then
        assert !InputUsable(schema, dm, provided, from);
        Err(InputWrongType(key))
      else
        var r := FetchInputs(schema, dm, provided, attrs[key := obj], from + 1);
        assert r.Ok? ==> r.value[key] == obj by {
          if r.Ok? && exists i | from + 1 <= i < |schema| :: schema[i].0 == key {
            var i :| from + 1 <= i < |schema| && schema[i].0 == key;
            assert ProvidedId(schema, provided, i) == id;
          }
        }
        r
  }

  /** `_verify_and_set_inputs`: a name mismatch raises `ValueError` listing the
      missing and the unexpected names; otherwise each input is fetched in
      declaration order. */
  function VerifyAndSetInputs(schema: Schema, dm: DataManager, provided: seq<(string, Node)>): (r: Result<Attrs>)
    ensures r.Ok? <==>
      && Keys(schema) == Keys(provided)
      && forall i | 0 <= i < |schema| :: InputUsable(schema, dm, provided, i)
    ensures Keys(schema) != Keys(provided) ==>
      && r == Err(InputMismatch(Keys(schema) - Keys(provided), Keys(provided) - Keys(schema)))
      && ClassOf(r.error) == ValueError
    ensures r.Err? && Keys(schema) == Keys(provided) ==>
      ClassOf(r.error) == TypeError || ClassOf(r.error) == KeyError
    ensures r.Ok? ==> r.value.Keys == Keys(schema)
    ensures r.Ok? ==> forall i | 0 <= i < |schema| ::
      ProvidedId(schema, provided, i) in dm.results && r.value[schema[i].0] == dm.results[ProvidedId(schema, provided, i)]
  {
    if Keys(schema) != Keys(provided) then
      Err(InputMismatch(Keys(schema) - Keys(provided), Keys(provided) - Keys(schema)))
    else
      FetchInputs(schema, dm, provided, map[], 0)
  }

  /** `__init__`: the inputs, then the `_configurate` hook. */
  function Init(cls: StepClass, dm: DataManager, provided: seq<(string, Node)>, options: Option<Node>)
    : (r: Result<Step>)
    ensures r.Ok? <==> VerifyAndSetInputs(cls.inputs, dm, provided).Ok?
    ensures r.Ok? ==> r.value == Step(dm, options, cls.configurate(VerifyAndSetInputs(cls.inputs, dm, provided).value))
    ensures r.Err? ==> r.error == VerifyAndSetInputs(cls.inputs, dm, provided).error
  {
    var attrs :- VerifyAndSetInputs(cls.inputs, dm, provided);
    Ok(Step(dm, options, cls.configurate(attrs)))
  }

  /** Deliverable `i` is an attribute of its declared class. */
  predicate DeliverableValid(deliverables: Schema, attrs: Attrs, i: int)
    requires 0 <= i < |deliverables|
  {
    deliverables[i].0 in attrs && IsInstance(attrs[deliverables[i].0], deliverables[i].1)
  }

  /** The exception a bad deliverable raises: `AttributeError` when it is
      missing, `TypeError` when it has the wrong class. */
  function DeliverableError(deliverables: Schema, attrs: Attrs, i: int): Error
    requires 0 <= i < |deliverables|
  {
    if deliverables[i].0 in attrs then DeliverableWrongType(deliverables[i].0)
    else MissingAttribute(deliverables[i].0)
  }

  /** Deliverable `i` is the first bad one from `from` on. */
  predicate FirstInvalid(deliverables: Schema, attrs: Attrs, from: int, i: int)
  {
    && 0 <= from <= i < |deliverables|
    && !DeliverableValid(deliverables, attrs, i)
    && forall j | from <= j < i :: DeliverableValid(deliverables, attrs, j)
  }

  /** `_validate_deliverables` from deliverable `from` on: the first bad
      deliverable decides the exception. */
  function ValidateDeliverables(deliverables: Schema, attrs: Attrs, from: nat): (e: Option<Error>)
    requires from <= |deliverables|
    ensures e.None? <==> forall i | from <= i < |deliverables| :: DeliverableValid(deliverables, attrs, i)
    ensures e.Some? ==> exists i :: FirstInvalid(deliverables, attrs, from, i) && e.value == DeliverableError(deliverables, attrs, i)
    decreases |deliverables| - from
  {
    if from == |deliverables| then None
    else if !DeliverableValid(deliverables, attrs, from) then
      assert FirstInvalid(deliverables, attrs, from, from);
      Some(DeliverableError(deliverables, attrs, from))
    else
      var e := ValidateDeliverables(deliverables, attrs, from + 1);
      assert e.Some? ==> exists i :: FirstInvalid(deliverables, attrs, from, i) && e.value == DeliverableError(deliverables, attrs, i) by {
        if e.Some? {
          var i :| FirstInvalid(deliverables, attrs, from + 1, i) && e.value == DeliverableError(deliverables, attrs, i);
          assert FirstInvalid(deliverables, attrs, from, i);
        }
      }
      e
  }

  /** `{d: getattr(self, d) for d in self.deliverables}` */
  function DeliverableEntries(deliverables: Schema, attrs: Attrs): (entries: seq<(Key, Value)>)
    requires forall i | 0 <= i < |deliverables| :: deliverables[i].0 in attrs
    ensures |entries| == |deliverables|
    ensures forall i | 0 <= i < |entries| :: entries[i] == (KStr(deliverables[i].0), attrs[deliverables[i].0])
  {
    seq(|deliverables|, i requires 0 <= i < |deliverables| => (KStr(deliverables[i].0), attrs[deliverables[i].0]))
  }

  /** `execute`: the store after the call, and the exception raised, if any.
      A failing hook or a failed validation leaves the store untouched. */
  function Execute(cls: StepClass, step: Step): (r: Raises<DataManager>)
    ensures cls.execute(step.attrs).Err? ==> r == Raised(step.dm, cls.execute(step.attrs).error)
    ensures cls.execute(step.attrs).Ok? && ValidateDeliverables(cls.deliverables, cls.execute(step.attrs).value, 0).Some?
      ==> r.Raised? && r.state == step.dm
  {
    match cls.execute(step.attrs)
    case Err(e) => Raised(step.dm, e)
    case Ok(attrs) =>
      match ValidateDeliverables(cls.deliverables, attrs, 0)
      case Some(e) => Raised(step.dm, e)
      case None =>
        assert forall i | 0 <= i < |cls.deliverables| :: DeliverableValid(cls.deliverables, attrs, i);
        assert forall i | 0 <= i < |cls.deliverables| :: cls.deliverables[i].0 in attrs by {
          forall i | 0 <= i < |cls.deliverables|
            ensures cls.deliverables[i].0 in attrs
          {
            assert DeliverableValid(cls.deliverables, attrs, i);
          }
        }
        Register(step.dm, IdDict(DeliverableEntries(cls.deliverables, attrs)), NoneValue)
  }

  /** `execute` returns exactly when the hook returns, every deliverable is an
      attribute of its declared class and none of their names is stored yet;
      it then stores every deliverable under its declared name and keeps
      everything stored before. A name already stored raises `KeyError`. */
  lemma ExecuteOutcome(cls: StepClass, step: Step)
    requires Distinct(cls.deliverables)
    ensures var r := Execute(cls, step);
      r.Returned? <==>
        && cls.execute(step.attrs).Ok?
        && (forall i | 0 <= i < |cls.deliverables| :: DeliverableValid(cls.deliverables, cls.execute(step.attrs).value, i))
        && (forall i | 0 <= i < |cls.deliverables| :: KStr(cls.deliverables[i].0) !in step.dm.results)
    ensures var r := Execute(cls, step);
      r.Returned? ==>
        && (forall i | 0 <= i < |cls.deliverables| ::
              && DeliverableValid(cls.deliverables, cls.execute(step.attrs).value, i)
              && KStr(cls.deliverables[i].0) in r.state.results
              && r.state.results[KStr(cls.deliverables[i].0)] == cls.execute(step.attrs).value[cls.deliverables[i].0])
        && (forall k | k in step.dm.results :: k in r.state.results && r.state.results[k] == step.dm.results[k])
        && (forall k :: k in r.state.results <==>
              k in step.dm.results || exists i | 0 <= i < |cls.deliverables| :: k == KStr(cls.deliverables[i].0))
    ensures var r := Execute(cls, step);
      (&& cls.execute(step.attrs).Ok?
       && ValidateDeliverables(cls.deliverables, cls.execute(step.attrs).value, 0).None?
       && r.Raised?) ==> ClassOf(r.error) == KeyError
  {
    var out := cls.execute(step.attrs);
    if out.Ok? && ValidateDeliverables(cls.deliverables, out.value, 0).None? {
      assert forall i | 0 <= i < |cls.deliverables| :: DeliverableValid(cls.deliverables, out.value, i);
      assert forall i | 0 <= i < |cls.deliverables| :: cls.deliverables[i].0 in out.value by {
        forall i | 0 <= i < |cls.deliverables|
          ensures cls.deliverables[i].0 in out.value
        {
          assert DeliverableValid(cls.deliverables, out.value, i);
        }
      }
      var entries := DeliverableEntries(cls.deliverables, out.value);
      assert AllStringKeys(entries);
      assert Execute(cls, step) == RegisterBulk(step.dm, entries);
      DistinctBulkOutcome(step.dm, entries);
    }
  }

  /** A step class with one deliverable whose hook returns it well typed:
      `execute` stores it under its name exactly when the name is not stored
      yet, and otherwise raises `KeyError` with the store untouched. */
  lemma SingleExecuteOutcome(cls: StepClass, step: Step)
    requires |cls.deliverables| == 1
    requires cls.execute(step.attrs).Ok? && DeliverableValid(cls.deliverables, cls.execute(step.attrs).value, 0)
    ensures var name := cls.deliverables[0].0;
      var r := Execute(cls, step);
      && (r.Returned? <==> KStr(name) !in step.dm.results)
      && (r.Raised? ==> r == Raised(step.dm, AlreadyExists(name)) && ClassOf(r.error) == KeyError)
      && (r.Returned? ==> r.state.results == step.dm.results[KStr(name) := cls.execute(step.attrs).value[name]])
  {
    var attrs := cls.execute(step.attrs).value;
    var name := cls.deliverables[0].0;
    assert ValidateDeliverables(cls.deliverables, attrs, 1) == None;
    var entries := DeliverableEntries(cls.deliverables, attrs);
    assert entries == [(KStr(name), attrs[name])];
    assert Execute(cls, step) == InsertAll(step.dm, entries);
    assert entries[1..] == [];
    if KStr(name) !in step.dm.results {
      var s := DataManager(step.dm.results[KStr(name) := attrs[name]]);
      assert RegisterIndividual(step.dm, name, attrs[name]) == Returned(s);
      assert InsertAll(s, []) == Returned(s);
    } else {
      assert RegisterIndividual(step.dm, name, attrs[name]) == Raised(step.dm, AlreadyExists(name));
    }
  }
}
