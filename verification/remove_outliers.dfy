/** The `RemoveOutliers` process step: one input stack, one deliverable stack.

    `_configurate` fixes the quantile at 0.1 and turns inversion off whatever
    options the step was given; `_execute` thresholds every slice of the input
    stack at its own quantile and delivers the thresholded stack, which is the
    input attribute itself after the in-place writes. */
module RemoveOutliers {
  import opened Errors
  import opened Grids
  import opened Values
  import opened Thresholding
  import opened DataManager
  import opened ProcessStep

  const InputStack := "input_stack"
  const FilteredStack := "filtered_stack"
  const OutlierQuantile: real := 0.1

  const Inputs: Schema := [(InputStack, NdArrayType)]
  const Deliverables: Schema := [(FilteredStack, NdArrayType)]

  /** `_configurate`: sets the quantile and the inversion flag, nothing else. */
  function Configurate(attrs: Attrs): (r: Attrs)
    ensures r.Keys == attrs.Keys + {"outlier_quantile", "invert"}
    ensures r["outlier_quantile"] == FloatValue(OutlierQuantile) && r["invert"] == BoolValue(false)
    ensures forall k | k in attrs && k != "outlier_quantile" && k != "invert" :: r[k] == attrs[k]
  {
    attrs["outlier_quantile" := FloatValue(OutlierQuantile)]["invert" := BoolValue(false)]
  }

  /** The thresholded stack `_execute` computes from `stack`. */
  function Thresholded(stack: Volume, q: real, invert: bool, quantile: Quantile): (out: Volume)
    ensures SameVolumeShape(out, stack)
    ensures forall n | 0 <= n < |stack| :: out[n] == BinariseSlice(stack[n], quantile(stack[n], q), invert)
  {
    BinariseVolume(stack, Thresholds(stack, q, quantile), invert)
  }

  /** `_execute`. An attribute it reads that is missing raises
      `AttributeError`. `np.quantile` reads the level as a number and refuses
      one outside [0, 1]; `if self.invert:` reads the flag by its truth value.
      The input schema guarantees an array, which `_configurate` leaves alone. */
  function Execute(attrs: Attrs, quantile: Quantile): (r: Result<Attrs>)
    ensures r.Ok? <==>
      && InputStack in attrs && attrs[InputStack].Array?
      && "outlier_quantile" in attrs && Number(attrs["outlier_quantile"]).Some?
      && QuantileInRange(Number(attrs["outlier_quantile"]).value)
      && "invert" in attrs && Truth(attrs["invert"]).Some?
    ensures r.Ok? ==>
      var out := Thresholded(attrs[InputStack].stack, Number(attrs["outlier_quantile"]).value,
                             Truth(attrs["invert"]).value, quantile);
      && r.value.Keys == attrs.Keys + {FilteredStack}
      && r.value[FilteredStack] == Array(out)
      && r.value[InputStack] == r.value[FilteredStack]
      && forall k | k in attrs && k != InputStack && k != FilteredStack :: r.value[k] == attrs[k]
    ensures r.Err? ==> ClassOf(r.error) in {AttributeError, TypeError, ValueError}
    ensures InputStack !in attrs || "outlier_quantile" !in attrs ==>
      r.Err? && ClassOf(r.error) == AttributeError
    ensures InputStack in attrs && attrs[InputStack].Array? && "outlier_quantile" in attrs ==>
      var q := Number(attrs["outlier_quantile"]);
      && (q.None? ==> r.Err? && ClassOf(r.error) == TypeError)
      && (q.Some? && !QuantileInRange(q.value) ==> r.Err? && ClassOf(r.error) == ValueError)
      && (q.Some? && QuantileInRange(q.value) && "invert" !in attrs ==>
            r.Err? && ClassOf(r.error) == AttributeError)
      && (q.Some? && QuantileInRange(q.value) && "invert" in attrs && Truth(attrs["invert"]).None? ==>
            r.Err? && ClassOf(r.error) == ValueError)
  {
    if InputStack !in attrs then Err(MissingAttribute(InputStack))
    else if "outlier_quantile" !in attrs then Err(MissingAttribute("outlier_quantile"))
    else if !attrs[InputStack].Array? then Err(InputWrongType(InputStack))
    else if Number(attrs["outlier_quantile"]).None? then Err(QuantileNotNumber)
    else if !QuantileInRange(Number(attrs["outlier_quantile"]).value) then Err(QuantileOutOfRange)
    else if "invert" !in attrs then Err(MissingAttribute("invert"))
    else if Truth(attrs["invert"]).None? then Err(AmbiguousTruth)
    else
      var stack := attrs[InputStack].stack;
      var q := Number(attrs["outlier_quantile"]).value;
      var out := BinariseVolume(stack, Thresholds(stack, q, quantile), Truth(attrs["invert"]).value);
      Ok(attrs[InputStack := Array(out)][FilteredStack := Array(out)])
  }

  /** The step class, with `np.quantile` as a parameter. */
  function Class(quantile: Quantile): StepClass
  {
    StepClass(Inputs, Deliverables, Configurate, a => Execute(a, quantile))
  }

  /** Whatever the options, a configured step thresholds at the 0.1 quantile
      without inversion: per slice, a sample below its threshold becomes 0,
      any other positive sample becomes 1, and a non-negative stack ends up
      holding only 0 and 1. */
  lemma ConfiguredExecute(attrs: Attrs, v: Volume, quantile: Quantile)
    requires InputStack in attrs && attrs[InputStack] == Array(v)
    ensures var r := Execute(Configurate(attrs), quantile);
      && r.Ok? && r.value[FilteredStack].Array?
      && var out := r.value[FilteredStack].stack;
         SameVolumeShape(out, v)
         && forall n, p | 0 <= n < |v| && InGrid(v[n], p) ::
              var t := quantile(v[n], OutlierQuantile);
              InGrid(out[n], p)
              && (At(v[n], p) < t ==> At(out[n], p) == 0.0)
              && (At(v[n], p) >= t && At(v[n], p) > 0.0 ==> At(out[n], p) == 1.0)
              && (At(v[n], p) >= 0.0 ==> At(out[n], p) == 0.0 || At(out[n], p) == 1.0)
  {
    var r := Execute(Configurate(attrs), quantile);
    var out := r.value[FilteredStack].stack;
    forall n, p | 0 <= n < |v| && InGrid(v[n], p)
      ensures InGrid(out[n], p)
      ensures At(v[n], p) < quantile(v[n], OutlierQuantile) ==> At(out[n], p) == 0.0
    {
      assert out[n] == BinariseSlice(v[n], quantile(v[n], OutlierQuantile), false);
    }
  }

  /** Constructing the step from `{input_stack: id}` on a store holding the
      stack `v` under `id` fetches `v` and configures the step. */
  lemma InitOnStore(dm: DataManager, id: string, v: Volume, options: Option<Node>, quantile: Quantile)
    requires KStr(id) in dm.results && dm.results[KStr(id)] == Array(v)
    ensures Init(Class(quantile), dm, [(InputStack, NStr(id))], options)
         == Ok(Step(dm, options, Configurate(map[InputStack := Array(v)])))
  {
    var provided := [(InputStack, NStr(id))];
    assert provided[0].0 == InputStack && Inputs[0].0 == InputStack;
    assert Keys(provided) == {InputStack} by {
      assert forall k :: k in Keys(provided) <==> k == InputStack;
    }
    assert Keys(Inputs) == {InputStack} by {
      assert forall k :: k in Keys(Inputs) <==> k == InputStack;
    }
    assert ProvidedId(Inputs, provided, 0) == KStr(id);
    assert InputUsable(Inputs, dm, provided, 0);
    var attrs := VerifyAndSetInputs(Inputs, dm, provided).value;
    assert attrs == map[InputStack := Array(v)];
  }

  /** The whole step on a store holding the stack `v` under `id`: it is
      constructed from the mapping `{input_stack: id}` and delivers the
      thresholded stack under `filtered_stack`, unless that name is already
      stored, which raises `KeyError`. */
  lemma RunOnStore(dm: DataManager, id: string, v: Volume, options: Option<Node>, quantile: Quantile)
    requires KStr(id) in dm.results && dm.results[KStr(id)] == Array(v)
    ensures var step := Init(Class(quantile), dm, [(InputStack, NStr(id))], options);
      && step.Ok?
      && var r := ProcessStep.Execute(Class(quantile), step.value);
         && (r.Returned? <==> KStr(FilteredStack) !in dm.results)
         && (r.Raised? ==> ClassOf(r.error) == KeyError && r.state == dm)
         && (r.Returned? ==>
               && r.state.results.Keys == dm.results.Keys + {KStr(FilteredStack)}
               && r.state.results[KStr(FilteredStack)] == Array(Thresholded(v, OutlierQuantile, false, quantile)))
  {
    InitOnStore(dm, id, v, options, quantile);
    var step := Step(dm, options, Configurate(map[InputStack := Array(v)]));
    var cls := Class(quantile);
    var out := Execute(step.attrs, quantile);
    assert cls.execute(step.attrs) == out;
    assert out.Ok? && out.value[FilteredStack] == Array(Thresholded(v, OutlierQuantile, false, quantile));
    assert DeliverableValid(cls.deliverables, out.value, 0);
    SingleExecuteOutcome(cls, step);
  }
}
