# Chip-Analysis core in Dafny

A model of the two sequential cores of the Chip-Analysis repository, with proofs
about the model.

**Chip filtering.** This is per-slice image processing over stacks of
microscope slices:
- binarise each slice at its own quantile threshold, with optional inversion;
- open it with the full 3×3 structuring element;
- zero fixed border bands;
- label the connected components of the foreground once, and zero every
  component a keep-rule rejects.

The chain appears three times, and each gets its own module:
- the `BoxFilter` class, with its clean/dirty flag;
- the standalone script, which clips, normalises, crops, filters by pixel count
  and then by shape, with non-strict ratio limits;
- the `RemoveOutliers` pipeline step.

Slices are `seq<seq<real>>`, and foreground means a nonzero sample. A
component is the set of foreground pixels reachable over 4-adjacent foreground
paths, defined as a reachability predicate. The executable flood fill, the
labelling and the label-then-filter loop are proved equal to that definition.

**Step orchestration.** This part covers:
- the insert-once result store (`DataManager`);
- keyword validation with defaults (`SerialisableInputs.__init__`);
- a process step's input and deliverable schema checks (`AbstractProcessStep`);
- the pipeline's validation of its configuration, a fold over the steps on a
  copy of the store;
- `run`, which dispatches each step to its class.

Python values, classes and YAML documents are small datatypes. Dictionaries
are maps or entry sequences. Every raise site is an `Error` constructor, and
`ClassOf` names its Python exception class. An operation that can raise
returns `Result` (a value or an error), or `Raises` (the state after the call
plus the error, if any).

Modules:
- `Errors`, `Values`, `Grids`: shared types.
- `Components`, `RegionFilter`: connectivity and label-then-filter.
- `Thresholding`, `Opening`, `Cropping`, `KeepRules`: the stages and the keep
  rules.
- `BoxFilter`, `ScriptFilter`: the two filter variants.
- `DataManager`, `SerialisableInputs`, `ProcessStep`, `RemoveOutliers`,
  `ProcessPipeline`: the framework.

Two facts of the code shape the model:
- **Connectivity.** The code calls `nd.label` with its default structure,
  which is 4-connectivity, so components use 4-adjacency.
- **Background label.** The code enumerates labels with `nd.value_indices`,
  which includes the background label 0. The background is therefore one of
  the regions the filter visits. Zeroing it changes nothing.

## Model

| member | source | states |
|---|---|---|
| Components.Component | chip_analysis/box_filter.py:112 | the component of `p` is exactly the set of foreground pixels reachable from `p` over 4-adjacent foreground paths |
| Components.ComponentOfMember | chip_analysis/box_filter.py:112-113 | any member of a component has that same component, so components partition the foreground |
| Components.FloodFill | chip_analysis/box_filter.py:112 | the worklist flood fill from a foreground seed returns exactly the seed's component |
| Components.Label | chip_analysis/box_filter.py:112 | raster labelling returns distinct components that together cover the foreground |
| RegionFilter.Measure | chip_analysis/box_filter.py:114-115 | one pass over a region gives its pixel count and its extents as max minus min of the row and column coordinates |
| RegionFilter.LabelRegions | chip_analysis/box_filter.py:112-113 | the regions the label table yields are each a component or the background, and together they cover the foreground |
| RegionFilter.FilterSlice | chip_analysis/box_filter.py:111-117 | labelling once and zeroing every rejected region gives the reference: a pixel is zeroed exactly when its component is rejected |
| RegionFilter.FilterVolume | chip_analysis/box_filter.py:111-118 | every slice of the stack is filtered independently, as the reference says |
| RegionFilter.FilteredSubset | chip_analysis/box_filter.py:117 | filtering never adds foreground, and a surviving pixel keeps its value |
| RegionFilter.FilteredKeepsIff | chip_analysis/box_filter.py:116-117 | a foreground pixel survives exactly when the rule keeps its component |
| RegionFilter.FilteredWhole | chip_analysis/box_filter.py:111-117 | each component is kept or removed whole |
| RegionFilter.FilteredIndependent | chip_analysis/box_filter.py:111-117 | zeroing one component first does not change the decision on another |
| RegionFilter.FilteredComponent | chip_analysis/box_filter.py:111-117 | a surviving pixel has the same component after filtering, so relabelling finds the kept components unchanged |
| RegionFilter.FilteredIdempotent | chip_analysis/box_filter.py:111-117 | filtering a second time with the same rule changes nothing |
| RegionFilter.FilteredCompose | src/box_filter.py:49-64 | filtering, relabelling and filtering with a second rule is one pass keeping the components both rules accept |
| RegionFilter.FilteredBinary | src/box_filter.py:49-56 | a 0/1 slice stays 0/1 after filtering |
| Opening.Open | chip_analysis/box_filter.py:74-76 | the opening has the input's shape and holds only 0 and 1 |
| Opening.ErodedAt | chip_analysis/box_filter.py:74-76 | a pixel survives erosion exactly when its whole 3×3 window is foreground |
| Opening.OpenSurvivor | chip_analysis/box_filter.py:74-76 | a pixel survives the opening exactly when it lies in some all-foreground 3×3 window of the slice |
| Opening.OpenSubset | chip_analysis/box_filter.py:74-76 | the opening never adds foreground |
| Opening.FullWindowOpen | chip_analysis/box_filter.py:74-76 | a window is all foreground after the opening exactly when it was before |
| Opening.OpenIdempotent | chip_analysis/box_filter.py:74-76 | opening twice is opening once |
| Opening.OpenVolume | chip_analysis/box_filter.py:72-77 | every slice is replaced by its opening and the stack keeps its shape |
| Thresholding.BinariseSlice | chip_analysis/box_filter.py:63-66 | without inversion a pixel ends up foreground exactly when it is nonzero and not below the threshold; with inversion, exactly when it is below the threshold or not positive; non-negative samples end up 0 or 1 |
| Thresholding.Thresholds | chip_analysis/box_filter.py:62 | one threshold per slice, the `q` quantile of that slice alone |
| Thresholding.BinariseVolume | chip_analysis/box_filter.py:61-68 | each slice is thresholded with its own threshold and the stack keeps its shape |
| Thresholding.InvertIsComplement | chip_analysis/box_filter.py:65-66 | the inverted result is 1 minus the plain result at every pixel |
| Thresholding.BinaryFixed | chip_analysis/box_filter.py:63-64 | a 0/1 slice thresholded without inversion at a threshold in (0, 1] is unchanged |
| Thresholding.BinariseIdempotent | chip_analysis/box_filter.py:63-64 | thresholding twice without inversion is thresholding once, for thresholds up to 1 |
| Cropping.ZeroRows | chip_analysis/box_filter.py:94-95 | a row-slice assignment zeroes exactly the rows the Python slice selects and keeps everything else |
| Cropping.ZeroCols | chip_analysis/box_filter.py:96-97 | a column-slice assignment zeroes exactly the columns the Python slice selects and keeps everything else |
| Cropping.BorderWidths | chip_analysis/box_filter.py:87-93 | two widths mean (l, t, l, t), four are taken in order, any other length raises `ValueError` |
| Cropping.CullSlice | chip_analysis/box_filter.py:94-97 | a pixel is zeroed exactly when it lies in one of the four bands, with slice bounds read as Python reads them; every other pixel is unchanged |
| Cropping.BorderBands | chip_analysis/box_filter.py:94-97 | for non-negative widths the bands are the first `l` and last `r` rows and the first `t` and last `b` columns, except that a zero `r` or `b` selects everything |
| Cropping.ZeroWidthClears | chip_analysis/box_filter.py:95-97 | a zero right or bottom width clears the whole slice |
| Cropping.CullSubset | chip_analysis/box_filter.py:94-97 | the foreground after culling is the foreground before, less the bands |
| Cropping.CullIdempotent | chip_analysis/box_filter.py:94-97 | culling twice with the same widths is culling once |
| Cropping.PairMeansSymmetric | chip_analysis/box_filter.py:87-89 | a two-element configuration culls exactly as its four-element spelling |
| Cropping.CullVolume | chip_analysis/box_filter.py:86-98 | every slice is culled with the same widths and the stack keeps its shape |
| KeepRules.DefaultBoxRule | chip_analysis/box_filter.py:109-116 | with size window 210 to 350 and aspect 2, a region is kept exactly when both extents lie in the window |
| KeepRules.BoxKeeps | chip_analysis/box_filter.py:114-116 | a kept region has both extents inside the size window and a ratio below the aspect limit |
| KeepRules.BoxRuleAsymmetric | chip_analysis/box_filter.py:116 | the epsilon in the divisor makes the rule asymmetric: extents (2, 1) pass an aspect limit of 2, extents (1, 2) do not |
| KeepRules.Divide | src/box_filter.py:63 | numpy division of integer extents is finite exactly when the divisor is nonzero, and then it is the exact quotient |
| KeepRules.ExceedsTwo | src/box_filter.py:63 | `a / b > 2` holds exactly when `a > 2b`, including the infinite and NaN quotients |
| KeepRules.ScriptShapeRule | src/box_filter.py:58-64 | the script keeps a region exactly when neither extent is more than twice the other and both lie in 210 to 350; a ratio of exactly 2 passes |
| KeepRules.FlatRegionRemoved | src/box_filter.py:60-64 | a region with zero extent on some axis is always removed |
| KeepRules.ShapeRulesAgree | src/box_filter.py:63 | with their default numbers, the script's shape rule and the box filter's rule take the same decisions |
| KeepRules.SizeKeeps | src/box_filter.py:54 | a region is kept exactly when its pixel count lies in 2500 to 50000, both ends included |
| KeepRules.ScriptShapeKeeps | src/box_filter.py:63 | a region the shape rule keeps has both extents in 210 to 350 |
| BoxFilter.Init | chip_analysis/box_filter.py:25-36 | a new filter holds the stack and configuration, is not clean, and has no stage output |
| BoxFilter.MarkDirty | chip_analysis/box_filter.py:9-13 | the wrapper sets `_isClean` to false and changes nothing else |
| BoxFilter.RemoveOutliers | chip_analysis/box_filter.py:53-68 | a quantile level outside [0, 1] raises `ValueError` after the filter is marked dirty; otherwise the stage marks the filter dirty and stores each input slice thresholded at its own quantile with the configured inversion, and nothing else changes |
| BoxFilter.Denoise | chip_analysis/box_filter.py:70-77 | the stage stores the opening of every outlier-free slice; without outlier-free output it raises `IndexError` |
| BoxFilter.CullBoundary | chip_analysis/box_filter.py:79-98 | the stage stores the culled denoised stack; a malformed width list raises `ValueError` before the stack is read |
| BoxFilter.AspectRatioFilter | chip_analysis/box_filter.py:100-118 | the stage stores every culled slice filtered by the box rule; a target size not of length 2 raises before the stack is read |
| BoxFilter.Filter | chip_analysis/box_filter.py:38-51 | the four stages in order: it fails exactly when the configuration is malformed (a quantile level outside [0, 1], a width list not of length 2 or 4, or a target size not of length 2), and otherwise the result is each input slice thresholded, opened, culled and shape-filtered, and the filter is clean |
| BoxFilter.Visualise | chip_analysis/box_filter.py:120-127 | raises `ValueError` exactly when there is no result; an unclean result changes nothing |
| BoxFilter.StagesKeepClean | chip_analysis/box_filter.py:9-13 | a stage run by hand after `filter` writes `_isClean` and never resets `_isclean`, so `visualise` still runs |
| BoxFilter.CullPairConfig | chip_analysis/box_filter.py:87-93 | on a whole filter, the stage with `(l, t)` has the same outcome as with `(l, t, l, t)` |
| BoxFilter.DefaultConfigRule | chip_analysis/box_filter.py:15-22 | the default configuration is well formed, and with it a region is kept exactly when both extents lie in 210 to 350 |
| ScriptFilter.Clip | src/box_filter.py:31-32 | with `lo <= hi` every pixel ends in `[lo, hi]`, and pixels already in range are unchanged |
| ScriptFilter.ClipIdempotent | src/box_filter.py:31-32 | clipping twice is clipping once |
| ScriptFilter.BlackWhite | src/box_filter.py:37-40 | the mapping gives a 0/1 slice of the same shape |
| ScriptFilter.BlackWhiteIsBinarise | src/box_filter.py:37-40 | the mapping is thresholding at 0.3 with inversion, so a pixel ends up foreground exactly when it was below 0.3 |
| ScriptFilter.Crop | src/box_filter.py:41-45 | rows below 400 or from 1500 on, the first 200 columns and the last 200 columns are zeroed; all other pixels are unchanged |
| ScriptFilter.ClampOne | src/box_filter.py:56 | every sample ends at most 1, and samples already at most 1 are unchanged |
| ScriptFilter.ClampOneBinary | src/box_filter.py:56 | the clamp is a no-op on a 0/1 slice |
| ScriptFilter.RunScript | src/box_filter.py:29-64 | the script on a slice computes the composed reference result and returns a 0/1 slice |
| ScriptFilter.TwoPassesAreOne | src/box_filter.py:49-64 | the size pass, the clamp and the relabelled shape pass act as one pass keeping the components that pass both rules |
| ScriptFilter.BothRules | src/box_filter.py:49-64 | a region is kept exactly when it passes the size rule and the shape rule |
| ScriptFilter.ScriptSurvivor | src/box_filter.py:49-64 | a cropped foreground pixel survives exactly when its component has 2500 to 50000 pixels (inclusive) and extents in 210 to 350 with neither more than twice the other |
| DataManager.Add | chip_analysis/pipeline_framework/data_manager.py:11-12 | `add` stores unconditionally, overwriting, and keeps every other id; an unhashable id raises |
| DataManager.Contains | chip_analysis/pipeline_framework/data_manager.py:14-15 | `contains` is membership in the store |
| DataManager.Get | chip_analysis/pipeline_framework/data_manager.py:17-20 | `get` returns the stored value exactly when the id is stored; an absent hashable id raises `KeyError`, an unhashable one `TypeError` |
| DataManager.RegisteredResults | chip_analysis/pipeline_framework/data_manager.py:22-23 | the registered ids are exactly the ids `contains` reports |
| DataManager.RegisterIndividual | chip_analysis/pipeline_framework/data_manager.py:37-40 | a present id raises `KeyError` and changes nothing; a fresh id is then contained and `get` yields its data, and other ids are unaffected |
| DataManager.RegisterBulk | chip_analysis/pipeline_framework/data_manager.py:30-35 | a non-string key raises `TypeError` before anything is stored |
| DataManager.Register | chip_analysis/pipeline_framework/data_manager.py:25-40 | a string id registers one entry, a dictionary registers in bulk, and any other id raises `TypeError`; a string id returns exactly when it is not stored, and `get` then yields its data; registration never removes an id and raises only `TypeError` or `KeyError` |
| DataManager.InsertAllOutcome | chip_analysis/pipeline_framework/data_manager.py:33-35 | the insertion loop returns exactly when no entry clashes, storing all of them; otherwise it raises `KeyError` at the first clash, keeping exactly the entries before it |
| DataManager.InsertAll | chip_analysis/pipeline_framework/data_manager.py:34-35 | the insertion loop never removes an id, and raises only the `KeyError` of an id already stored |
| DataManager.BulkFresh | chip_analysis/pipeline_framework/data_manager.py:30-35 | bulk registration of fresh, distinct string ids stores every entry and keeps everything stored before |
| DataManager.DistinctBulkOutcome | chip_analysis/pipeline_framework/data_manager.py:30-35 | bulk registration of distinct string ids returns exactly when none is stored, adding exactly those ids; otherwise it raises `KeyError` |
| DataManager.BulkNotAtomic | chip_analysis/pipeline_framework/data_manager.py:33-35 | a failed bulk registration is not rolled back: the entries before the first stored id stay registered |
| SerialisableInputs.RequiredError | chip_analysis/pipeline_framework/serilisable_inputs.py:14-20 | an absent required input raises `ValueError`, a mistyped one `TypeError` |
| SerialisableInputs.CheckRequired | chip_analysis/pipeline_framework/serilisable_inputs.py:13-20 | required inputs are checked in declaration order, and the error is that of the first failing one |
| SerialisableInputs.CheckOptional | chip_analysis/pipeline_framework/serilisable_inputs.py:23-27 | supplied optional inputs are checked in declaration order, and the first mistyped one raises `TypeError` |
| SerialisableInputs.SetDefaults | chip_analysis/pipeline_framework/serilisable_inputs.py:28-31 | a default is set for exactly the optional names not supplied |
| SerialisableInputs.Init | chip_analysis/pipeline_framework/serilisable_inputs.py:13-35 | construction succeeds exactly when both schemas accept the arguments; the attributes are then the supplied arguments, undeclared ones included, plus the optional names, and supplied values are kept |
| SerialisableInputs.InitError | chip_analysis/pipeline_framework/serilisable_inputs.py:13-27 | every required check comes before every optional check, and each raises at its first failure |
| SerialisableInputs.SetDefaultsValue | chip_analysis/pipeline_framework/serilisable_inputs.py:28-31 | an unsupplied optional name holds its own default |
| SerialisableInputs.InitDefaults | chip_analysis/pipeline_framework/serilisable_inputs.py:28-31 | after construction, an optional input not supplied holds its declared default |
| SerialisableInputs.RequiredKept | chip_analysis/pipeline_framework/serilisable_inputs.py:13-20 | after construction each required input holds the supplied value, which is of its declared class |
| SerialisableInputs.OptionalKept | chip_analysis/pipeline_framework/serilisable_inputs.py:23-27 | after construction a supplied optional input holds the supplied value, which is of its declared class |
| SerialisableInputs.MistypedOptionalRaises | chip_analysis/pipeline_framework/serilisable_inputs.py:23-27 | once every required input passes, one mistyped optional input makes construction raise `TypeError` |
| SerialisableInputs.InitReload | chip_analysis/pipeline_framework/serilisable_inputs.py:23-35 | when every default is of its declared class, constructing again from the attributes gives the same attributes |
| ProcessStep.FetchInputs | chip_analysis/pipeline_framework/process_step.py:39-46 | the loop succeeds exactly when every input names a stored object of its class, and then sets each input to the stored object; otherwise it raises `TypeError` or `KeyError` |
| ProcessStep.VerifyAndSetInputs | chip_analysis/pipeline_framework/process_step.py:22-46 | a name mismatch raises `ValueError` carrying the missing and unexpected names; otherwise the inputs are fetched, and the attributes are exactly the declared inputs |
| ProcessStep.Init | chip_analysis/pipeline_framework/process_step.py:13-20 | construction sets the inputs and then runs the configuration hook, or raises what input checking raised |
| ProcessStep.ValidateDeliverables | chip_analysis/pipeline_framework/process_step.py:60-70 | validation passes exactly when every deliverable is an attribute of its class; otherwise the first bad one raises `AttributeError` (missing) or `TypeError` (mistyped) |
| ProcessStep.DeliverableEntries | chip_analysis/pipeline_framework/process_step.py:54 | the registered mapping pairs each declared deliverable name with its attribute, in declaration order |
| ProcessStep.Execute | chip_analysis/pipeline_framework/process_step.py:51-54 | a failing hook or a failed validation raises with the store unchanged |
| ProcessStep.ExecuteOutcome | chip_analysis/pipeline_framework/process_step.py:51-54 | `execute` returns exactly when the hook returns, every deliverable is valid and no deliverable name is stored; it then stores each deliverable under its name and keeps every stored entry; a stored name raises `KeyError` |
| ProcessStep.SingleExecuteOutcome | chip_analysis/pipeline_framework/process_step.py:51-54 | for a class with one deliverable that the hook returns well typed, `execute` stores it under its name exactly when the name is not stored yet, and otherwise raises `KeyError` leaving the store as it was |
| RemoveOutliers.Configurate | chip_analysis/processes/remove_outliers.py:11-13 | the hook sets the quantile to 0.1 and inversion off, whatever the options, and keeps every other attribute |
| RemoveOutliers.Thresholded | chip_analysis/processes/remove_outliers.py:23-27 | each slice is thresholded at its own quantile, and the stack keeps its shape |
| Values.Number | chip_analysis/processes/remove_outliers.py:23 | numpy reads a level from an int, a float or a bool, and from nothing else |
| Values.Truth | chip_analysis/processes/remove_outliers.py:26 | `if v:` is false exactly for `None`, zero numbers, `False` and empty strings and dictionaries, and refuses an array |
| RemoveOutliers.Execute | chip_analysis/processes/remove_outliers.py:15-29 | the hook returns exactly when `input_stack` is an array, the quantile level is an int, float or bool in [0, 1], and `invert` has a truth value; `filtered_stack` is then the stack thresholded at that level with inversion by the truth of `invert`, and `input_stack` the same array; a missing `input_stack` or `outlier_quantile` raises `AttributeError`, a non-numeric level `TypeError`, a level outside [0, 1] `ValueError`, then a missing `invert` `AttributeError` and an array-valued `invert` `ValueError` |
| RemoveOutliers.ConfiguredExecute | chip_analysis/processes/remove_outliers.py:11-29 | after configuration, a pixel below its slice's 0.1-quantile becomes 0, a positive pixel not below it becomes 1, and a non-negative stack ends up 0/1 |
| RemoveOutliers.InitOnStore | chip_analysis/pipeline_framework/process_step.py:13-46 | constructing the step from `{input_stack: id}` fetches the stored stack and configures the step with it |
| RemoveOutliers.RunOnStore | chip_analysis/processes/remove_outliers.py:15-29 | the whole step on a stored stack returns exactly when `filtered_stack` is not yet stored, and then stores the thresholded stack under it; otherwise it raises `KeyError` and leaves the store unchanged |
| ProcessPipeline.CheckConfig | chip_analysis/pipeline_framework/process_pipeline.py:54-60 | the configuration passes exactly when it is a mapping holding `Inputs` and `PipelineSteps`; missing keys raise `ValueError`, and a non-mapping raises `AttributeError` |
| Values.LookupLast | chip_analysis/pipeline_framework/process_pipeline.py:109-125 | a key repeated in a YAML mapping reads as its last entry |
| Values.DictValuesMeans | chip_analysis/pipeline_framework/process_pipeline.py:117-130 | the values of a parsed YAML mapping are exactly the values of entries no later entry with the same key overwrites |
| ProcessPipeline.DeliveredMeans | chip_analysis/pipeline_framework/process_pipeline.py:125-130 | a step delivers exactly the ids of its `Deliverables` entries that no later entry with the same name overwrites |
| ProcessPipeline.CheckAllStored | chip_analysis/pipeline_framework/process_pipeline.py:68-72 | the loop passes exactly when every value names a stored id |
| ProcessPipeline.ValidateInputs | chip_analysis/pipeline_framework/process_pipeline.py:62-84 | `Inputs` must be a list whose ids are all stored; a stored id it does not declare raises only when checking is pedantic |
| ProcessPipeline.PedanticInputsExact | chip_analysis/pipeline_framework/process_pipeline.py:74-81 | with pedantic checking, the declared inputs are exactly the stored ones |
| ProcessPipeline.Dedup | chip_analysis/pipeline_framework/process_pipeline.py:130 | the dictionary comprehension keeps each id once, and the same ids |
| ProcessPipeline.DeliverablesOutcome | chip_analysis/pipeline_framework/process_pipeline.py:130 | registering a step's placeholders returns exactly when every id is a string not stored yet, and then adds exactly those ids |
| ProcessPipeline.RegisterDeliverables | chip_analysis/pipeline_framework/process_pipeline.py:129-135 | the registration passes exactly when every deliverable id is a fresh string, adding exactly those ids; every failure becomes `ValueError`, and repeated ids within one step are accepted |
| ProcessPipeline.CheckStepInputs | chip_analysis/pipeline_framework/process_pipeline.py:112-122 | a step's `Inputs` passes exactly when it is a mapping whose ids, as the parsed dictionary holds them (the last value of a repeated name), are all stored |
| ProcessPipeline.CheckStep | chip_analysis/pipeline_framework/process_pipeline.py:100-135 | one step passes exactly when it is valid against the stored ids, and then its deliverable ids are added (overwritten values of a repeated name are neither checked nor added); errors are `ValueError`, or `TypeError` for an unhashable id |
| ProcessPipeline.ValidateSteps | chip_analysis/pipeline_framework/process_pipeline.py:97-137 | the fold raises only `ValueError` or the `TypeError` of an unhashable id, and on success the copy keeps every id it started with |
| ProcessPipeline.ValidateStepsSpec | chip_analysis/pipeline_framework/process_pipeline.py:97-137 | the fold succeeds exactly when every step is valid against the ids available before it, counting only the values the parsed dictionaries hold, and the copy then holds every available id |
| ProcessPipeline.ValidatePipelineSteps | chip_analysis/pipeline_framework/process_pipeline.py:86-137 | `PipelineSteps` must be a list passing the fold, and it is returned unchanged |
| ProcessPipeline.ValidatedDataflow | chip_analysis/pipeline_framework/process_pipeline.py:111-135 | validation accepts exactly when each step reads only registered inputs or ids of strictly earlier steps; every delivered id is new to the store and to every later step; inputs and deliverables are the values the parsed dictionaries hold, so an overwritten value is neither read nor delivered |
| ProcessPipeline.OnInit | chip_analysis/pipeline_framework/process_pipeline.py:21-60 | a missing configuration file raises `FileNotFoundError`, an unknown data manager `ValueError`, a failed registration its own error, an unparsable document `ValueError`, and each later check its own error, in that order; when every check passes construction succeeds, and then the store holds exactly the registered inputs and the configuration passed every check |
| ProcessPipeline.Construct | chip_analysis/pipeline_framework/process_pipeline.py:9-44 | construction validates the keyword arguments first, raising their error; accepted arguments (which `InitShape` shows have the shape `on_init` reads) then go through `on_init`, whose outcome is the outcome of construction |
| ProcessPipeline.InitShape | chip_analysis/pipeline_framework/process_pipeline.py:10-19 | accepted arguments give a dictionary of inputs and a string data manager name, supplied or defaulted |
| ProcessPipeline.FrameworkDefaultMistyped | chip_analysis/pipeline_framework/process_pipeline.py:16-19 | the `framework_config` default is not a `dict`, so constructing again from the attributes of a pipeline built with it raises `TypeError` |
| ProcessPipeline.Constructed | chip_analysis/pipeline_framework/process_pipeline.py:21-44 | a constructed pipeline's steps have the shape `run` reads and pass the dataflow checks; with pedantic checking, its declared inputs are exactly the stored ones |
| ProcessPipeline.ValidShaped | chip_analysis/pipeline_framework/process_pipeline.py:100-115 | a valid step is a mapping with the three required keys and a mapping `Inputs` when present |
| ProcessPipeline.ClassFor | chip_analysis/pipeline_framework/process_pipeline.py:150-151 | the class lookup succeeds exactly when the step names a registered class; an unknown name raises `ValueError` with the step's number |
| ProcessPipeline.RunStep | chip_analysis/pipeline_framework/process_pipeline.py:150-163 | an unknown class raises before anything is constructed: the store is left as it was and the exception is a `ValueError` (unknown or non-string name) or a `TypeError` (unhashable name) |
| ProcessPipeline.ConstructAndExecute | chip_analysis/pipeline_framework/process_pipeline.py:161-163 | a construction failure raises with the store untouched; a returning step whose class declares distinct deliverables keeps every stored entry and stores every deliverable name |
| ProcessPipeline.Turns | chip_analysis/pipeline_framework/process_pipeline.py:143-163 | one turn per step, in list order, each looking up its class and then constructing and executing it on the store it is given |
| ProcessPipeline.RunReturnedKnown | chip_analysis/pipeline_framework/process_pipeline.py:143-151 | a run that returns found the class of every step |
| ProcessPipeline.RunPrefix | chip_analysis/pipeline_framework/process_pipeline.py:143-163 | turns run in list order: running the first `u` turns and then the rest from the store reached is the whole run |
| ProcessPipeline.RunStopsAtUnknown | chip_analysis/pipeline_framework/process_pipeline.py:143-151 | at the first unknown class the run raises `ValueError` for that step, with the store the earlier steps left |
| ProcessPipeline.RunKeeps | chip_analysis/pipeline_framework/process_pipeline.py:143-163 | when every registered class declares distinct deliverables, a run that returns keeps every entry stored before it |
| ProcessPipeline.Run | chip_analysis/pipeline_framework/process_pipeline.py:139-163 | a run that returns found the class of every step and, when every registered class declares distinct deliverables, keeps every entry stored before it |

## Left out

- File input and presentation are not modelled: TIFF reading, matplotlib plotting, `print` and `warnings.warn`. A warning is an ordinary return.
- `np.quantile` is a parameter of type `Quantile`, one value per slice. Its floating-point interpolation is not modelled. Every array is a stack of two-dimensional slices, so the `AxisError` numpy raises for an array that is not three-dimensional is not modelled, and neither is its failure on empty slices.
- RemoveOutliers.Execute: a quantile level that is itself an array (numpy would return several thresholds per slice) is refused with `TypeError` like any other non-number, and the truth value of a one-element array (which numpy allows) is refused like any other array. An `input_stack` that is not an array cannot reach `_execute`, because construction checks its class; the model raises `TypeError` for it.
- The script's normalisation `(img - lo) / np.max(img)` is a function parameter of `ScriptFilter.RunScript`, because it is floating-point arithmetic.
- Floating-point rounding, overflow and NaN samples are not modelled: samples are exact reals. The `1e-6` epsilon is kept exactly.
- The scipy routines are specified by their definitions, not modelled as a library:
  - labelling by 4-adjacent reachability;
  - the opening by full 3×3 windows, with samples outside the slice counting as background;
  - `value_indices` by the regions of the label image.
- ScriptFilter.RunScript: models one slice, since the script works on `imgs[4]`. Indexing a stack with fewer than five slices is not modelled.
- Reading and parsing the configuration are parameters of `ProcessPipeline.OnInit`:
  - the existence of the configuration path is a boolean;
  - the parsed YAML document is an `Option`, with `None` for a parse error.
  The `mkdir` of the output directory has no effect on the model.
- `pedantic_input_checking` is a boolean parameter. The attribute access on `framework_config` is not modelled. A `framework_config` supplied as a plain `dict` would raise `AttributeError` in the code, and that is not modelled either.
- ProcessPipeline.Run: requires every step to have the shape validation leaves, so `run` on steps that skipped validation is not modelled; there a missing `DisplayId` or `ProcessStep` key would raise `KeyError`.
- `run`'s counter-width lookup on `framework_config.execution_settings` and its progress line are not modelled.
- `SerialisableInputs.reload`, which reads HDF5 and git metadata, is not modelled, and neither are the empty `serialise` stubs. `SerialisableInputs.InitReload` states only the attribute round trip that `reload` relies on.
- The hooks `_configurate` and `_execute` of a step class are function fields of `StepClass`. Only `RemoveOutliers` gives them bodies.
- ProcessStep.ValidateDeliverables: a step's attributes hold only its inputs and what its hooks set. The instance attributes `data_manager` and `options` that `__init__` sets are not attributes in the model, so a deliverable named `options` raises `AttributeError` where `hasattr` would find it, and an input named `data_manager` does not rebind the store `execute` registers into. Class attributes and methods are not modelled either.
- DataManager.RegisteredResults: returns a set, because the list order of `registered_results` is not used by the modelled callers.
- YAML mappings have string keys only. A mapping node keeps every entry as written; reading it as a dictionary keeps the last value of a repeated key, by `Lookup` (`Values.LookupLast`) for one key and by `DictValues` (`Values.DictValuesMeans`) for `.values()`. Non-string YAML keys are not modelled.
- `deepcopy` is identity, because values are immutable. The in-place writes of `RemoveOutliers._execute` act on the copy `get` returns, so they are modelled as a new value.
- `chip_analysis/pipeline_framework/config.py` holds only dataclass defaults. They enter as the `pedantic` parameter and as the `FrameworkSettings` default value.
