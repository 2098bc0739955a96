/** Keyword-argument validation of `SerialisableInputs.__init__`.

    A class declares its required inputs (name and class) and its optional
    inputs (name, class and default). Construction checks the required inputs
    in declaration order, then the optional ones, and raises at the first
    failure; otherwise every absent optional input gets its default and every
    keyword argument becomes an attribute. The defaults are not checked
    against their declared class. */
module SerialisableInputs {
  import opened Errors
  import opened Values

  /** `required_inputs`: name and expected class, in declaration order. */
  type RequiredSchema = seq<(string, PyType)>

  /** `optional_inputs`: name, expected class and default, in declaration order. */
  type OptionalSchema = seq<(string, PyType, Value)>

  /** A schema is a dictionary, so its names are distinct. */
  predicate DistinctOptional(optional: OptionalSchema)
  {
    forall i, j | 0 <= i < j < |optional| :: optional[i].0 != optional[j].0
  }

  function OptionalNames(optional: OptionalSchema): (ns: set<string>)
    ensures forall k :: k in ns <==> exists i | 0 <= i < |optional| :: optional[i].0 == k
  {
    set i | 0 <= i < |optional| :: optional[i].0
  }

  /** Required input `i` is absent or of the wrong class. */
  predicate RequiredFails(required: RequiredSchema, kwargs: Attrs, i: int)
    requires 0 <= i < |required|
  {
    required[i].0 !in kwargs || !IsInstance(kwargs[required[i].0], required[i].1)
  }

  /** Optional input `i` is supplied with the wrong class. */
  predicate OptionalFails(optional: OptionalSchema, kwargs: Attrs, i: int)
    requires 0 <= i < |optional|
  {
    optional[i].0 in kwargs && !IsInstance(kwargs[optional[i].0], optional[i].1)
  }

  /** The keyword arguments satisfy both schemas. */
  predicate Accepts(required: RequiredSchema, optional: OptionalSchema, kwargs: Attrs)
  {
    && (forall i | 0 <= i < |required| :: !RequiredFails(required, kwargs, i))
    && (forall i | 0 <= i < |optional| :: !OptionalFails(optional, kwargs, i))
  }

  /** An absent required input raises `ValueError`, a mistyped one `TypeError`. */
  function RequiredError(required: RequiredSchema, kwargs: Attrs, i: int): (e: Error)
    requires 0 <= i < |required|
    ensures ClassOf(e) == (if required[i].0 in kwargs then TypeError else ValueError)
  {
    if required[i].0 !in kwargs then MissingRequired(required[i].0) else RequiredWrongType(required[i].0)
  }

  /** The first failing required input from position `from` on. */
  function CheckRequired(required: RequiredSchema, kwargs: Attrs, from: nat): (e: Option<Error>)
    requires from <= |required|
    ensures e.None? <==> forall i | from <= i < |required| :: !RequiredFails(required, kwargs, i)
    ensures e.Some? ==> exists i | from <= i < |required| ::
      && RequiredFails(required, kwargs, i)
      && (forall j | from <= j < i :: !RequiredFails(required, kwargs, j))
      && e.value == RequiredError(required, kwargs, i)
    decreases |required| - from
  {
    if from == |required| then None
    else if RequiredFails(required, kwargs, from) then Some(RequiredError(required, kwargs, from))
    else CheckRequired(required, kwargs, from + 1)
  }

  /** The first optional input from position `from` on that is supplied with
      the wrong class. */
  function CheckOptional(optional: OptionalSchema, kwargs: Attrs, from: nat): (e: Option<Error>)
    requires from <= |optional|
    ensures e.None? <==> forall i | from <= i < |optional| :: !OptionalFails(optional, kwargs, i)
    ensures e.Some? ==> exists i | from <= i < |optional| ::
      && OptionalFails(optional, kwargs, i)
      && (forall j | from <= j < i :: !OptionalFails(optional, kwargs, j))
      && e.value == OptionalWrongType(optional[i].0)
    decreases |optional| - from
  {
    if from == |optional| then None
    else if OptionalFails(optional, kwargs, from) then Some(OptionalWrongType(optional[from].0))
    else CheckOptional(optional, kwargs, from + 1)
  }

  /** The `setattr(self, key, default)` calls for the optional inputs from
      position `from` on that are not supplied. */
  function SetDefaults(attrs: Attrs, optional: OptionalSchema, kwargs: Attrs, from: nat): (r: Attrs)
    requires from <= |optional|
    ensures forall k :: k in r <==> k in attrs || exists i | from <= i < |optional| :: optional[i].0 == k && k !in kwargs
    decreases |optional| - from
  {
    if from == |optional| then attrs
    else if optional[from].0 in kwargs then SetDefaults(attrs, optional, kwargs, from + 1)
    else SetDefaults(attrs[optional[from].0 := optional[from].2], optional, kwargs, from + 1)
  }

  /** `__init__` up to the `on_init` hook: the attributes set, or the first
      validation error. */
  function Init(required: RequiredSchema, optional: OptionalSchema, kwargs: Attrs): (r: Result<Attrs>)
    ensures r.Ok? <==> Accepts(required, optional, kwargs)
    ensures r.Ok? ==> forall k :: k in r.value <==> k in kwargs || k in OptionalNames(optional)
    ensures r.Ok? ==> forall k | k in kwargs :: r.value[k] == kwargs[k]
  {
    match CheckRequired(required, kwargs, 0)
    case Some(e) => Err(e)
    case None =>
      match CheckOptional(optional, kwargs, 0)
      case Some(e) => Err(e)
      case None => Ok(SetDefaults(map[], optional, kwargs, 0) + kwargs)
  }

  /** Construction fails at the first required input that is absent
      (`ValueError`) or mistyped (`TypeError`); only when every required input
      passes does a mistyped optional input raise, again the first one. */
  lemma InitError(required: RequiredSchema, optional: OptionalSchema, kwargs: Attrs)
    ensures var r := Init(required, optional, kwargs);
      r.Err? ==>
        if exists i | 0 <= i < |required| :: RequiredFails(required, kwargs, i) then
          exists i | 0 <= i < |required| ::
            && RequiredFails(required, kwargs, i)
            && (forall j | 0 <= j < i :: !RequiredFails(required, kwargs, j))
            && r.error == RequiredError(required, kwargs, i)
        else
          exists i | 0 <= i < |optional| ::
            && OptionalFails(optional, kwargs, i)
            && (forall j | 0 <= j < i :: !OptionalFails(optional, kwargs, j))
            && r.error == OptionalWrongType(optional[i].0)
            && ClassOf(r.error) == TypeError
  {
  }

  /** The default that `SetDefaults` leaves under an unsupplied optional name. */
  lemma {:induction false} SetDefaultsValue(attrs: Attrs, optional: OptionalSchema, kwargs: Attrs, from: nat, i: nat)
    requires DistinctOptional(optional)
    requires from <= i < |optional| && optional[i].0 !in kwargs
    ensures SetDefaults(attrs, optional, kwargs, from)[optional[i].0] == optional[i].2
    decreases |optional| - from
  {
    if from < i {
      if optional[from].0 in kwargs {
        SetDefaultsValue(attrs, optional, kwargs, from + 1, i);
      } else {
        SetDefaultsValue(attrs[optional[from].0 := optional[from].2], optional, kwargs, from + 1, i);
      }
    } else {
      SetDefaultsKeeps(attrs[optional[from].0 := optional[from].2], optional, kwargs, from + 1, optional[i].0);
    }
  }

  /** A name no later optional input declares keeps its value. */
  lemma {:induction false} SetDefaultsKeeps(attrs: Attrs, optional: OptionalSchema, kwargs: Attrs, from: nat, k: string)
    requires from <= |optional| && k in attrs
    requires forall j | from <= j < |optional| :: optional[j].0 != k
    ensures SetDefaults(attrs, optional, kwargs, from)[k] == attrs[k]
    decreases |optional| - from
  {
    if from < |optional| {
      if optional[from].0 in kwargs {
        SetDefaultsKeeps(attrs, optional, kwargs, from + 1, k);
      } else {
        SetDefaultsKeeps(attrs[optional[from].0 := optional[from].2], optional, kwargs, from + 1, k);
      }
    }
  }

  /** Every optional input left out of the keyword arguments ends up as its
      default. */
  lemma InitDefaults(required: RequiredSchema, optional: OptionalSchema, kwargs: Attrs, i: nat)
    requires DistinctOptional(optional)
    requires Accepts(required, optional, kwargs)
    requires i < |optional| && optional[i].0 !in kwargs
    ensures Init(required, optional, kwargs) == Ok(Init(required, optional, kwargs).value)
    ensures Init(required, optional, kwargs).value[optional[i].0] == optional[i].2
  {
    SetDefaultsValue(map[], optional, kwargs, 0, i);
  }

  /** A constructed object holds each required input as supplied, and it is
      an instance of its declared class. */
  lemma RequiredKept(required: RequiredSchema, optional: OptionalSchema, kwargs: Attrs, i: nat)
    requires Init(required, optional, kwargs).Ok? && i < |required|
    ensures required[i].0 in kwargs && required[i].0 in Init(required, optional, kwargs).value
    ensures Init(required, optional, kwargs).value[required[i].0] == kwargs[required[i].0]
    ensures IsInstance(kwargs[required[i].0], required[i].1)
  {
    assert !RequiredFails(required, kwargs, i);
  }

  /** A supplied optional input is kept as supplied, and it is an instance of
      its declared class. */
  lemma OptionalKept(required: RequiredSchema, optional: OptionalSchema, kwargs: Attrs, i: nat)
    requires Init(required, optional, kwargs).Ok? && i < |optional| && optional[i].0 in kwargs
    ensures Init(required, optional, kwargs).value[optional[i].0] == kwargs[optional[i].0]
    ensures IsInstance(kwargs[optional[i].0], optional[i].1)
  {
    assert !OptionalFails(optional, kwargs, i);
  }

  /** With every required input in order, a mistyped optional input makes
      construction raise `TypeError`. */
  lemma MistypedOptionalRaises(required: RequiredSchema, optional: OptionalSchema, kwargs: Attrs, i: nat)
    requires forall j | 0 <= j < |required| :: !RequiredFails(required, kwargs, j)
    requires i < |optional| && OptionalFails(optional, kwargs, i)
    ensures Init(required, optional, kwargs).Err?
    ensures ClassOf(Init(required, optional, kwargs).error) == TypeError
  {
    InitError(required, optional, kwargs);
  }

  /** Every default is an instance of its declared class. */
  predicate DefaultsWellTyped(optional: OptionalSchema)
  {
    forall i | 0 <= i < |optional| :: IsInstance(optional[i].2, optional[i].1)
  }

  /** Constructing again from the attributes of a constructed object gives the
      same attributes, as `reload` does with a serialised object, provided the
      defaults are instances of their declared classes. */
  lemma InitReload(required: RequiredSchema, optional: OptionalSchema, kwargs: Attrs)
    requires DistinctOptional(optional) && DefaultsWellTyped(optional)
    requires Init(required, optional, kwargs).Ok?
    ensures var attrs := Init(required, optional, kwargs).value;
      Init(required, optional, attrs) == Ok(attrs)
  {
    var attrs := Init(required, optional, kwargs).value;
    forall i | 0 <= i < |optional|
      ensures optional[i].0 in attrs && IsInstance(attrs[optional[i].0], optional[i].1)
    {
      if optional[i].0 !in kwargs {
        InitDefaults(required, optional, kwargs, i);
      } else {
        assert !OptionalFails(optional, kwargs, i);
      }
    }
    forall i | 0 <= i < |required|
      ensures !RequiredFails(required, attrs, i)
    {
      assert !RequiredFails(required, kwargs, i);
    }
    assert Accepts(required, optional, attrs);
    var again := SetDefaults(map[], optional, attrs, 0);
    assert again.Keys == {};
    assert Init(required, optional, attrs) == Ok(again + attrs);
    assert again + attrs == attrs;
  }
}
