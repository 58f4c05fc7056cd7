/** `FeatureLogger` and the two decisions `run_episode_steps` takes before
    plotting: whether to plot at a step, and which curvature to show.

    Field values are dynamic Python objects; `Value` keeps the shapes the
    code inspects (None, numbers, lists) and leaves arrays and tuples it only
    passes along as `Other`. */
module Features {
  import opened Wrappers

  /** A Python value as far as this code looks at it. `Null` is `None`. */
  datatype Value<A> = Null | Int(i: int) | Float(f: real) | List(items: seq<Value<A>>) | Other(a: A)

  /** The six data fields of the dataclass. */
  datatype FeatureLogger<A> = FeatureLogger(
    columnPoints: Value<A>,
    centerEdge: Value<A>,
    fittedCircle: Value<A>,
    pointNormal: Value<A>,
    principalCurvatures: Value<A>,
    meanDepth: Value<A>)

  const ColumnPoints := "column_points"
  const CenterEdge := "center_edge"
  const FittedCircle := "fitted_circle"
  const PointNormal := "point_normal"
  const PrincipalCurvatures := "principal_curvatures"
  const MeanDepth := "mean_depth"

  const FieldNames: set<string> :=
    {ColumnPoints, CenterEdge, FittedCircle, PointNormal, PrincipalCurvatures, MeanDepth}

  /** `getattr(logger, name)` for a field name. */
  function Field<A>(l: FeatureLogger<A>, name: string): Value<A>
    requires name in FieldNames
  {
    if name == ColumnPoints then l.columnPoints
    else if name == CenterEdge then l.centerEdge
    else if name == FittedCircle then l.fittedCircle
    else if name == PointNormal then l.pointNormal
    else if name == PrincipalCurvatures then l.principalCurvatures
    else l.meanDepth
  }

  /** `FeatureLogger()`: the dataclass defaults. */
  function NewLogger<A>(): (l: FeatureLogger<A>)
    ensures Field(l, ColumnPoints) == List([])
    ensures Field(l, MeanDepth) == Float(0.0)
    ensures forall name :: name in FieldNames - {ColumnPoints, MeanDepth} ==> Field(l, name) == Null
  {
    FeatureLogger(List([]), Null, Null, Null, Null, Float(0.0))
  }

  /** `l.update(**kwargs)`: every keyword naming a field sets it, every other
      keyword is ignored. */
  function Update<A>(l: FeatureLogger<A>, kwargs: map<string, Value<A>>): (r: FeatureLogger<A>)
    ensures forall name :: name in FieldNames ==>
      Field(r, name) == if name in kwargs then kwargs[name] else Field(l, name)
  {
    FeatureLogger(
      if ColumnPoints in kwargs then kwargs[ColumnPoints] else l.columnPoints,
      if CenterEdge in kwargs then kwargs[CenterEdge] else l.centerEdge,
      if FittedCircle in kwargs then kwargs[FittedCircle] else l.fittedCircle,
      if PointNormal in kwargs then kwargs[PointNormal] else l.pointNormal,
      if PrincipalCurvatures in kwargs then kwargs[PrincipalCurvatures] else l.principalCurvatures,
      if MeanDepth in kwargs then kwargs[MeanDepth] else l.meanDepth)
  }

  /** Two loggers agreeing on every field are the same logger. */
  lemma FieldsDetermineLogger<A>(l: FeatureLogger<A>, l': FeatureLogger<A>)
    requires forall name :: name in FieldNames ==> Field(l, name) == Field(l', name)
    ensures l == l'
  {
    assert Field(l, ColumnPoints) == Field(l', ColumnPoints);
    assert Field(l, CenterEdge) == Field(l', CenterEdge);
    assert Field(l, FittedCircle) == Field(l', FittedCircle);
    assert Field(l, PointNormal) == Field(l', PointNormal);
    assert Field(l, PrincipalCurvatures) == Field(l', PrincipalCurvatures);
    assert Field(l, MeanDepth) == Field(l', MeanDepth);
  }

  /** Keywords that name no field leave the logger unchanged. */
  lemma UpdateIgnoresUnknownKeys<A>(l: FeatureLogger<A>, kwargs: map<string, Value<A>>)
    requires kwargs.Keys !! FieldNames
    ensures Update(l, kwargs) == l
  {
    FieldsDetermineLogger(Update(l, kwargs), l);
  }

  /** Updating twice with the same keywords is updating once, and a later
      update wins over an earlier one on the keys they share. */
  lemma UpdateLaterWins<A>(l: FeatureLogger<A>, first: map<string, Value<A>>, second: map<string, Value<A>>)
    ensures Update(Update(l, first), second) == Update(l, first + second)
    ensures Update(Update(l, first), first) == Update(l, first)
  {
    FieldsDetermineLogger(Update(Update(l, first), second), Update(l, first + second));
    FieldsDetermineLogger(Update(Update(l, first), first), Update(l, first));
  }

  /** `get_features()`: exactly the six field keys; four fields passed
      through, `point_normal` wrapped in a one-element list, and `[0, 0]` in
      place of absent principal curvatures. */
  function GetFeatures<A>(l: FeatureLogger<A>): (r: map<string, Value<A>>)
    ensures r.Keys == FieldNames
    ensures forall name :: name in {ColumnPoints, CenterEdge, FittedCircle, MeanDepth} ==> r[name] == Field(l, name)
    ensures r[PointNormal] == List([l.pointNormal])
    ensures l.principalCurvatures.Null? ==> r[PrincipalCurvatures] == List([Int(0), Int(0)])
    ensures !l.principalCurvatures.Null? ==> r[PrincipalCurvatures] == l.principalCurvatures
  {
    map[
      ColumnPoints := l.columnPoints,
      CenterEdge := l.centerEdge,
      FittedCircle := l.fittedCircle,
      PointNormal := if !l.pointNormal.Null? then List([l.pointNormal]) else List([Null]),
      PrincipalCurvatures := if !l.principalCurvatures.Null? then l.principalCurvatures else List([Int(0), Int(0)]),
      MeanDepth := l.meanDepth]
  }

  /** What a fresh logger reports. */
  lemma NewLoggerFeatures<A>()
    ensures GetFeatures(NewLogger<A>()) == map[
      ColumnPoints := List([]), CenterEdge := Null, FittedCircle := Null,
      PointNormal := List([Null]), PrincipalCurvatures := List([Int(0), Int(0)]),
      MeanDepth := Float(0.0)]
  {
  }

  /** An update followed by `get_features` reports the updated values. */
  lemma UpdateThenGetFeatures<A>(l: FeatureLogger<A>, kwargs: map<string, Value<A>>, name: string)
    requires name in kwargs && name in {ColumnPoints, CenterEdge, FittedCircle, MeanDepth}
    ensures GetFeatures(Update(l, kwargs))[name] == kwargs[name]
  {
    assert Field(Update(l, kwargs), name) == kwargs[name];
  }

  // ---------------------------------------------------------------------------
  // run_episode_steps
  // ---------------------------------------------------------------------------

  /** The curvature shown: `features["principal_curvatures"][0]` when that
      entry is present and not `None`, else `0`. `None` when the indexing
      raises: an empty list, or a value that is not a list. */
  function Curvature<A>(features: map<string, Value<A>>): (r: Option<Value<A>>)
    ensures PrincipalCurvatures !in features || features[PrincipalCurvatures].Null? ==> r == Some(Int(0))
    ensures (&& PrincipalCurvatures in features && features[PrincipalCurvatures].List?
             && |features[PrincipalCurvatures].items| > 0)
      ==> r == Some(features[PrincipalCurvatures].items[0])
    ensures r.None? <==>
      && PrincipalCurvatures in features && !features[PrincipalCurvatures].Null?
      && !(features[PrincipalCurvatures].List? && |features[PrincipalCurvatures].items| > 0)
  {
    if PrincipalCurvatures in features && !features[PrincipalCurvatures].Null? then
      match features[PrincipalCurvatures]
      case List(items) => if |items| > 0 then Some(items[0]) else None
      case _ => None
    else Some(Int(0))
  }

  /** A composition the episode loop does not make: the loop reads the
      curvature from the sensor module's own `plotting_data`, whose producer
      is not part of this model. Were those features a logger's
      `get_features()`, the curvature shown would be 0 for a logger holding no
      principal curvatures and their first entry for a non-empty list. */
  lemma CurvatureOfLogger<A>(l: FeatureLogger<A>)
    ensures l.principalCurvatures.Null? ==> Curvature(GetFeatures(l)) == Some(Int(0))
    ensures l.principalCurvatures.List? && |l.principalCurvatures.items| > 0 ==>
      Curvature(GetFeatures(l)) == Some(l.principalCurvatures.items[0])
  {
  }

  /** The parts of `plotting_config` the gate reads: the truth value of
      `enabled` and `plot_frequency`, each when present. */
  datatype PlottingConfig = PlottingConfig(enabled: Option<bool>, plotFrequency: Option<int>)

  /** Python's `a % b`: the result takes the sign of `b`. */
  function PyMod(a: int, b: int): (r: int)
    requires b != 0
    ensures b > 0 ==> 0 <= r < b
    ensures b < 0 ==> b < r <= 0
    ensures r == 0 <==> a % b == 0
    ensures r == a % b || r == a % b + b
  {
    if b > 0 || a % b == 0 then a % b else a % b + b
  }

  /** Whether step `step` plots: `None` when `step % plot_frequency` raises
      `ZeroDivisionError`, which only happens once plotting is enabled. */
  function PlotGate(config: Option<PlottingConfig>, step: nat): (r: Option<bool>)
    ensures r == Some(true) <==>
      && config.Some? && config.value.enabled == Some(true)
      && Frequency(config.value) != 0 && step % Frequency(config.value) == 0
    ensures r.None? <==> config.Some? && config.value.enabled == Some(true) && Frequency(config.value) == 0
  {
    if config.None? then Some(false)
    else if config.value.enabled != Some(true) then Some(false)
    else if Frequency(config.value) == 0 then None
    else Some(PyMod(step, Frequency(config.value)) == 0)
  }

  /** `plotting_config.get("plot_frequency", 1)`. */
  function Frequency(config: PlottingConfig): int
  {
    if config.plotFrequency.Some? then config.plotFrequency.value else 1
  }

  /** With a positive frequency `n`, an enabled gate opens at step `s`
      exactly when `n` divides `s`; without a frequency, it opens at every
      step. */
  lemma PlotGateEvery(n: int, step: nat)
    requires n > 0
    ensures PlotGate(Some(PlottingConfig(Some(true), Some(n))), step) == Some(step % n == 0)
    ensures PlotGate(Some(PlottingConfig(Some(true), None)), step) == Some(true)
  {
  }
}
