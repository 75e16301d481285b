/** The summary main prints for the selected model: for an exponential fit
    the location, the scale and the rate estimate lambda = 1 / scale, with
    scipy's defaults loc = 0 and scale = 1 for a parameter the fit did not
    report.  Any other distribution is reported by its name and its
    parameters as fitted. */
module ExponentialSummary {

  /** Name of scipy's exponential distribution. */
  const Expon: string := "expon"

  datatype ModelSummary =
    | Exponential(loc: real, scale: real, rate: real)
    | ZeroScale          // 1.0 / scale raises ZeroDivisionError
    | NotExponential(dist: string, params: map<string, real>)

  /** dict.get(key, default). */
  function Get(params: map<string, real>, key: string, default: real): real {
    if key in params then params[key] else default
  }

  function Summarize(dist: string, params: map<string, real>): (r: ModelSummary)
    ensures r.NotExponential? <==> dist != Expon
    ensures r.NotExponential? ==> r.dist == dist && r.params == params
    ensures r.ZeroScale? <==> dist == Expon && Get(params, "scale", 1.0) == 0.0
    ensures r.Exponential? ==>
      r.loc == Get(params, "loc", 0.0) && r.scale == Get(params, "scale", 1.0) && r.rate == 1.0 / r.scale
    ensures r.Exponential? ==> r.rate * r.scale == 1.0
  {
    if dist != Expon then NotExponential(dist, params)
    else
      var loc := Get(params, "loc", 0.0);
      var scale := Get(params, "scale", 1.0);
      if scale == 0.0 then ZeroScale
      else Exponential(loc, scale, 1.0 / scale)
  }

  // ---------------------------------------------------------------------
  // Lemmas

  /** The rate and the scale are reciprocal: lambda = 1 / scale and
      scale = 1 / lambda. */
  lemma RateIsReciprocal(dist: string, params: map<string, real>)
    requires Summarize(dist, params).Exponential?
    ensures var r := Summarize(dist, params); r.rate != 0.0 && 1.0 / r.rate == r.scale
  {
    var r := Summarize(dist, params);
    assert r.rate * r.scale == 1.0;
  }

  /** The reported parameters are the fitted ones when present. */
  lemma ReportsFittedParameters(params: map<string, real>)
    requires "loc" in params && "scale" in params && params["scale"] != 0.0
    ensures Summarize(Expon, params) == Exponential(params["loc"], params["scale"], 1.0 / params["scale"])
  {
  }

  /** A fit that reports no parameters gives loc 0, scale 1 and rate 1. */
  lemma Defaults()
    ensures Summarize(Expon, map[]) == Exponential(0.0, 1.0, 1.0)
  {
  }

  /** Each parameter falls back to its own default: a fit that reports only
      the scale has loc 0, one that reports only the location has scale 1. */
  lemma OneParameterReported(loc: real, scale: real)
    requires scale != 0.0
    ensures Summarize(Expon, map["scale" := scale]) == Exponential(0.0, scale, 1.0 / scale)
    ensures Summarize(Expon, map["loc" := loc]) == Exponential(loc, 1.0, 1.0)
  {
    assert "loc" !in map["scale" := scale];
    assert "scale" !in map["loc" := loc];
  }

  /** A positive scale gives a positive rate. */
  lemma PositiveRate(dist: string, params: map<string, real>)
    requires dist == Expon && Get(params, "scale", 1.0) > 0.0
    ensures var r := Summarize(dist, params); r.Exponential? && r.rate > 0.0
  {
    var r := Summarize(dist, params);
    assert r.rate * r.scale == 1.0;
  }
}
