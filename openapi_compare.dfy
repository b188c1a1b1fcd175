/**
 * The severity-classified comparison of a reference OpenAPI document with
 * the served one: `$ref` resolution, parameters, response codes,
 * operations and endpoints. Each comparison appends its findings to a
 * local list; the list it returns is that of a specification function.
 */
module OpenApiCompare {
  import opened Wrappers
  import opened Strings
  import opened Seqs
  import opened Json
  import opened Differences
  import opened OpenApiPaths

  const CRITICAL_CODES: set<string> := {"200", "201", "204"}

  /** The categories a critical finding can have. */
  predicate CriticalCategory(c: string) {
    c == "missing_endpoint" || c == "missing_method" || c == "missing_parameter" || c == "missing_response_code"
  }

  /** The categories an informational finding can have. */
  predicate InfoCategory(c: string) {
    c == "extra_endpoint" || c == "extra_method" || c == "extra_parameter" || c == "extra_response_code"
    || c == "different_operation_id"
  }

  /** The severity rules: only something missing is critical, and only something extra or renamed is informational. */
  predicate Classified(d: Difference) {
    && (d.severity == Critical ==> CriticalCategory(d.category))
    && (d.severity == Info ==> InfoCategory(d.category))
  }

  predicate AllClassified(ds: seq<Difference>) {
    forall d | d in ds :: Classified(d)
  }

  // ---------------------------------------------------------------- resolve_ref

  /** Following segments down nested dicts; nothing once a step is not a dict or lacks the segment. */
  function Reach(cur: Json, parts: seq<string>): Option<Json>
    decreases |parts|
  {
    if parts == [] then Some(cur)
    else if cur.JObj? && Lookup(cur.entries, parts[0]).Some? then Reach(Lookup(cur.entries, parts[0]).value, parts[1..])
    else None
  }

  /** `resolve_ref`: the dict a local `#/…` pointer leads to, or `{}`. */
  function ResolvedRef(spec: Json, ref: string): (r: Json)
    ensures r.JObj?
  {
    if !StartsWith(ref, "#/") then JObj([])
    else
      match Reach(spec, Split(ref[2..], '/'))
      case Some(JObj(e)) => JObj(e)
      case _ => JObj([])
  }

  /**
   * A pointer written as `#/` and segments without `/` resolves to the dict
   * those segments reach, and to `{}` when they reach nothing or no dict.
   */
  lemma ResolvedRefPath(spec: Json, parts: seq<string>)
    requires |parts| >= 1 && forall i :: 0 <= i < |parts| ==> '/' !in parts[i]
    ensures var r := ResolvedRef(spec, "#/" + Join(parts, '/'));
      match Reach(spec, parts)
      case Some(v) => r == if v.JObj? then v else JObj([])
      case None => r == JObj([])
  {
    var ref := "#/" + Join(parts, '/');
    PointerSegments(parts);
    var t := Reach(spec, parts);
    assert ResolvedRef(spec, ref) == if t.Some? && t.value.JObj? then t.value else JObj([]);
  }

  /** The segments of a pointer written as `#/` and joined segments are those segments. */
  lemma PointerSegments(parts: seq<string>)
    requires |parts| >= 1 && forall i :: 0 <= i < |parts| ==> '/' !in parts[i]
    ensures var ref := "#/" + Join(parts, '/');
      StartsWith(ref, "#/") && Split(ref[2..], '/') == parts
  {
    var j := Join(parts, '/');
    var ref := "#/" + j;
    assert ref[..2] == "#/";
    assert ref[2..] == j;
    SplitJoin(parts, '/');
  }

  /** `resolve_ref`, walking the segments one at a time. */
  method ResolveRef(spec: Json, ref: string) returns (r: Json)
    ensures r == ResolvedRef(spec, ref)
  {
    if !StartsWith(ref, "#/") {
      return JObj([]);
    }
    var parts := Split(ref[2..], '/');
    var current := spec;
    var i := 0;
    while i < |parts|
      invariant i <= |parts|
      invariant Reach(spec, parts) == Reach(current, parts[i..])
    {
      assert parts[i..][0] == parts[i] && parts[i..][1..] == parts[i + 1..];
      if current.JObj? && Lookup(current.entries, parts[i]).Some? {
        current := Lookup(current.entries, parts[i]).value;
      } else {
        return JObj([]);
      }
      i := i + 1;
    }
    r := if current.JObj? then current else JObj([]);
  }

  // ---------------------------------------------------------------- parameters

  /** A parameter with a `$ref` is replaced by what it points to; any other is kept. */
  function ResolveParam(spec: Json, p: Json): Json {
    match Get(p, "$ref")
    case Some(JStr(ref)) => ResolvedRef(spec, ref)
    case Some(_) => JObj([])
    case None => p
  }

  function ResolveParams(spec: Json, params: seq<Json>): (r: seq<Json>)
    ensures |r| == |params|
    ensures forall i :: 0 <= i < |params| ==> r[i] == ResolveParam(spec, params[i])
  {
    if params == [] then []
    else ResolveParams(spec, params[..|params| - 1]) + [ResolveParam(spec, params[|params| - 1])]
  }

  /** `get_parameters_from_spec`: resolves each parameter in order. */
  method GetParameters(spec: Json, params: seq<Json>) returns (resolved: seq<Json>)
    ensures resolved == ResolveParams(spec, params)
  {
    resolved := [];
    var i := 0;
    while i < |params|
      invariant i <= |params|
      invariant |resolved| == i
      invariant forall k :: 0 <= k < i ==> resolved[k] == ResolveParam(spec, params[k])
    {
      var param := params[i];
      var ref := Get(param, "$ref");
      if ref.Some? {
        if ref.value.JStr? {
          var target := ResolveRef(spec, ref.value.s);
          resolved := resolved + [target];
        } else {
          resolved := resolved + [JObj([])];
        }
      } else {
        resolved := resolved + [param];
      }
      i := i + 1;
    }
  }

  /** `p.get("name")`. */
  function NameOf(p: Json): Json {
    GetOr(p, "name", JNull)
  }

  /** `{p.get("name"): p for p in ps if p.get("name")}`: a later parameter of the same name replaces an earlier one. */
  function ByName(ps: seq<Json>): seq<(Json, Json)> {
    if ps == [] then []
    else
      var p := ps[|ps| - 1];
      var d := ByName(ps[..|ps| - 1]);
      if Truthy(NameOf(p)) then Put(d, NameOf(p), p) else d
  }

  /** The parameters of a list keyed by name, each name once. */
  lemma {:induction false} ByNameUnique(ps: seq<Json>)
    ensures NoDup(Keys(ByName(ps)))
  {
    if ps != [] {
      var p := ps[|ps| - 1];
      ByNameUnique(ps[..|ps| - 1]);
      if Truthy(NameOf(p)) {
        PutUnique(ByName(ps[..|ps| - 1]), NameOf(p), p);
      }
    }
  }

  function ParamsByName(spec: Json, params: seq<Json>): seq<(Json, Json)> {
    ByName(ResolveParams(spec, params))
  }

  /** `f"{method.upper()} {path}"`, the location of an operation's findings. */
  function Loc(verb: string, path: string): string {
    Upper(verb) + " " + path
  }

  /** `required` is truthy, or the parameter is in the path. */
  predicate IsRequired(p: Json) {
    Truthy(GetOr(p, "required", JBool(false))) || GetOr(p, "in", JNull) == JStr("path")
  }

  /** The categories `compare_parameters` reports. */
  predicate ParameterCategory(c: string) {
    c == "missing_parameter" || c == "parameter_location" || c == "parameter_required" || c == "extra_parameter"
  }

  /** Each block of findings obeys the severity rules, so their concatenation does. */
  lemma FlattenClassified(bs: seq<seq<Difference>>)
    requires forall i :: 0 <= i < |bs| ==> AllClassified(bs[i])
    ensures AllClassified(Flatten(bs))
  {
    forall d | d in Flatten(bs)
      ensures Classified(d)
    {
      FlattenMember(bs, d);
    }
  }

  /** The findings for one reference parameter. */
  function MissingParamDiffs(entry: (Json, Json), actualByName: seq<(Json, Json)>, loc: string): (r: seq<Difference>)
    ensures AllClassified(r)
    ensures forall d | d in r :: ParameterCategory(d.category) && d.path == loc
  {
    var name, refParam := entry.0, entry.1;
    match Lookup(actualByName, name)
    case None =>
      var req := IsRequired(refParam);
      [Difference(if req then Critical else Warning, "missing_parameter", loc,
        "Missing " + (if req then "required " else "") + "parameter: " + Show(name), name, JNull)]
    case Some(actualParam) =>
      var refIn, actualIn := GetOr(refParam, "in", JNull), GetOr(actualParam, "in", JNull);
      (if refIn != actualIn
       then [Difference(Warning, "parameter_location", loc, "Parameter '" + Show(name) + "' in wrong location", refIn, actualIn)]
       else [])
      + (if refIn == JStr("query") && Truthy(GetOr(refParam, "required", JBool(false)))
            && !Truthy(GetOr(actualParam, "required", JBool(false)))
         then [Difference(Warning, "parameter_required", loc, "Parameter '" + Show(name) + "' should be required", JBool(true), JBool(false))]
         else [])
  }

  function MissingParamBlocks(refByName: seq<(Json, Json)>, actualByName: seq<(Json, Json)>, loc: string): (bs: seq<seq<Difference>>)
    ensures |bs| == |refByName|
    ensures forall i :: 0 <= i < |bs| ==> bs[i] == MissingParamDiffs(refByName[i], actualByName, loc)
  {
    seq(|refByName|, i requires 0 <= i < |refByName| => MissingParamDiffs(refByName[i], actualByName, loc))
  }

  function ExtraParamDiffs(entry: (Json, Json), refByName: seq<(Json, Json)>, loc: string): (r: seq<Difference>)
    ensures forall d | d in r :: d.severity == Info && d.category == "extra_parameter" && d.path == loc
  {
    if Lookup(refByName, entry.0).None?
    then [Difference(Info, "extra_parameter", loc, "Extra parameter not in reference spec: " + Show(entry.0), JNull, entry.0)]
    else []
  }

  function ExtraParamBlocks(actualByName: seq<(Json, Json)>, refByName: seq<(Json, Json)>, loc: string): (bs: seq<seq<Difference>>)
    ensures |bs| == |actualByName|
    ensures forall i :: 0 <= i < |bs| ==> bs[i] == ExtraParamDiffs(actualByName[i], refByName, loc)
  {
    seq(|actualByName|, i requires 0 <= i < |actualByName| => ExtraParamDiffs(actualByName[i], refByName, loc))
  }

  /** `compare_parameters`: the reference parameters' findings, then the served-only parameters. */
  function CompareParametersSpec(refSpec: Json, actualSpec: Json, refParams: seq<Json>, actualParams: seq<Json>, path: string, verb: string): seq<Difference>
  {
    var rb, ab, loc := ParamsByName(refSpec, refParams), ParamsByName(actualSpec, actualParams), Loc(verb, path);
    Flatten(MissingParamBlocks(rb, ab, loc)) + Flatten(ExtraParamBlocks(ab, rb, loc))
  }

  /** Every parameter finding obeys the severity rules, is of a parameter category, and is located at the operation. */
  lemma ParametersClassified(refSpec: Json, actualSpec: Json, refParams: seq<Json>, actualParams: seq<Json>, path: string, verb: string)
    ensures var r := CompareParametersSpec(refSpec, actualSpec, refParams, actualParams, path, verb);
      AllClassified(r) && forall d | d in r :: ParameterCategory(d.category) && d.path == Loc(verb, path)
  {
    var rb, ab, loc := ParamsByName(refSpec, refParams), ParamsByName(actualSpec, actualParams), Loc(verb, path);
    var mb, eb := MissingParamBlocks(rb, ab, loc), ExtraParamBlocks(ab, rb, loc);
    FlattenClassified(mb);
    forall d | d in Flatten(mb) + Flatten(eb)
      ensures Classified(d) && ParameterCategory(d.category) && d.path == loc
    {
      FlattenMember(mb, d);
      FlattenMember(eb, d);
    }
  }

  /**
   * A named reference parameter the served operation lacks is reported as
   * missing, critical exactly when it is required or lies in the path.
   */
  lemma MissingParameterReported(refSpec: Json, actualSpec: Json, refParams: seq<Json>, actualParams: seq<Json>, path: string, verb: string, name: Json)
    requires Lookup(ParamsByName(refSpec, refParams), name).Some?
    requires Lookup(ParamsByName(actualSpec, actualParams), name).None?
    ensures exists d :: (d in CompareParametersSpec(refSpec, actualSpec, refParams, actualParams, path, verb)
      && d.category == "missing_parameter" && d.expected == name
      && (d.severity == Critical <==> IsRequired(Lookup(ParamsByName(refSpec, refParams), name).value)))
  {
    var rb, ab, loc := ParamsByName(refSpec, refParams), ParamsByName(actualSpec, actualParams), Loc(verb, path);
    var mb := MissingParamBlocks(rb, ab, loc);
    LookupKeys(rb, name);
    var p := Lookup(rb, name).value;
    var i :| 0 <= i < |rb| && rb[i] == (name, p);
    var d := MissingParamDiffs(rb[i], ab, loc)[0];
    assert d in mb[i];
    FlattenMember(mb, d);
  }

  /** A parameter both operations name, declared in different places, is reported as a location warning. */
  lemma ParameterLocationReported(refSpec: Json, actualSpec: Json, refParams: seq<Json>, actualParams: seq<Json>, path: string, verb: string, name: Json)
    requires Lookup(ParamsByName(refSpec, refParams), name).Some?
    requires Lookup(ParamsByName(actualSpec, actualParams), name).Some?
    requires GetOr(Lookup(ParamsByName(refSpec, refParams), name).value, "in", JNull)
      != GetOr(Lookup(ParamsByName(actualSpec, actualParams), name).value, "in", JNull)
    ensures var rp, ap := Lookup(ParamsByName(refSpec, refParams), name).value, Lookup(ParamsByName(actualSpec, actualParams), name).value;
      Difference(Warning, "parameter_location", Loc(verb, path), "Parameter '" + Show(name) + "' in wrong location",
        GetOr(rp, "in", JNull), GetOr(ap, "in", JNull))
      in CompareParametersSpec(refSpec, actualSpec, refParams, actualParams, path, verb)
  {
    var rb, ab, loc := ParamsByName(refSpec, refParams), ParamsByName(actualSpec, actualParams), Loc(verb, path);
    var mb := MissingParamBlocks(rb, ab, loc);
    LookupKeys(rb, name);
    var i :| 0 <= i < |rb| && rb[i] == (name, Lookup(rb, name).value);
    var d := MissingParamDiffs(rb[i], ab, loc)[0];
    FlattenMember(mb, d);
  }

  /**
   * A query parameter the reference requires and the served operation
   * declares optional is reported as a warning.
   */
  lemma ParameterOptionalReported(refSpec: Json, actualSpec: Json, refParams: seq<Json>, actualParams: seq<Json>, path: string, verb: string, name: Json)
    requires Lookup(ParamsByName(refSpec, refParams), name).Some?
    requires Lookup(ParamsByName(actualSpec, actualParams), name).Some?
    requires var rp, ap := Lookup(ParamsByName(refSpec, refParams), name).value, Lookup(ParamsByName(actualSpec, actualParams), name).value;
      GetOr(rp, "in", JNull) == JStr("query")
      && Truthy(GetOr(rp, "required", JBool(false))) && !Truthy(GetOr(ap, "required", JBool(false)))
    ensures Difference(Warning, "parameter_required", Loc(verb, path), "Parameter '" + Show(name) + "' should be required",
      JBool(true), JBool(false)) in CompareParametersSpec(refSpec, actualSpec, refParams, actualParams, path, verb)
  {
    var rb, ab, loc := ParamsByName(refSpec, refParams), ParamsByName(actualSpec, actualParams), Loc(verb, path);
    var mb := MissingParamBlocks(rb, ab, loc);
    LookupKeys(rb, name);
    var i :| 0 <= i < |rb| && rb[i] == (name, Lookup(rb, name).value);
    var r := MissingParamDiffs(rb[i], ab, loc);
    var d := r[|r| - 1];
    FlattenMember(mb, d);
  }

  /** A parameter only the served operation names is reported as informational. */
  lemma ExtraParameterReported(refSpec: Json, actualSpec: Json, refParams: seq<Json>, actualParams: seq<Json>, path: string, verb: string, name: Json)
    requires Lookup(ParamsByName(actualSpec, actualParams), name).Some?
    requires Lookup(ParamsByName(refSpec, refParams), name).None?
    ensures Difference(Info, "extra_parameter", Loc(verb, path), "Extra parameter not in reference spec: " + Show(name), JNull, name)
      in CompareParametersSpec(refSpec, actualSpec, refParams, actualParams, path, verb)
  {
    var rb, ab, loc := ParamsByName(refSpec, refParams), ParamsByName(actualSpec, actualParams), Loc(verb, path);
    var eb := ExtraParamBlocks(ab, rb, loc);
    LookupKeys(ab, name);
    var k :| 0 <= k < |ab| && ab[k] == (name, Lookup(ab, name).value);
    var d := ExtraParamDiffs(ab[k], rb, loc)[0];
    FlattenMember(eb, d);
  }

  /**
   * A critical parameter finding names a reference parameter the served
   * operation lacks and that is required or lies in the path.
   */
  lemma CriticalParameterMissing(refSpec: Json, actualSpec: Json, refParams: seq<Json>, actualParams: seq<Json>, path: string, verb: string, d: Difference)
    requires d in CompareParametersSpec(refSpec, actualSpec, refParams, actualParams, path, verb)
    requires d.severity == Critical
    ensures d.category == "missing_parameter"
    ensures Lookup(ParamsByName(actualSpec, actualParams), d.expected).None?
    ensures Lookup(ParamsByName(refSpec, refParams), d.expected).Some?
    ensures IsRequired(Lookup(ParamsByName(refSpec, refParams), d.expected).value)
  {
    var rb, ab, loc := ParamsByName(refSpec, refParams), ParamsByName(actualSpec, actualParams), Loc(verb, path);
    var mb, eb := MissingParamBlocks(rb, ab, loc), ExtraParamBlocks(ab, rb, loc);
    FlattenMember(eb, d);
    assert d !in Flatten(eb);
    assert d in Flatten(mb);
    FlattenMember(mb, d);
    var i :| 0 <= i < |mb| && d in mb[i];
    CriticalParameterOf(rb[i], ab, loc, d);
    ByNameUnique(ResolveParams(refSpec, refParams));
    LookupAt(rb, i);
  }

  lemma CriticalParameterOf(entry: (Json, Json), actualByName: seq<(Json, Json)>, loc: string, d: Difference)
    requires d in MissingParamDiffs(entry, actualByName, loc) && d.severity == Critical
    ensures d.category == "missing_parameter" && d.expected == entry.0
    ensures Lookup(actualByName, entry.0).None? && IsRequired(entry.1)
  {
  }

  /** `compare_parameters`: resolves and keys both lists, then runs its two loops. */
  method CompareParameters(refSpec: Json, actualSpec: Json, refParams: seq<Json>, actualParams: seq<Json>, path: string, verb: string)
    returns (diffs: seq<Difference>)
    ensures diffs == CompareParametersSpec(refSpec, actualSpec, refParams, actualParams, path, verb)
  {
    var refResolved := GetParameters(refSpec, refParams);
    var actualResolved := GetParameters(actualSpec, actualParams);
    var rb, ab := ByName(refResolved), ByName(actualResolved);
    var loc := Loc(verb, path);
    var missing := ReportMissingParams(rb, ab, loc);
    var extra := ReportExtraParams(ab, rb, loc);
    diffs := missing + extra;
  }

  /** The loop of `compare_parameters` over the reference parameters. */
  method ReportMissingParams(refByName: seq<(Json, Json)>, actualByName: seq<(Json, Json)>, loc: string) returns (diffs: seq<Difference>)
    ensures diffs == Flatten(MissingParamBlocks(refByName, actualByName, loc))
  {
    var mb := MissingParamBlocks(refByName, actualByName, loc);
    diffs := [];
    var i := 0;
    while i < |refByName|
      invariant i <= |refByName|
      invariant diffs == Flatten(mb[..i])
    {
      FlattenStep(mb, i);
      var step := CheckParameter(refByName[i], actualByName, loc);
      diffs := diffs + step;
      i := i + 1;
    }
    assert mb[..|refByName|] == mb;
  }

  /** One pass of the loop of `compare_parameters` over the reference parameters. */
  method CheckParameter(entry: (Json, Json), actualByName: seq<(Json, Json)>, loc: string) returns (diffs: seq<Difference>)
    ensures diffs == MissingParamDiffs(entry, actualByName, loc)
  {
    var name, refParam := entry.0, entry.1;
    var found := Lookup(actualByName, name);
    if found.None? {
      var req := IsRequired(refParam);
      return [Difference(if req then Critical else Warning, "missing_parameter", loc,
        "Missing " + (if req then "required " else "") + "parameter: " + Show(name), name, JNull)];
    }
    var actualParam := found.value;
    var refIn, actualIn := GetOr(refParam, "in", JNull), GetOr(actualParam, "in", JNull);
    diffs := [];
    if refIn != actualIn {
      diffs := [Difference(Warning, "parameter_location", loc, "Parameter '" + Show(name) + "' in wrong location", refIn, actualIn)];
    }
    if refIn == JStr("query") {
      var refRequired, actualRequired := GetOr(refParam, "required", JBool(false)), GetOr(actualParam, "required", JBool(false));
      if Truthy(refRequired) && !Truthy(actualRequired) {
        diffs := diffs + [Difference(Warning, "parameter_required", loc, "Parameter '" + Show(name) + "' should be required", JBool(true), JBool(false))];
      }
    }
  }

  /** The loop of `compare_parameters` over the served parameters. */
  method ReportExtraParams(actualByName: seq<(Json, Json)>, refByName: seq<(Json, Json)>, loc: string) returns (diffs: seq<Difference>)
    ensures diffs == Flatten(ExtraParamBlocks(actualByName, refByName, loc))
  {
    var eb := ExtraParamBlocks(actualByName, refByName, loc);
    diffs := [];
    var k := 0;
    while k < |actualByName|
      invariant k <= |actualByName|
      invariant diffs == Flatten(eb[..k])
    {
      FlattenStep(eb, k);
      var name := actualByName[k].0;
      if Lookup(refByName, name).None? {
        diffs := diffs + [Difference(Info, "extra_parameter", loc, "Extra parameter not in reference spec: " + Show(name), JNull, name)];
      }
      k := k + 1;
    }
    assert eb[..|actualByName|] == eb;
  }

  // ---------------------------------------------------------------- responses

  /** The categories `compare_responses` reports. */
  predicate ResponseCategory(c: string) {
    c == "missing_response_code" || c == "extra_response_code"
  }

  /** The finding for one reference response code: critical for a success code, a warning otherwise. */
  function MissingCodeDiffs(code: string, actualResponses: seq<(string, Json)>, loc: string): (r: seq<Difference>)
    ensures AllClassified(r)
    ensures forall d | d in r :: d.category == "missing_response_code" && d.path == loc
  {
    if Lookup(actualResponses, code).Some? then []
    else [Difference(if code in CRITICAL_CODES then Critical else Warning, "missing_response_code", loc,
      "Missing response code: " + code, JStr(code), JNull)]
  }

  function MissingCodeBlocks(codes: seq<string>, actualResponses: seq<(string, Json)>, loc: string): (bs: seq<seq<Difference>>)
    ensures |bs| == |codes|
    ensures forall i :: 0 <= i < |bs| ==> bs[i] == MissingCodeDiffs(codes[i], actualResponses, loc)
  {
    seq(|codes|, i requires 0 <= i < |codes| => MissingCodeDiffs(codes[i], actualResponses, loc))
  }

  function ExtraCodeDiffs(code: string, refResponses: seq<(string, Json)>, loc: string): (r: seq<Difference>)
    ensures forall d | d in r :: d.severity == Info && d.category == "extra_response_code" && d.path == loc
  {
    if Lookup(refResponses, code).Some? then []
    else [Difference(Info, "extra_response_code", loc, "Extra response code not in reference spec: " + code, JNull, JStr(code))]
  }

  function ExtraCodeBlocks(codes: seq<string>, refResponses: seq<(string, Json)>, loc: string): (bs: seq<seq<Difference>>)
    ensures |bs| == |codes|
    ensures forall i :: 0 <= i < |bs| ==> bs[i] == ExtraCodeDiffs(codes[i], refResponses, loc)
  {
    seq(|codes|, i requires 0 <= i < |codes| => ExtraCodeDiffs(codes[i], refResponses, loc))
  }

  /** `compare_responses`: the reference codes' findings, then the served-only codes. */
  function CompareResponsesSpec(refResponses: Json, actualResponses: Json, path: string, verb: string): seq<Difference> {
    var rr, ar, loc := Entries(refResponses), Entries(actualResponses), Loc(verb, path);
    Flatten(MissingCodeBlocks(Keys(rr), ar, loc)) + Flatten(ExtraCodeBlocks(Keys(ar), rr, loc))
  }

  /** Every response finding obeys the severity rules, is of a response category, and is located at the operation. */
  lemma ResponsesClassified(refResponses: Json, actualResponses: Json, path: string, verb: string)
    ensures var r := CompareResponsesSpec(refResponses, actualResponses, path, verb);
      AllClassified(r) && forall d | d in r :: ResponseCategory(d.category) && d.path == Loc(verb, path)
  {
    var rr, ar, loc := Entries(refResponses), Entries(actualResponses), Loc(verb, path);
    var mb, eb := MissingCodeBlocks(Keys(rr), ar, loc), ExtraCodeBlocks(Keys(ar), rr, loc);
    forall d | d in Flatten(mb) + Flatten(eb)
      ensures Classified(d) && ResponseCategory(d.category) && d.path == loc
    {
      FlattenMember(mb, d);
      FlattenMember(eb, d);
    }
  }

  /** A reference response code the served operation lacks is reported, critical exactly for 200, 201 and 204. */
  lemma MissingCodeReported(refResponses: Json, actualResponses: Json, path: string, verb: string, code: string)
    requires code in Keys(Entries(refResponses)) && code !in Keys(Entries(actualResponses))
    ensures Difference(if code in CRITICAL_CODES then Critical else Warning, "missing_response_code", Loc(verb, path),
      "Missing response code: " + code, JStr(code), JNull) in CompareResponsesSpec(refResponses, actualResponses, path, verb)
  {
    var rr, ar, loc := Entries(refResponses), Entries(actualResponses), Loc(verb, path);
    var mb := MissingCodeBlocks(Keys(rr), ar, loc);
    LookupKeys(ar, code);
    var i :| 0 <= i < |Keys(rr)| && Keys(rr)[i] == code;
    FlattenMember(mb, MissingCodeDiffs(code, ar, loc)[0]);
  }

  /** A response code only the served operation has is reported as informational. */
  lemma ExtraCodeReported(refResponses: Json, actualResponses: Json, path: string, verb: string, code: string)
    requires code in Keys(Entries(actualResponses)) && code !in Keys(Entries(refResponses))
    ensures Difference(Info, "extra_response_code", Loc(verb, path), "Extra response code not in reference spec: " + code,
      JNull, JStr(code)) in CompareResponsesSpec(refResponses, actualResponses, path, verb)
  {
    var rr, ar, loc := Entries(refResponses), Entries(actualResponses), Loc(verb, path);
    var eb := ExtraCodeBlocks(Keys(ar), rr, loc);
    LookupKeys(rr, code);
    var i :| 0 <= i < |Keys(ar)| && Keys(ar)[i] == code;
    FlattenMember(eb, ExtraCodeDiffs(code, rr, loc)[0]);
  }

  lemma CriticalCodeOf(code: string, actualResponses: seq<(string, Json)>, loc: string, d: Difference)
    requires d in MissingCodeDiffs(code, actualResponses, loc) && d.severity == Critical
    ensures code in CRITICAL_CODES && code !in Keys(actualResponses)
  {
    LookupKeys(actualResponses, code);
  }

  /** The response comparison has a critical finding exactly when a success code of the reference is not served. */
  lemma ResponsesCriticalIff(refResponses: Json, actualResponses: Json, path: string, verb: string)
    ensures (exists d :: d in CompareResponsesSpec(refResponses, actualResponses, path, verb) && d.severity == Critical)
      <==> (exists code :: code in Keys(Entries(refResponses)) && code in CRITICAL_CODES && code !in Keys(Entries(actualResponses)))
  {
    var rr, ar, loc := Entries(refResponses), Entries(actualResponses), Loc(verb, path);
    var mb, eb := MissingCodeBlocks(Keys(rr), ar, loc), ExtraCodeBlocks(Keys(ar), rr, loc);
    if exists d :: d in CompareResponsesSpec(refResponses, actualResponses, path, verb) && d.severity == Critical {
      var d :| d in Flatten(mb) + Flatten(eb) && d.severity == Critical;
      FlattenMember(eb, d);
      FlattenMember(mb, d);
      var i :| 0 <= i < |mb| && d in mb[i];
      CriticalCodeOf(Keys(rr)[i], ar, loc, d);
    }
    if exists code :: code in Keys(rr) && code in CRITICAL_CODES && code !in Keys(ar) {
      var code :| code in Keys(rr) && code in CRITICAL_CODES && code !in Keys(ar);
      MissingCodeReported(refResponses, actualResponses, path, verb, code);
    }
  }

  /** `compare_responses`: its two loops over the response codes. */
  method CompareResponses(refResponses: Json, actualResponses: Json, path: string, verb: string) returns (diffs: seq<Difference>)
    ensures diffs == CompareResponsesSpec(refResponses, actualResponses, path, verb)
  {
    var rr, ar, loc := Entries(refResponses), Entries(actualResponses), Loc(verb, path);
    var missing := ReportMissingCodes(Keys(rr), ar, loc);
    var extra := ReportExtraCodes(Keys(ar), rr, loc);
    diffs := missing + extra;
  }

  /** The loop of `compare_responses` over the reference codes. */
  method ReportMissingCodes(refCodes: seq<string>, actualResponses: seq<(string, Json)>, loc: string) returns (diffs: seq<Difference>)
    ensures diffs == Flatten(MissingCodeBlocks(refCodes, actualResponses, loc))
  {
    var mb := MissingCodeBlocks(refCodes, actualResponses, loc);
    diffs := [];
    var i := 0;
    while i < |refCodes|
      invariant i <= |refCodes|
      invariant diffs == Flatten(mb[..i])
    {
      FlattenStep(mb, i);
      var code := refCodes[i];
      if Lookup(actualResponses, code).None? {
        var severity := if code in CRITICAL_CODES then Critical else Warning;
        diffs := diffs + [Difference(severity, "missing_response_code", loc, "Missing response code: " + code, JStr(code), JNull)];
      }
      i := i + 1;
    }
    assert mb[..|refCodes|] == mb;
  }

  /** The loop of `compare_responses` over the served codes. */
  method ReportExtraCodes(actualCodes: seq<string>, refResponses: seq<(string, Json)>, loc: string) returns (diffs: seq<Difference>)
    ensures diffs == Flatten(ExtraCodeBlocks(actualCodes, refResponses, loc))
  {
    var eb := ExtraCodeBlocks(actualCodes, refResponses, loc);
    diffs := [];
    var k := 0;
    while k < |actualCodes|
      invariant k <= |actualCodes|
      invariant diffs == Flatten(eb[..k])
    {
      FlattenStep(eb, k);
      var code := actualCodes[k];
      if Lookup(refResponses, code).None? {
        diffs := diffs + [Difference(Info, "extra_response_code", loc, "Extra response code not in reference spec: " + code, JNull, JStr(code))];
      }
      k := k + 1;
    }
    assert eb[..|actualCodes|] == eb;
  }

  // ---------------------------------------------------------------- operations

  /** The categories `compare_operation` reports. */
  predicate OperationCategory(c: string) {
    c == "missing_operation_id" || c == "different_operation_id" || c == "missing_tag"
    || ParameterCategory(c) || ResponseCategory(c)
  }

  /** A missing `operationId` is a warning; a different one is informational; none in the reference is nothing. */
  function OperationIdDiffs(refOp: Json, actualOp: Json, loc: string): (r: seq<Difference>)
    ensures AllClassified(r)
    ensures forall d | d in r :: (d.category == "missing_operation_id" || d.category == "different_operation_id") && d.path == loc
  {
    var refId, actualId := GetOr(refOp, "operationId", JNull), GetOr(actualOp, "operationId", JNull);
    if Truthy(refId) && !Truthy(actualId) then
      [Difference(Warning, "missing_operation_id", loc, "Missing operationId", refId, JNull)]
    else if Truthy(refId) && Truthy(actualId) && refId != actualId then
      [Difference(Info, "different_operation_id", loc, "Different operationId", refId, actualId)]
    else []
  }

  /** `set(ref_tags) - set(actual_tags)`, listed once each in order of first appearance. */
  function MissingTags(refTags: seq<Json>, actualTags: seq<Json>): (r: seq<Json>)
    ensures NoDup(r)
    ensures forall t :: t in r <==> t in refTags && t !in actualTags
  {
    if refTags == [] then []
    else
      var init, t := MissingTags(refTags[..|refTags| - 1], actualTags), refTags[|refTags| - 1];
      assert refTags == refTags[..|refTags| - 1] + [t];
      if t in actualTags || t in init then init
      else
        NoDupAppend(init, t);
        init + [t]
  }

  /** One `missing_tag` warning per missing tag. */
  function TagDiffs(tags: seq<Json>, loc: string): (r: seq<Difference>)
    ensures |r| == |tags|
    ensures forall i :: 0 <= i < |r| ==> r[i] == Difference(Warning, "missing_tag", loc, "Missing tag: " + Show(tags[i]), tags[i], JNull)
  {
    seq(|tags|, i requires 0 <= i < |tags| => Difference(Warning, "missing_tag", loc, "Missing tag: " + Show(tags[i]), tags[i], JNull))
  }

  function TagsOf(op: Json): seq<Json> {
    Items(GetOr(op, "tags", JArr([])))
  }

  function ParamsOf(op: Json): seq<Json> {
    Items(GetOr(op, "parameters", JArr([])))
  }

  function ResponsesOf(op: Json): Json {
    GetOr(op, "responses", JObj([]))
  }

  /** `compare_operation`: operationId, tags, parameters, then responses. */
  function CompareOperationSpec(refSpec: Json, actualSpec: Json, refOp: Json, actualOp: Json, path: string, verb: string): seq<Difference> {
    var loc := Loc(verb, path);
    OperationIdDiffs(refOp, actualOp, loc)
    + TagDiffs(MissingTags(TagsOf(refOp), TagsOf(actualOp)), loc)
    + CompareParametersSpec(refSpec, actualSpec, ParamsOf(refOp), ParamsOf(actualOp), path, verb)
    + CompareResponsesSpec(ResponsesOf(refOp), ResponsesOf(actualOp), path, verb)
  }

  /** Every operation finding obeys the severity rules, is of an operation category, and is located at the operation. */
  lemma OperationClassified(refSpec: Json, actualSpec: Json, refOp: Json, actualOp: Json, path: string, verb: string)
    ensures var r := CompareOperationSpec(refSpec, actualSpec, refOp, actualOp, path, verb);
      AllClassified(r) && forall d | d in r :: OperationCategory(d.category) && d.path == Loc(verb, path)
  {
    ParametersClassified(refSpec, actualSpec, ParamsOf(refOp), ParamsOf(actualOp), path, verb);
    ResponsesClassified(ResponsesOf(refOp), ResponsesOf(actualOp), path, verb);
  }

  /** A tag is reported missing exactly when the reference operation has it and the served one does not. */
  lemma MissingTagsReported(refSpec: Json, actualSpec: Json, refOp: Json, actualOp: Json, path: string, verb: string, t: Json)
    ensures (exists d :: d in CompareOperationSpec(refSpec, actualSpec, refOp, actualOp, path, verb) && d.category == "missing_tag" && d.expected == t)
      <==> t in TagsOf(refOp) && t !in TagsOf(actualOp)
  {
    var loc := Loc(verb, path);
    ParametersClassified(refSpec, actualSpec, ParamsOf(refOp), ParamsOf(actualOp), path, verb);
    ResponsesClassified(ResponsesOf(refOp), ResponsesOf(actualOp), path, verb);
    TagsAmong(OperationIdDiffs(refOp, actualOp, loc), MissingTags(TagsOf(refOp), TagsOf(actualOp)), loc,
      CompareParametersSpec(refSpec, actualSpec, ParamsOf(refOp), ParamsOf(actualOp), path, verb),
      CompareResponsesSpec(ResponsesOf(refOp), ResponsesOf(actualOp), path, verb), t);
  }

  /** No tag is reported missing twice. */
  lemma MissingTagsOnce(refSpec: Json, actualSpec: Json, refOp: Json, actualOp: Json, path: string, verb: string, i: nat, j: nat)
    requires var r := CompareOperationSpec(refSpec, actualSpec, refOp, actualOp, path, verb);
      i < j < |r| && r[i].category == "missing_tag" && r[j].category == "missing_tag"
    ensures var r := CompareOperationSpec(refSpec, actualSpec, refOp, actualOp, path, verb);
      r[i].expected != r[j].expected
  {
    var loc := Loc(verb, path);
    ParametersClassified(refSpec, actualSpec, ParamsOf(refOp), ParamsOf(actualOp), path, verb);
    ResponsesClassified(ResponsesOf(refOp), ResponsesOf(actualOp), path, verb);
    TagsDistinct(OperationIdDiffs(refOp, actualOp, loc), MissingTags(TagsOf(refOp), TagsOf(actualOp)), loc,
      CompareParametersSpec(refSpec, actualSpec, ParamsOf(refOp), ParamsOf(actualOp), path, verb),
      CompareResponsesSpec(ResponsesOf(refOp), ResponsesOf(actualOp), path, verb), i, j);
  }

  /** Among other findings of no tag category, `missing_tag` findings name exactly the missing tags. */
  lemma TagsAmong(ids: seq<Difference>, missing: seq<Json>, loc: string, ps: seq<Difference>, rs: seq<Difference>, t: Json)
    requires forall d | d in ids :: d.category != "missing_tag"
    requires forall d | d in ps :: ParameterCategory(d.category)
    requires forall d | d in rs :: ResponseCategory(d.category)
    ensures var r := ids + TagDiffs(missing, loc) + ps + rs;
      (exists d :: d in r && d.category == "missing_tag" && d.expected == t) <==> t in missing
  {
    var tags := TagDiffs(missing, loc);
    var r := ids + tags + ps + rs;
    if exists d :: d in r && d.category == "missing_tag" && d.expected == t {
      var d :| d in r && d.category == "missing_tag" && d.expected == t;
      assert d in tags;
      var k :| 0 <= k < |tags| && tags[k] == d;
      assert missing[k] == t;
    }
    if t in missing {
      var k :| 0 <= k < |missing| && missing[k] == t;
      assert tags[k] in r;
    }
  }

  /** Among other findings of no tag category, two `missing_tag` findings name different tags when the missing tags are distinct. */
  lemma TagsDistinct(ids: seq<Difference>, missing: seq<Json>, loc: string, ps: seq<Difference>, rs: seq<Difference>, i: nat, j: nat)
    requires NoDup(missing)
    requires forall d | d in ids :: d.category != "missing_tag"
    requires forall d | d in ps :: ParameterCategory(d.category)
    requires forall d | d in rs :: ResponseCategory(d.category)
    requires var r := ids + TagDiffs(missing, loc) + ps + rs;
      i < j < |r| && r[i].category == "missing_tag" && r[j].category == "missing_tag"
    ensures var r := ids + TagDiffs(missing, loc) + ps + rs;
      r[i].expected != r[j].expected
  {
    var tags := TagDiffs(missing, loc);
    TagAt(ids, tags, ps, rs, i);
    TagAt(ids, tags, ps, rs, j);
  }

  /** Inside `ids + tags + ps + rs`, a missing-tag finding can only come from `tags`. */
  lemma TagAt(ids: seq<Difference>, tags: seq<Difference>, ps: seq<Difference>, rs: seq<Difference>, i: nat)
    requires i < |ids + tags + ps + rs| && (ids + tags + ps + rs)[i].category == "missing_tag"
    requires forall d | d in ids + ps + rs :: d.category != "missing_tag"
    ensures |ids| <= i < |ids| + |tags| && (ids + tags + ps + rs)[i] == tags[i - |ids|]
  {
  }

  /** `compare_operation`, with its loop over the missing tags. */
  method CompareOperation(refSpec: Json, actualSpec: Json, refOp: Json, actualOp: Json, path: string, verb: string)
    returns (diffs: seq<Difference>)
    ensures diffs == CompareOperationSpec(refSpec, actualSpec, refOp, actualOp, path, verb)
  {
    var loc := Loc(verb, path);
    diffs := CheckOperationId(refOp, actualOp, loc);
    var missing := MissingTags(TagsOf(refOp), TagsOf(actualOp));
    var tags := ReportMissingTags(missing, loc);
    diffs := diffs + tags;
    var ps := CompareParameters(refSpec, actualSpec, ParamsOf(refOp), ParamsOf(actualOp), path, verb);
    diffs := diffs + ps;
    var rs := CompareResponses(ResponsesOf(refOp), ResponsesOf(actualOp), path, verb);
    diffs := diffs + rs;
  }

  /** The loop of `compare_operation` over the missing tags. */
  method ReportMissingTags(missing: seq<Json>, loc: string) returns (diffs: seq<Difference>)
    ensures diffs == TagDiffs(missing, loc)
  {
    diffs := [];
    var i := 0;
    while i < |missing|
      invariant i <= |missing|
      invariant diffs == TagDiffs(missing, loc)[..i]
    {
      var tag := missing[i];
      assert TagDiffs(missing, loc)[..i + 1] == TagDiffs(missing, loc)[..i] + [TagDiffs(missing, loc)[i]];
      diffs := diffs + [Difference(Warning, "missing_tag", loc, "Missing tag: " + Show(tag), tag, JNull)];
      i := i + 1;
    }
    assert TagDiffs(missing, loc)[..|missing|] == TagDiffs(missing, loc);
  }

  /** The `operationId` check of `compare_operation`. */
  method CheckOperationId(refOp: Json, actualOp: Json, loc: string) returns (diffs: seq<Difference>)
    ensures diffs == OperationIdDiffs(refOp, actualOp, loc)
  {
    var refId, actualId := GetOr(refOp, "operationId", JNull), GetOr(actualOp, "operationId", JNull);
    diffs := [];
    if Truthy(refId) && !Truthy(actualId) {
      diffs := [Difference(Warning, "missing_operation_id", loc, "Missing operationId", refId, JNull)];
    } else if Truthy(refId) && Truthy(actualId) && refId != actualId {
      diffs := [Difference(Info, "different_operation_id", loc, "Different operationId", refId, actualId)];
    }
  }

  // ---------------------------------------------------------------- whole documents

  /** A path-item key starting with `x-` is a vendor extension, not an HTTP method. */
  predicate IsExtension(m: string) {
    StartsWith(m, "x-")
  }

  /** `spec.get("paths", {})`. */
  function PathsOf(spec: Json): seq<(string, Json)> {
    Entries(GetOr(spec, "paths", JObj([])))
  }

  /** `{normalize_path(p): p for p in paths}`: a later path of the same shape replaces an earlier one. */
  function NormIndex(paths: seq<(string, Json)>): seq<(string, string)> {
    if paths == [] then []
    else
      var p := paths[|paths| - 1].0;
      Put(NormIndex(paths[..|paths| - 1]), NormalizePath(p), p)
  }

  /** The index lists each normalised shape once. */
  lemma {:induction false} NormIndexUnique(paths: seq<(string, Json)>)
    ensures NoDup(Keys(NormIndex(paths)))
  {
    if paths != [] {
      var init := paths[..|paths| - 1];
      NormIndexUnique(init);
      PutUnique(NormIndex(init), NormalizePath(paths[|paths| - 1].0), paths[|paths| - 1].0);
    }
  }

  /** The index maps each shape to a path of that shape. */
  lemma {:induction false} NormIndexEntries(paths: seq<(string, Json)>, e: (string, string))
    requires e in NormIndex(paths)
    ensures e.0 == NormalizePath(e.1) && e.1 in Keys(paths)
  {
    var init := paths[..|paths| - 1];
    var p := paths[|paths| - 1].0;
    KeysLast(paths);
    PutMember(NormIndex(init), NormalizePath(p), p, e);
    if e != (NormalizePath(p), p) {
      NormIndexEntries(init, e);
    }
  }

  /** The index lists the shape of every path. */
  lemma {:induction false} NormIndexCovers(paths: seq<(string, Json)>, p: string)
    requires p in Keys(paths)
    ensures NormalizePath(p) in Keys(NormIndex(paths))
  {
    var init := paths[..|paths| - 1];
    var last := paths[|paths| - 1].0;
    KeysLast(paths);
    PutKeys(NormIndex(init), NormalizePath(last), last);
    if p != last {
      NormIndexCovers(init, p);
    }
  }

  /** The methods of a path: the entries of its path item. */
  function MethodsOf(paths: seq<(string, Json)>, p: string): seq<(string, Json)> {
    match Lookup(paths, p)
    case Some(item) => Entries(item)
    case None => []
  }

  /** The findings for one reference method: missing is critical, present is compared as an operation. */
  function MissingMethodDiffs(refSpec: Json, actualSpec: Json, m: (string, Json), actualMethods: seq<(string, Json)>, refPath: string): seq<Difference> {
    if IsExtension(m.0) then []
    else
      match Lookup(actualMethods, m.0)
      case None =>
        [Difference(Critical, "missing_method", refPath, "Missing HTTP method: " + Upper(m.0), JStr(Upper(m.0)), JNull)]
      case Some(actualOp) =>
        CompareOperationSpec(refSpec, actualSpec, m.1, actualOp, refPath, m.0)
  }

  /** The endpoint- and method-level categories are none of an operation's. */
  lemma EndpointCategoriesDistinct()
    ensures !OperationCategory("missing_method") && !OperationCategory("extra_method")
    ensures !OperationCategory("missing_endpoint") && !OperationCategory("extra_endpoint")
  {
  }

  /** A reference method's findings obey the severity rules; a `missing_method` one means the served endpoint lacks it. */
  lemma MissingMethodClassified(refSpec: Json, actualSpec: Json, m: (string, Json), actualMethods: seq<(string, Json)>, refPath: string)
    ensures var r := MissingMethodDiffs(refSpec, actualSpec, m, actualMethods, refPath);
      AllClassified(r) && forall d | d in r :: d.category == "missing_method" ==> d.path == refPath && Lookup(actualMethods, m.0).None?
  {
    if !IsExtension(m.0) && Lookup(actualMethods, m.0).Some? {
      EndpointCategoriesDistinct();
      OperationClassified(refSpec, actualSpec, m.1, Lookup(actualMethods, m.0).value, refPath, m.0);
    }
  }

  function MissingMethodBlocks(refSpec: Json, actualSpec: Json, refMethods: seq<(string, Json)>, actualMethods: seq<(string, Json)>, refPath: string): (bs: seq<seq<Difference>>)
    ensures |bs| == |refMethods|
    ensures forall i :: 0 <= i < |bs| ==> bs[i] == MissingMethodDiffs(refSpec, actualSpec, refMethods[i], actualMethods, refPath)
  {
    seq(|refMethods|, i requires 0 <= i < |refMethods| => MissingMethodDiffs(refSpec, actualSpec, refMethods[i], actualMethods, refPath))
  }

  function ExtraMethodDiffs(m: (string, Json), refMethods: seq<(string, Json)>, actualPath: string): (r: seq<Difference>)
    ensures forall d | d in r :: d.severity == Info && d.category == "extra_method"
  {
    if IsExtension(m.0) || Lookup(refMethods, m.0).Some? then []
    else [Difference(Info, "extra_method", actualPath, "Extra HTTP method not in reference spec: " + Upper(m.0), JNull, JStr(Upper(m.0)))]
  }

  function ExtraMethodBlocks(actualMethods: seq<(string, Json)>, refMethods: seq<(string, Json)>, actualPath: string): (bs: seq<seq<Difference>>)
    ensures |bs| == |actualMethods|
    ensures forall i :: 0 <= i < |bs| ==> bs[i] == ExtraMethodDiffs(actualMethods[i], refMethods, actualPath)
  {
    seq(|actualMethods|, i requires 0 <= i < |actualMethods| => ExtraMethodDiffs(actualMethods[i], refMethods, actualPath))
  }

  /** The method-by-method comparison of an endpoint both documents have. */
  function MethodDiffs(refSpec: Json, actualSpec: Json, refMethods: seq<(string, Json)>, actualMethods: seq<(string, Json)>, refPath: string, actualPath: string): seq<Difference> {
    Flatten(MissingMethodBlocks(refSpec, actualSpec, refMethods, actualMethods, refPath))
    + Flatten(ExtraMethodBlocks(actualMethods, refMethods, actualPath))
  }

  /** The method findings obey the severity rules, and a missing method is reported at the reference path. */
  lemma MethodsClassified(refSpec: Json, actualSpec: Json, refMethods: seq<(string, Json)>, actualMethods: seq<(string, Json)>, refPath: string, actualPath: string)
    ensures var r := MethodDiffs(refSpec, actualSpec, refMethods, actualMethods, refPath, actualPath);
      AllClassified(r) && forall d | d in r :: d.category == "missing_method" ==> d.path == refPath
  {
    var mb := MissingMethodBlocks(refSpec, actualSpec, refMethods, actualMethods, refPath);
    var eb := ExtraMethodBlocks(actualMethods, refMethods, actualPath);
    forall d | d in Flatten(mb) + Flatten(eb)
      ensures Classified(d) && (d.category == "missing_method" ==> d.path == refPath)
    {
      FlattenMember(mb, d);
      FlattenMember(eb, d);
      if d in Flatten(mb) {
        var i :| 0 <= i < |mb| && d in mb[i];
        MissingMethodClassified(refSpec, actualSpec, refMethods[i], actualMethods, refPath);
      }
    }
  }

  /** A reference method, other than an extension, that the served endpoint lacks is reported as critical. */
  lemma MissingMethodReported(refSpec: Json, actualSpec: Json, refMethods: seq<(string, Json)>, actualMethods: seq<(string, Json)>,
                              refPath: string, actualPath: string, m: (string, Json))
    requires m in refMethods && !IsExtension(m.0) && Lookup(actualMethods, m.0).None?
    ensures Difference(Critical, "missing_method", refPath, "Missing HTTP method: " + Upper(m.0), JStr(Upper(m.0)), JNull)
      in MethodDiffs(refSpec, actualSpec, refMethods, actualMethods, refPath, actualPath)
  {
    var mb := MissingMethodBlocks(refSpec, actualSpec, refMethods, actualMethods, refPath);
    var i :| 0 <= i < |refMethods| && refMethods[i] == m;
    FlattenMember(mb, mb[i][0]);
  }

  /** A served method, other than an extension, that the reference endpoint lacks is reported as informational. */
  lemma ExtraMethodReported(refSpec: Json, actualSpec: Json, refMethods: seq<(string, Json)>, actualMethods: seq<(string, Json)>,
                            refPath: string, actualPath: string, m: (string, Json))
    requires m in actualMethods && !IsExtension(m.0) && Lookup(refMethods, m.0).None?
    ensures Difference(Info, "extra_method", actualPath, "Extra HTTP method not in reference spec: " + Upper(m.0), JNull, JStr(Upper(m.0)))
      in MethodDiffs(refSpec, actualSpec, refMethods, actualMethods, refPath, actualPath)
  {
    var eb := ExtraMethodBlocks(actualMethods, refMethods, actualPath);
    var i :| 0 <= i < |actualMethods| && actualMethods[i] == m;
    FlattenMember(eb, eb[i][0]);
  }

  /** The entries of a path item that are not vendor extensions, in order. */
  function NoExt(ms: seq<(string, Json)>): (r: seq<(string, Json)>)
    ensures forall m | m in r :: !IsExtension(m.0)
  {
    if ms == [] then []
    else if IsExtension(ms[|ms| - 1].0) then NoExt(ms[..|ms| - 1])
    else NoExt(ms[..|ms| - 1]) + [ms[|ms| - 1]]
  }

  /** Dropping the extensions does not change what a method name reads. */
  lemma {:induction false} LookupNoExt(ms: seq<(string, Json)>, k: string)
    requires !IsExtension(k)
    ensures Lookup(NoExt(ms), k) == Lookup(ms, k)
  {
    if ms != [] {
      var init, last := ms[..|ms| - 1], ms[|ms| - 1];
      assert ms == init + [last];
      LookupNoExt(init, k);
      LookupAppend(init, last, k);
      if !IsExtension(last.0) {
        LookupAppend(NoExt(init), last, k);
      }
    }
  }

  lemma MissingMethodsLast(refSpec: Json, actualSpec: Json, refMethods: seq<(string, Json)>, actualMethods: seq<(string, Json)>, refPath: string)
    requires refMethods != []
    ensures var n := |refMethods| - 1;
      Flatten(MissingMethodBlocks(refSpec, actualSpec, refMethods, actualMethods, refPath))
      == Flatten(MissingMethodBlocks(refSpec, actualSpec, refMethods[..n], actualMethods, refPath))
         + MissingMethodDiffs(refSpec, actualSpec, refMethods[n], actualMethods, refPath)
  {
    var n := |refMethods| - 1;
    var bs := MissingMethodBlocks(refSpec, actualSpec, refMethods, actualMethods, refPath);
    assert bs[..n] == MissingMethodBlocks(refSpec, actualSpec, refMethods[..n], actualMethods, refPath);
  }

  lemma ExtraMethodsLast(actualMethods: seq<(string, Json)>, refMethods: seq<(string, Json)>, actualPath: string)
    requires actualMethods != []
    ensures var n := |actualMethods| - 1;
      Flatten(ExtraMethodBlocks(actualMethods, refMethods, actualPath))
      == Flatten(ExtraMethodBlocks(actualMethods[..n], refMethods, actualPath)) + ExtraMethodDiffs(actualMethods[n], refMethods, actualPath)
  {
    var n := |actualMethods| - 1;
    var bs := ExtraMethodBlocks(actualMethods, refMethods, actualPath);
    assert bs[..n] == ExtraMethodBlocks(actualMethods[..n], refMethods, actualPath);
  }

  lemma {:induction false} MissingMethodsNoExt(refSpec: Json, actualSpec: Json, refMethods: seq<(string, Json)>, actualMethods: seq<(string, Json)>, refPath: string)
    ensures Flatten(MissingMethodBlocks(refSpec, actualSpec, NoExt(refMethods), NoExt(actualMethods), refPath))
      == Flatten(MissingMethodBlocks(refSpec, actualSpec, refMethods, actualMethods, refPath))
  {
    if refMethods != [] {
      var n := |refMethods| - 1;
      var init, last := refMethods[..n], refMethods[n];
      MissingMethodsNoExt(refSpec, actualSpec, init, actualMethods, refPath);
      MissingMethodsLast(refSpec, actualSpec, refMethods, actualMethods, refPath);
      if !IsExtension(last.0) {
        var kept := NoExt(refMethods);
        assert kept[..|kept| - 1] == NoExt(init);
        MissingMethodsLast(refSpec, actualSpec, kept, NoExt(actualMethods), refPath);
        LookupNoExt(actualMethods, last.0);
      }
    }
  }

  lemma {:induction false} ExtraMethodsNoExt(actualMethods: seq<(string, Json)>, refMethods: seq<(string, Json)>, actualPath: string)
    ensures Flatten(ExtraMethodBlocks(NoExt(actualMethods), NoExt(refMethods), actualPath))
      == Flatten(ExtraMethodBlocks(actualMethods, refMethods, actualPath))
  {
    if actualMethods != [] {
      var n := |actualMethods| - 1;
      var init, last := actualMethods[..n], actualMethods[n];
      ExtraMethodsNoExt(init, refMethods, actualPath);
      ExtraMethodsLast(actualMethods, refMethods, actualPath);
      if !IsExtension(last.0) {
        var kept := NoExt(actualMethods);
        assert kept[..|kept| - 1] == NoExt(init);
        ExtraMethodsLast(kept, NoExt(refMethods), actualPath);
        LookupNoExt(refMethods, last.0);
      }
    }
  }

  /** Vendor-extension keys on either side of an endpoint change none of its method findings. */
  lemma ExtensionsIgnored(refSpec: Json, actualSpec: Json, refMethods: seq<(string, Json)>, actualMethods: seq<(string, Json)>, refPath: string, actualPath: string)
    ensures MethodDiffs(refSpec, actualSpec, NoExt(refMethods), NoExt(actualMethods), refPath, actualPath)
      == MethodDiffs(refSpec, actualSpec, refMethods, actualMethods, refPath, actualPath)
  {
    MissingMethodsNoExt(refSpec, actualSpec, refMethods, actualMethods, refPath);
    ExtraMethodsNoExt(actualMethods, refMethods, actualPath);
  }

  /** The findings for one normalised reference path: one critical finding when the served document lacks the shape. */
  function EndpointDiffs(refSpec: Json, actualSpec: Json, e: (string, string), refPaths: seq<(string, Json)>,
                         actualPaths: seq<(string, Json)>, actualNorm: seq<(string, string)>): seq<Difference> {
    match Lookup(actualNorm, e.0)
    case None => [Difference(Critical, "missing_endpoint", e.1, "Missing endpoint: " + e.1, JStr(e.1), JNull)]
    case Some(actualPath) =>
      MethodDiffs(refSpec, actualSpec, MethodsOf(refPaths, e.1), MethodsOf(actualPaths, actualPath), e.1, actualPath)
  }

  function EndpointBlocks(refSpec: Json, actualSpec: Json, refNorm: seq<(string, string)>, refPaths: seq<(string, Json)>,
                          actualPaths: seq<(string, Json)>, actualNorm: seq<(string, string)>): (bs: seq<seq<Difference>>)
    ensures |bs| == |refNorm|
    ensures forall i :: 0 <= i < |bs| ==> bs[i] == EndpointDiffs(refSpec, actualSpec, refNorm[i], refPaths, actualPaths, actualNorm)
  {
    seq(|refNorm|, i requires 0 <= i < |refNorm| => EndpointDiffs(refSpec, actualSpec, refNorm[i], refPaths, actualPaths, actualNorm))
  }

  /** An endpoint's findings obey the severity rules; a missing method is reported only for a shape both documents have. */
  lemma EndpointClassified(refSpec: Json, actualSpec: Json, e: (string, string), refPaths: seq<(string, Json)>,
                           actualPaths: seq<(string, Json)>, actualNorm: seq<(string, string)>)
    ensures var r := EndpointDiffs(refSpec, actualSpec, e, refPaths, actualPaths, actualNorm);
      AllClassified(r) && forall d | d in r :: d.category == "missing_method" ==> d.path == e.1 && Lookup(actualNorm, e.0).Some?
  {
    match Lookup(actualNorm, e.0)
    case None =>
    case Some(actualPath) =>
      MethodsClassified(refSpec, actualSpec, MethodsOf(refPaths, e.1), MethodsOf(actualPaths, actualPath), e.1, actualPath);
  }

  function ExtraEndpointDiffs(e: (string, string), refNorm: seq<(string, string)>): (r: seq<Difference>)
    ensures forall d | d in r :: d.severity == Info && d.category == "extra_endpoint"
  {
    if Lookup(refNorm, e.0).Some? then []
    else [Difference(Info, "extra_endpoint", e.1, "Extra endpoint not in reference spec: " + e.1, JNull, JStr(e.1))]
  }

  function ExtraEndpointBlocks(actualNorm: seq<(string, string)>, refNorm: seq<(string, string)>): (bs: seq<seq<Difference>>)
    ensures |bs| == |actualNorm|
    ensures forall i :: 0 <= i < |bs| ==> bs[i] == ExtraEndpointDiffs(actualNorm[i], refNorm)
  {
    seq(|actualNorm|, i requires 0 <= i < |actualNorm| => ExtraEndpointDiffs(actualNorm[i], refNorm))
  }

  /** The served paths after the prefix (given, or detected when empty) is stripped. */
  function ActualPaths(actualSpec: Json, pathPrefix: string): seq<(string, Json)> {
    var raw := PathsOf(actualSpec);
    var prefix := if pathPrefix == "" then DetectPathPrefixSpec(Keys(raw)) else pathPrefix;
    StripPathPrefixSpec(raw, prefix)
  }

  /** `compare_specs`: every reference endpoint in order, then the served-only endpoints. */
  function CompareSpecsSpec(refSpec: Json, actualSpec: Json, pathPrefix: string): seq<Difference> {
    var refPaths, actualPaths := PathsOf(refSpec), ActualPaths(actualSpec, pathPrefix);
    var refNorm, actualNorm := NormIndex(refPaths), NormIndex(actualPaths);
    Flatten(EndpointBlocks(refSpec, actualSpec, refNorm, refPaths, actualPaths, actualNorm))
    + Flatten(ExtraEndpointBlocks(actualNorm, refNorm))
  }

  /**
   * Every finding of a whole comparison obeys the severity rules: only
   * something missing is critical, and only something extra or a renamed
   * operation is informational.
   */
  lemma SpecsClassified(refSpec: Json, actualSpec: Json, pathPrefix: string)
    ensures AllClassified(CompareSpecsSpec(refSpec, actualSpec, pathPrefix))
  {
    var refPaths, actualPaths := PathsOf(refSpec), ActualPaths(actualSpec, pathPrefix);
    var refNorm, actualNorm := NormIndex(refPaths), NormIndex(actualPaths);
    var eb := EndpointBlocks(refSpec, actualSpec, refNorm, refPaths, actualPaths, actualNorm);
    var xb := ExtraEndpointBlocks(actualNorm, refNorm);
    forall d | d in Flatten(eb) + Flatten(xb)
      ensures Classified(d)
    {
      FlattenMember(eb, d);
      FlattenMember(xb, d);
      if d in Flatten(eb) {
        var i :| 0 <= i < |eb| && d in eb[i];
        EndpointClassified(refSpec, actualSpec, refNorm[i], refPaths, actualPaths, actualNorm);
      }
    }
  }

  /** A reference path whose shape the served document lacks is reported as a critical missing endpoint. */
  lemma MissingEndpointReported(refSpec: Json, actualSpec: Json, pathPrefix: string, p: string)
    requires p in Keys(PathsOf(refSpec))
    requires NormalizePath(p) !in Keys(NormIndex(ActualPaths(actualSpec, pathPrefix)))
    ensures exists d :: (d in CompareSpecsSpec(refSpec, actualSpec, pathPrefix) && d.severity == Critical
      && d.category == "missing_endpoint" && NormalizePath(d.path) == NormalizePath(p))
  {
    var refPaths, actualPaths := PathsOf(refSpec), ActualPaths(actualSpec, pathPrefix);
    var refNorm, actualNorm := NormIndex(refPaths), NormIndex(actualPaths);
    var eb := EndpointBlocks(refSpec, actualSpec, refNorm, refPaths, actualPaths, actualNorm);
    NormIndexCovers(refPaths, p);
    KeysIndex(refNorm);
    LookupKeys(actualNorm, NormalizePath(p));
    var i :| 0 <= i < |refNorm| && Keys(refNorm)[i] == NormalizePath(p);
    NormIndexEntries(refPaths, refNorm[i]);
    var d := eb[i][0];
    FlattenMember(eb, d);
    assert d in CompareSpecsSpec(refSpec, actualSpec, pathPrefix);
  }

  /**
   * The findings for a reference shape the served document lacks are
   * exactly one critical missing-endpoint finding at the path the index
   * keeps for that shape.
   */
  lemma MissingEndpointBlock(refSpec: Json, actualSpec: Json, pathPrefix: string, p: string)
    requires p in Keys(PathsOf(refSpec))
    requires NormalizePath(p) !in Keys(NormIndex(ActualPaths(actualSpec, pathPrefix)))
    ensures var refPaths, actualPaths := PathsOf(refSpec), ActualPaths(actualSpec, pathPrefix);
      var refNorm, actualNorm := NormIndex(refPaths), NormIndex(actualPaths);
      exists i :: 0 <= i < |refNorm| && refNorm[i].0 == NormalizePath(p)
        && NormalizePath(refNorm[i].1) == NormalizePath(p)
        && EndpointBlocks(refSpec, actualSpec, refNorm, refPaths, actualPaths, actualNorm)[i]
           == [Difference(Critical, "missing_endpoint", refNorm[i].1, "Missing endpoint: " + refNorm[i].1, JStr(refNorm[i].1), JNull)]
  {
    var refPaths, actualPaths := PathsOf(refSpec), ActualPaths(actualSpec, pathPrefix);
    var refNorm, actualNorm := NormIndex(refPaths), NormIndex(actualPaths);
    NormIndexCovers(refPaths, p);
    KeysIndex(refNorm);
    LookupKeys(actualNorm, NormalizePath(p));
    var i :| 0 <= i < |refNorm| && Keys(refNorm)[i] == NormalizePath(p);
    NormIndexEntries(refPaths, refNorm[i]);
  }

  /** A served path whose shape the reference lacks is reported as an informational extra endpoint. */
  lemma ExtraEndpointReported(refSpec: Json, actualSpec: Json, pathPrefix: string, p: string)
    requires p in Keys(ActualPaths(actualSpec, pathPrefix))
    requires NormalizePath(p) !in Keys(NormIndex(PathsOf(refSpec)))
    ensures exists d :: (d in CompareSpecsSpec(refSpec, actualSpec, pathPrefix) && d.severity == Info
      && d.category == "extra_endpoint" && NormalizePath(d.path) == NormalizePath(p))
  {
    var refPaths, actualPaths := PathsOf(refSpec), ActualPaths(actualSpec, pathPrefix);
    var refNorm, actualNorm := NormIndex(refPaths), NormIndex(actualPaths);
    var xb := ExtraEndpointBlocks(actualNorm, refNorm);
    NormIndexCovers(actualPaths, p);
    KeysIndex(actualNorm);
    LookupKeys(refNorm, NormalizePath(p));
    var i :| 0 <= i < |actualNorm| && Keys(actualNorm)[i] == NormalizePath(p);
    NormIndexEntries(actualPaths, actualNorm[i]);
    var d := xb[i][0];
    FlattenMember(xb, d);
    assert d in CompareSpecsSpec(refSpec, actualSpec, pathPrefix);
  }

  /** No method is reported missing at a path whose shape the served document lacks. */
  lemma MissingEndpointHasNoMethods(refSpec: Json, actualSpec: Json, pathPrefix: string, d: Difference)
    requires d in CompareSpecsSpec(refSpec, actualSpec, pathPrefix) && d.category == "missing_method"
    ensures NormalizePath(d.path) in Keys(NormIndex(ActualPaths(actualSpec, pathPrefix)))
  {
    var refPaths, actualPaths := PathsOf(refSpec), ActualPaths(actualSpec, pathPrefix);
    var refNorm, actualNorm := NormIndex(refPaths), NormIndex(actualPaths);
    var eb := EndpointBlocks(refSpec, actualSpec, refNorm, refPaths, actualPaths, actualNorm);
    var xb := ExtraEndpointBlocks(actualNorm, refNorm);
    EndpointCategoriesDistinct();
    FlattenMember(xb, d);
    assert d !in Flatten(xb);
    FlattenMember(eb, d);
    var k :| 0 <= k < |eb| && d in eb[k];
    EndpointClassified(refSpec, actualSpec, refNorm[k], refPaths, actualPaths, actualNorm);
    NormIndexEntries(refPaths, refNorm[k]);
    LookupKeys(actualNorm, refNorm[k].0);
  }

  /**
   * A failing comparison names something missing, and a strictly passing
   * one reports only extras and renamed operations.
   */
  lemma SpecsVerdict(refSpec: Json, actualSpec: Json, pathPrefix: string)
    ensures var r := CompareSpecsSpec(refSpec, actualSpec, pathPrefix);
      && (!Passed(r, false) ==> exists d :: d in r && d.severity == Critical && CriticalCategory(d.category))
      && (Passed(r, true) ==> forall d | d in r :: InfoCategory(d.category))
  {
    var r := CompareSpecsSpec(refSpec, actualSpec, pathPrefix);
    SpecsClassified(refSpec, actualSpec, pathPrefix);
    PassedIff(r, false);
    PassedIff(r, true);
    if !Passed(r, false) {
      var k :| 0 <= k < |r| && r[k].severity == Critical;
      assert Classified(r[k]);
    }
    if Passed(r, true) {
      forall d | d in r
        ensures InfoCategory(d.category)
      {
        var k :| 0 <= k < |r| && r[k] == d;
        assert Classified(d) && d.severity != Critical && d.severity != Warning;
      }
    }
  }

  /** The two method loops of `compare_specs` for an endpoint both documents have. */
  method CompareEndpointMethods(refSpec: Json, actualSpec: Json, refMethods: seq<(string, Json)>, actualMethods: seq<(string, Json)>,
                                refPath: string, actualPath: string) returns (diffs: seq<Difference>)
    ensures diffs == MethodDiffs(refSpec, actualSpec, refMethods, actualMethods, refPath, actualPath)
  {
    var missing := ReportMissingMethods(refSpec, actualSpec, refMethods, actualMethods, refPath);
    var extra := ReportExtraMethods(actualMethods, refMethods, actualPath);
    diffs := missing + extra;
  }

  /** The loop over the reference methods of an endpoint. */
  method ReportMissingMethods(refSpec: Json, actualSpec: Json, refMethods: seq<(string, Json)>, actualMethods: seq<(string, Json)>,
                              refPath: string) returns (diffs: seq<Difference>)
    ensures diffs == Flatten(MissingMethodBlocks(refSpec, actualSpec, refMethods, actualMethods, refPath))
  {
    var mb := MissingMethodBlocks(refSpec, actualSpec, refMethods, actualMethods, refPath);
    diffs := [];
    var i := 0;
    while i < |refMethods|
      invariant i <= |refMethods|
      invariant diffs == Flatten(mb[..i])
    {
      FlattenStep(mb, i);
      var verb := refMethods[i].0;
      if !IsExtension(verb) {
        var found := Lookup(actualMethods, verb);
        if found.None? {
          diffs := diffs + [Difference(Critical, "missing_method", refPath, "Missing HTTP method: " + Upper(verb), JStr(Upper(verb)), JNull)];
        } else {
          var op := CompareOperation(refSpec, actualSpec, refMethods[i].1, found.value, refPath, verb);
          diffs := diffs + op;
        }
      }
      i := i + 1;
    }
    assert mb[..|refMethods|] == mb;
  }

  /** The loop over the served methods of an endpoint. */
  method ReportExtraMethods(actualMethods: seq<(string, Json)>, refMethods: seq<(string, Json)>, actualPath: string) returns (diffs: seq<Difference>)
    ensures diffs == Flatten(ExtraMethodBlocks(actualMethods, refMethods, actualPath))
  {
    var xb := ExtraMethodBlocks(actualMethods, refMethods, actualPath);
    diffs := [];
    var k := 0;
    while k < |actualMethods|
      invariant k <= |actualMethods|
      invariant diffs == Flatten(xb[..k])
    {
      FlattenStep(xb, k);
      var verb := actualMethods[k].0;
      if !IsExtension(verb) && Lookup(refMethods, verb).None? {
        diffs := diffs + [Difference(Info, "extra_method", actualPath, "Extra HTTP method not in reference spec: " + Upper(verb), JNull, JStr(Upper(verb)))];
      }
      k := k + 1;
    }
    assert xb[..|actualMethods|] == xb;
  }

  /** `compare_specs`: prefix detection and stripping, the normalised indexes, then its two loops over them. */
  method CompareSpecs(refSpec: Json, actualSpec: Json, pathPrefix: string) returns (diffs: seq<Difference>)
    ensures diffs == CompareSpecsSpec(refSpec, actualSpec, pathPrefix)
  {
    var refPaths := PathsOf(refSpec);
    var rawPaths := PathsOf(actualSpec);
    var prefix := pathPrefix;
    if prefix == "" {
      prefix := DetectPathPrefix(rawPaths);
    }
    var actualPaths := StripPathPrefix(rawPaths, prefix);
    var refNorm, actualNorm := NormIndex(refPaths), NormIndex(actualPaths);
    var endpoints := ReportEndpoints(refSpec, actualSpec, refNorm, refPaths, actualPaths, actualNorm);
    var extra := ReportExtraEndpoints(actualNorm, refNorm);
    diffs := endpoints + extra;
  }

  /** The loop of `compare_specs` over the normalised reference paths. */
  method ReportEndpoints(refSpec: Json, actualSpec: Json, refNorm: seq<(string, string)>, refPaths: seq<(string, Json)>,
                         actualPaths: seq<(string, Json)>, actualNorm: seq<(string, string)>) returns (diffs: seq<Difference>)
    ensures diffs == Flatten(EndpointBlocks(refSpec, actualSpec, refNorm, refPaths, actualPaths, actualNorm))
  {
    var eb := EndpointBlocks(refSpec, actualSpec, refNorm, refPaths, actualPaths, actualNorm);
    diffs := [];
    var i := 0;
    while i < |refNorm|
      invariant i <= |refNorm|
      invariant diffs == Flatten(eb[..i])
    {
      FlattenStep(eb, i);
      var norm, refPath := refNorm[i].0, refNorm[i].1;
      var found := Lookup(actualNorm, norm);
      if found.None? {
        diffs := diffs + [Difference(Critical, "missing_endpoint", refPath, "Missing endpoint: " + refPath, JStr(refPath), JNull)];
      } else {
        var actualPath := found.value;
        var methods := CompareEndpointMethods(refSpec, actualSpec, MethodsOf(refPaths, refPath), MethodsOf(actualPaths, actualPath), refPath, actualPath);
        diffs := diffs + methods;
      }
      i := i + 1;
    }
    assert eb[..|refNorm|] == eb;
  }

  /** The loop of `compare_specs` over the normalised served paths. */
  method ReportExtraEndpoints(actualNorm: seq<(string, string)>, refNorm: seq<(string, string)>) returns (diffs: seq<Difference>)
    ensures diffs == Flatten(ExtraEndpointBlocks(actualNorm, refNorm))
  {
    var xb := ExtraEndpointBlocks(actualNorm, refNorm);
    diffs := [];
    var k := 0;
    while k < |actualNorm|
      invariant k <= |actualNorm|
      invariant diffs == Flatten(xb[..k])
    {
      FlattenStep(xb, k);
      var actualPath := actualNorm[k].1;
      if Lookup(refNorm, actualNorm[k].0).None? {
        diffs := diffs + [Difference(Info, "extra_endpoint", actualPath, "Extra endpoint not in reference spec: " + actualPath, JNull, JStr(actualPath))];
      }
      k := k + 1;
    }
    assert xb[..|actualNorm|] == xb;
  }
}
