/**
 * `Difference`, one finding of the spec comparison, its dict form, and the
 * pass/fail rule over a list of findings.
 */
module Differences {
  import opened Wrappers
  import opened Json

  datatype Severity = Critical | Warning | Info

  function SeverityName(s: Severity): string {
    match s
    case Critical => "critical"
    case Warning => "warning"
    case Info => "info"
  }

  function ParseSeverity(name: string): (r: Option<Severity>)
    ensures r.Some? ==> SeverityName(r.value) == name
  {
    if name == "critical" then Some(Critical)
    else if name == "warning" then Some(Warning)
    else if name == "info" then Some(Info)
    else None
  }

  /** A finding; `expected` and `actual` are `JNull` where the source leaves them `None`. */
  datatype Difference = Difference(
    severity: Severity,
    category: string,
    path: string,
    message: string,
    expected: Json,
    actual: Json)

  /** `Difference.to_dict`: the four text fields, then `expected` and `actual` unless they are `None`. */
  function ToDict(d: Difference): Json {
    JObj(
      [("severity", JStr(SeverityName(d.severity))),
       ("category", JStr(d.category)),
       ("path", JStr(d.path)),
       ("message", JStr(d.message))]
      + (if d.expected != JNull then [("expected", d.expected)] else [])
      + (if d.actual != JNull then [("actual", d.actual)] else []))
  }

  /** What each key of the dict form reads: the fields, and no `expected`/`actual` entry for `None`. */
  lemma ToDictFields(d: Difference)
    ensures Get(ToDict(d), "severity") == Some(JStr(SeverityName(d.severity)))
    ensures Get(ToDict(d), "category") == Some(JStr(d.category))
    ensures Get(ToDict(d), "path") == Some(JStr(d.path))
    ensures Get(ToDict(d), "message") == Some(JStr(d.message))
    ensures Get(ToDict(d), "expected") == if d.expected == JNull then None else Some(d.expected)
    ensures Get(ToDict(d), "actual") == if d.actual == JNull then None else Some(d.actual)
  {
    ToDictText(d);
    ToDictOptional(d);
  }

  lemma ToDictText(d: Difference)
    ensures Get(ToDict(d), "severity") == Some(JStr(SeverityName(d.severity)))
    ensures Get(ToDict(d), "category") == Some(JStr(d.category))
    ensures Get(ToDict(d), "path") == Some(JStr(d.path))
    ensures Get(ToDict(d), "message") == Some(JStr(d.message))
  {
    var e := ToDict(d).entries;
    KeyNamesDistinct();
    assert e[0].0 == "severity" && e[1].0 == "category" && e[2].0 == "path" && e[3].0 == "message";
    assert e[1..][0] == e[1] && e[2..][0] == e[2] && e[3..][0] == e[3];
    LookupSkip(e, 1, "category");
    LookupSkip(e, 2, "path");
    LookupSkip(e, 3, "message");
  }

  lemma ToDictOptional(d: Difference)
    ensures Get(ToDict(d), "expected") == if d.expected == JNull then None else Some(d.expected)
    ensures Get(ToDict(d), "actual") == if d.actual == JNull then None else Some(d.actual)
  {
    var e := ToDict(d).entries;
    var ex: seq<(string, Json)> := if d.expected != JNull then [("expected", d.expected)] else [];
    var ac: seq<(string, Json)> := if d.actual != JNull then [("actual", d.actual)] else [];
    KeyNamesDistinct();
    assert e[4..] == ex + ac;
    assert e[4 + |ex|..] == ac;
    LookupSkip(e, 4, "expected");
    LookupSkip(e, 4 + |ex|, "actual");
  }

  /** The six keys of the dict form are different strings. */
  lemma KeyNamesDistinct()
    ensures "severity" != "category" && "severity" != "path" && "severity" != "message"
    ensures "category" != "path" && "category" != "message" && "path" != "message"
    ensures forall k :: k in ["severity", "category", "path", "message"] ==> k != "expected" && k != "actual"
    ensures "expected" != "actual"
  {
  }

  /** Reads a finding back from its dict form; a missing `expected` or `actual` reads as `None`. */
  function FromDict(j: Json): Option<Difference> {
    var s, c, p, m := Get(j, "severity"), Get(j, "category"), Get(j, "path"), Get(j, "message");
    if s.Some? && s.value.JStr? && c.Some? && c.value.JStr? && p.Some? && p.value.JStr?
      && m.Some? && m.value.JStr? && ParseSeverity(s.value.s).Some?
    then
      Some(Difference(ParseSeverity(s.value.s).value, c.value.s, p.value.s, m.value.s,
        GetOr(j, "expected", JNull), GetOr(j, "actual", JNull)))
    else None
  }

  /** The dict form loses nothing: every finding reads back as itself. */
  lemma ToDictRoundTrip(d: Difference)
    ensures FromDict(ToDict(d)) == Some(d)
  {
    ToDictFields(d);
    assert ParseSeverity(SeverityName(d.severity)) == Some(d.severity);
  }

  /** `sum(1 for d in differences if d.severity == sev)`. */
  function Count(ds: seq<Difference>, sev: Severity): (n: nat)
    ensures n <= |ds|
  {
    if ds == [] then 0 else (if ds[0].severity == sev then 1 else 0) + Count(ds[1..], sev)
  }

  /** No finding has the severity exactly when none is counted. */
  lemma {:induction false} CountZero(ds: seq<Difference>, sev: Severity)
    ensures Count(ds, sev) == 0 <==> forall i :: 0 <= i < |ds| ==> ds[i].severity != sev
  {
    if ds != [] {
      CountZero(ds[1..], sev);
      assert forall i :: 0 < i < |ds| ==> ds[i] == ds[1..][i - 1];
    }
  }

  /** The pass/fail rule: no critical finding, and in strict mode no warning either. */
  predicate Passed(ds: seq<Difference>, strict: bool) {
    if strict then Count(ds, Critical) == 0 && Count(ds, Warning) == 0 else Count(ds, Critical) == 0
  }

  /** A run passes exactly when every finding is below the failing severities. */
  lemma PassedIff(ds: seq<Difference>, strict: bool)
    ensures Passed(ds, strict) <==>
      forall i :: 0 <= i < |ds| ==> ds[i].severity != Critical && (strict ==> ds[i].severity != Warning)
  {
    CountZero(ds, Critical);
    CountZero(ds, Warning);
  }

  /** Strict mode only adds failures. */
  lemma StrictIsStricter(ds: seq<Difference>)
    ensures Passed(ds, true) ==> Passed(ds, false)
  {
  }
}
