/**
 * Path handling of the spec comparison: placeholder normalisation, and the
 * detection and stripping of a common prefix (such as `/api`) that the
 * served spec puts in front of every path.
 */
module OpenApiPaths {
  import opened Wrappers
  import opened Strings
  import opened Seqs
  import opened Json

  /**
   * `re.sub(r"\{[^}]+\}", "{param}", path)`: scanning left to right, a `{`
   * followed by at least one character before the next `}` starts a match
   * that runs to that `}` and becomes `{param}`; every other character is
   * copied.
   */
  function NormalizePath(s: string): string
    decreases |s|
  {
    if s == [] then []
    else
      var j := Find(s[1..], '}');
      if s[0] == '{' && 0 < j < |s| - 1 then "{param}" + NormalizePath(s[j + 2..])
      else [s[0]] + NormalizePath(s[1..])
  }

  /** A placeholder with a non-empty name becomes `{param}`. */
  lemma NormalizePathPlaceholder(name: string, rest: string)
    requires name != [] && '}' !in name
    ensures NormalizePath("{" + name + "}" + rest) == "{param}" + NormalizePath(rest)
  {
    var s := "{" + name + "}" + rest;
    assert s[1..] == name + ['}'] + rest;
    FindAfter(name, '}', rest);
    assert s[|name| + 2..] == rest;
  }

  /** An empty pair of braces is kept. */
  lemma NormalizePathEmptyBraces(rest: string)
    ensures NormalizePath("{}" + rest) == "{}" + NormalizePath(rest)
  {
    var s := "{}" + rest;
    assert s[1..] == "}" + rest;
    assert ("}" + rest)[1..] == rest;
  }

  /** Any character but `{` is copied. */
  lemma NormalizePathOther(c: char, rest: string)
    requires c != '{'
    ensures NormalizePath([c] + rest) == [c] + NormalizePath(rest)
  {
    assert ([c] + rest)[1..] == rest;
  }

  /** Without a closing brace there is nothing to replace. */
  lemma {:induction false} NormalizePathNoClose(s: string)
    requires '}' !in s
    ensures NormalizePath(s) == s
    decreases |s|
  {
    if s != [] {
      FindAbsent(s[1..], '}');
      NormalizePathNoClose(s[1..]);
    }
  }

  /** Normalising a normalised path changes nothing. */
  lemma {:induction false} NormalizePathIdempotent(s: string)
    ensures NormalizePath(NormalizePath(s)) == NormalizePath(s)
    decreases |s|
  {
    if s == [] {
      return;
    }
    var j := Find(s[1..], '}');
    if s[0] == '{' && 0 < j < |s| - 1 {
      IdempotentPlaceholder(s, j);
    } else if s[0] == '{' && j == 0 && |s| >= 2 {
      IdempotentEmptyBraces(s);
    } else if s[0] == '{' {
      assert '}' !in s[1..];
      assert '}' !in s;
      NormalizePathNoClose(s);
    } else {
      NormalizePathIdempotent(s[1..]);
      NormalizePathOther(s[0], NormalizePath(s[1..]));
    }
  }

  lemma {:induction false} IdempotentPlaceholder(s: string, j: nat)
    requires |s| > 0 && s[0] == '{' && j == Find(s[1..], '}') && 0 < j < |s| - 1
    ensures NormalizePath(NormalizePath(s)) == NormalizePath(s)
    decreases |s|, 0
  {
    var rest := s[j + 2..];
    assert NormalizePath(s) == "{param}" + NormalizePath(rest);
    NormalizePathIdempotent(rest);
    NormalizePathParam(NormalizePath(rest));
  }

  /** `{param}` itself is a placeholder, so it normalises to itself. */
  lemma NormalizePathParam(rest: string)
    ensures NormalizePath("{param}" + rest) == "{param}" + NormalizePath(rest)
  {
    var p := "{param}";
    assert p == "{" + "param" + "}";
    NormalizePathPlaceholder("param", rest);
  }

  lemma {:induction false} IdempotentEmptyBraces(s: string)
    requires |s| >= 2 && s[0] == '{' && s[1] == '}'
    ensures NormalizePath(NormalizePath(s)) == NormalizePath(s)
    decreases |s|, 0
  {
    var rest := s[2..];
    assert s == "{}" + rest;
    NormalizePathEmptyBraces(rest);
    NormalizePathIdempotent(rest);
    NormalizePathEmptyBraces(NormalizePath(rest));
  }

  /** `path[len(prefix):] or "/"` for a path that starts with the prefix; other paths are kept. */
  function StrippedKey(path: string, prefix: string): string {
    if StartsWith(path, prefix) then (if |path| == |prefix| then "/" else path[|prefix|..]) else path
  }

  /** A path made of the prefix and a rest loses the prefix; the prefix itself becomes `/`. */
  lemma StrippedKeyOf(prefix: string, rest: string)
    ensures StrippedKey(prefix + rest, prefix) == if rest == [] then "/" else rest
  {
    assert (prefix + rest)[..|prefix|] == prefix;
    assert (prefix + rest)[|prefix|..] == rest;
  }

  /** The prefix test is on characters, not segments: `/api` also strips the front of `/apix`. */
  lemma StrippedKeyNotSegmentAware()
    ensures StrippedKey("/apix", "/api") == "x"
  {
    StrippedKeyOf("/api", "x");
    assert "/api" + "x" == "/apix";
  }

  /** The dict `strip_path_prefix` fills: each path under its stripped key, a later path overwriting an earlier one. */
  function Stripped(paths: seq<(string, Json)>, prefix: string): seq<(string, Json)> {
    if paths == [] then []
    else
      var last := paths[|paths| - 1];
      Put(Stripped(paths[..|paths| - 1], prefix), StrippedKey(last.0, prefix), last.1)
  }

  /** `strip_path_prefix`: an empty prefix keeps the paths; otherwise its trailing `/` characters are dropped first. */
  function StripPathPrefixSpec(paths: seq<(string, Json)>, prefix: string): seq<(string, Json)> {
    if prefix == "" then paths else Stripped(paths, RStrip(prefix, '/'))
  }

  /** The keys of the stripped dict are the stripped keys of the paths, each once. */
  lemma {:induction false} StrippedKeys(paths: seq<(string, Json)>, prefix: string)
    ensures NoDup(Keys(Stripped(paths, prefix)))
    ensures forall k :: k in Keys(Stripped(paths, prefix)) <==>
      exists i :: 0 <= i < |paths| && StrippedKey(paths[i].0, prefix) == k
  {
    if paths != [] {
      var init := paths[..|paths| - 1];
      var last := paths[|paths| - 1];
      StrippedKeys(init, prefix);
      PutKeys(Stripped(init, prefix), StrippedKey(last.0, prefix), last.1);
      PutUnique(Stripped(init, prefix), StrippedKey(last.0, prefix), last.1);
      forall k | exists i :: 0 <= i < |paths| && StrippedKey(paths[i].0, prefix) == k
        ensures k in Keys(Stripped(paths, prefix))
      {
        var i :| 0 <= i < |paths| && StrippedKey(paths[i].0, prefix) == k;
        if i < |init| {
          assert init[i] == paths[i];
        }
      }
      forall k | k in Keys(Stripped(paths, prefix))
        ensures exists i :: 0 <= i < |paths| && StrippedKey(paths[i].0, prefix) == k
      {
        if k != StrippedKey(last.0, prefix) {
          var i :| 0 <= i < |init| && StrippedKey(init[i].0, prefix) == k;
          assert paths[i] == init[i];
        }
      }
    }
  }

  /** A stripped key reads the value of the last path stripped to it. */
  lemma {:induction false} StrippedValue(paths: seq<(string, Json)>, prefix: string, i: nat)
    requires i < |paths|
    requires forall j :: i < j < |paths| ==> StrippedKey(paths[j].0, prefix) != StrippedKey(paths[i].0, prefix)
    ensures Lookup(Stripped(paths, prefix), StrippedKey(paths[i].0, prefix)) == Some(paths[i].1)
  {
    var init := paths[..|paths| - 1];
    var last := paths[|paths| - 1];
    PutLookup(Stripped(init, prefix), StrippedKey(last.0, prefix), last.1, StrippedKey(paths[i].0, prefix));
    if i < |init| {
      assert forall j :: i < j < |init| ==> init[j] == paths[j];
      StrippedValue(init, prefix, i);
    }
  }

  /** `strip_path_prefix`: rebuilds the path dict under stripped keys. */
  method StripPathPrefix(paths: seq<(string, Json)>, prefix: string) returns (result: seq<(string, Json)>)
    ensures result == StripPathPrefixSpec(paths, prefix)
  {
    if prefix == "" {
      return paths;
    }
    var p := RStrip(prefix, '/');
    result := [];
    var i := 0;
    while i < |paths|
      invariant i <= |paths|
      invariant result == Stripped(paths[..i], p)
    {
      var path, value := paths[i].0, paths[i].1;
      assert paths[..i + 1][..i] == paths[..i];
      result := Put(result, StrippedKey(path, p), value);
      i := i + 1;
    }
    assert paths[..|paths|] == paths;
  }

  /** A segment both paths share at position `i` that is not a `{…}` placeholder. */
  predicate SegmentShared(a: seq<string>, b: seq<string>, i: nat) {
    i < |a| && i < |b| && a[i] == b[i] && !StartsWith(a[i], "{")
  }

  /** How far from `i` the zipped segments keep matching. */
  function CommonFrom(a: seq<string>, b: seq<string>, i: nat): (n: nat)
    ensures i <= n
    ensures i <= |a| && i <= |b| ==> n <= |a| && n <= |b|
    ensures forall j :: i <= j < n ==> SegmentShared(a, b, j)
    ensures !SegmentShared(a, b, n)
    decreases |a| - i
  {
    if SegmentShared(a, b, i) then CommonFrom(a, b, i + 1) else i
  }

  /** The inner loop of `detect_path_prefix`: the number of leading shared, non-placeholder segments. */
  function CommonLen(a: seq<string>, b: seq<string>): nat {
    CommonFrom(a, b, 0)
  }

  /** A count with the shared-segment characterisation is the common length. */
  lemma CommonLenUnique(a: seq<string>, b: seq<string>, n: nat)
    requires forall j :: 0 <= j < n ==> SegmentShared(a, b, j)
    requires !SegmentShared(a, b, n)
    ensures n == CommonLen(a, b)
  {
  }

  /** Matching against the first `m` segments of `a` stops at `m` at the latest. */
  lemma CommonLenPrefix(a: seq<string>, b: seq<string>, m: nat)
    requires m <= |a|
    ensures CommonLen(a[..m], b) == if m < CommonLen(a, b) then m else CommonLen(a, b)
  {
    var c := CommonLen(a, b);
    var n := if m < c then m else c;
    forall j | 0 <= j < n
      ensures SegmentShared(a[..m], b, j)
    {
      assert SegmentShared(a, b, j);
      assert a[..m][j] == a[j];
    }
    if n < m {
      assert a[..m][n] == a[n];
    }
    CommonLenUnique(a[..m], b, n);
  }

  /** `prefix_parts` after narrowing the first path's segments by each later path. */
  function DetectParts(first: seq<string>, rest: seq<string>): seq<string> {
    if rest == [] then first
    else
      var p := DetectParts(first, rest[..|rest| - 1]);
      p[..CommonLen(p, Split(rest[|rest| - 1], '/'))]
  }

  /** `detect_path_prefix` on the keys of the served paths. */
  function DetectPathPrefixSpec(keys: seq<string>): string {
    if keys == [] then ""
    else
      var parts := DetectParts(Split(keys[0], '/'), keys[1..]);
      if parts == [] || parts == [""] then "" else Join(parts, '/')
  }

  /**
   * The narrowed segments are the first path's leading segments, as many as
   * the shortest common run with any later path: at most each, equal to one.
   */
  lemma {:induction false} DetectPartsLength(first: seq<string>, rest: seq<string>)
    ensures var p := DetectParts(first, rest);
      && |p| <= |first| && p == first[..|p|]
      && (rest == [] ==> p == first)
      && (forall k :: 0 <= k < |rest| ==> |p| <= CommonLen(first, Split(rest[k], '/')))
      && (rest != [] ==> exists k :: 0 <= k < |rest| && |p| == CommonLen(first, Split(rest[k], '/')))
  {
    if rest != [] {
      var init := rest[..|rest| - 1];
      var q := Split(rest[|rest| - 1], '/');
      DetectPartsLength(first, init);
      var p' := DetectParts(first, init);
      CommonLenPrefix(first, q, |p'|);
      assert CommonLen(p', q) == CommonLen(first[..|p'|], q);
      var p := DetectParts(first, rest);
      assert forall k :: 0 <= k < |init| ==> rest[k] == init[k];
      if init != [] {
        var k :| 0 <= k < |init| && |p'| == CommonLen(first, Split(init[k], '/'));
        if |p| < |p'| {
          assert |p| == CommonLen(first, q);
        } else {
          assert |p| == CommonLen(first, Split(rest[k], '/'));
        }
      } else {
        assert |p| == CommonLen(first, Split(rest[|rest| - 1], '/'));
      }
    }
  }

  /** The narrowed segments lead every later path, and none of them is a placeholder. */
  lemma DetectPartsShared(first: seq<string>, rest: seq<string>)
    ensures var p := DetectParts(first, rest);
      && (forall k :: 0 <= k < |rest| ==>
            |p| <= |Split(rest[k], '/')| && Split(rest[k], '/')[..|p|] == p)
      && (rest != [] ==> forall s :: 0 <= s < |p| ==> !StartsWith(p[s], "{"))
  {
    var p := DetectParts(first, rest);
    DetectPartsLength(first, rest);
    forall k | 0 <= k < |rest|
      ensures |p| <= |Split(rest[k], '/')| && Split(rest[k], '/')[..|p|] == p
    {
      var q := Split(rest[k], '/');
      forall s | 0 <= s < |p|
        ensures q[s] == p[s]
      {
        assert SegmentShared(first, q, s);
        assert p[s] == first[s];
      }
    }
    if rest != [] {
      var q := Split(rest[0], '/');
      forall s | 0 <= s < |p|
        ensures !StartsWith(p[s], "{")
      {
        assert SegmentShared(first, q, s);
        assert p[s] == first[s];
      }
    }
  }

  /**
   * A detected prefix, split on `/`, is a run of leading segments of every
   * path; across several paths none of its segments is a placeholder.
   */
  lemma DetectPathPrefixIsSegmentPrefix(keys: seq<string>)
    requires DetectPathPrefixSpec(keys) != ""
    ensures var parts := Split(DetectPathPrefixSpec(keys), '/');
      && (forall k :: 0 <= k < |keys| ==>
            |parts| <= |Split(keys[k], '/')| && Split(keys[k], '/')[..|parts|] == parts)
      && (|keys| >= 2 ==> forall s :: 0 <= s < |parts| ==> !StartsWith(parts[s], "{"))
  {
    var first := Split(keys[0], '/');
    var rest := keys[1..];
    var parts := DetectParts(first, rest);
    DetectPartsLength(first, rest);
    DetectPartsShared(first, rest);
    assert forall s :: 0 <= s < |parts| ==> parts[s] == first[s];
    SplitJoin(parts, '/');
    assert Split(DetectPathPrefixSpec(keys), '/') == parts;
    forall k | 0 < k < |keys|
      ensures |parts| <= |Split(keys[k], '/')| && Split(keys[k], '/')[..|parts|] == parts
    {
      assert rest[k - 1] == keys[k];
    }
  }

  /** `detect_path_prefix`: narrows the first path's segments by each later path, then joins them. */
  method DetectPathPrefix(paths: seq<(string, Json)>) returns (prefix: string)
    ensures prefix == DetectPathPrefixSpec(Keys(paths))
  {
    if paths == [] {
      return "";
    }
    var keys := Keys(paths);
    var prefixParts := Split(keys[0], '/');
    var k := 1;
    while k < |keys|
      invariant 1 <= k <= |keys|
      invariant prefixParts == DetectParts(Split(keys[0], '/'), keys[1..k])
      decreases |keys| - k
    {
      var parts := Split(keys[k], '/');
      var commonLen := 0;
      var i := 0;
      while i < |prefixParts| && i < |parts|
        invariant commonLen == i
        invariant CommonFrom(prefixParts, parts, i) == CommonLen(prefixParts, parts)
      {
        if prefixParts[i] == parts[i] && !StartsWith(prefixParts[i], "{") {
          commonLen := i + 1;
        } else {
          break;
        }
        i := i + 1;
      }
      assert keys[1..k + 1][..k - 1] == keys[1..k];
      prefixParts := prefixParts[..commonLen];
      k := k + 1;
    }
    assert keys[1..k] == keys[1..];
    if prefixParts == [] || prefixParts == [""] {
      return "";
    }
    prefix := Join(prefixParts, '/');
  }
}
