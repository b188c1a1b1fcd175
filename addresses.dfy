/**
 * The key under which the per-address session quota counts a client: an
 * IPv4 address as it is, an IPv6 address reduced to its /64 range.
 */
module Addresses {
  import opened Strings

  /**
   * `_normalize_ip_for_limiting`: a key already ending in `/64` is kept; an
   * address with colons keeps its first four groups followed by `::/64`
   * (or, with fewer than four groups, gets `/64` appended); anything else
   * is kept.
   */
  function NormalizeIp(ip: string): (r: string)
    ensures EndsWith(ip, "/64") ==> r == ip
    ensures ':' !in ip ==> r == ip
    ensures ':' in ip ==> EndsWith(r, "/64")
    ensures ip != "" ==> r != ""
  {
    if EndsWith(ip, "/64") then ip
    else if ':' in ip then
      var parts := Split(ip, ':');
      if |parts| >= 4 then WithSuffix(Join(parts[..4], ':'), "::/64") else WithSuffix(ip, "/64")
    else ip
  }

  /** `s + suffix`, which ends with every tail of the suffix. */
  function WithSuffix(s: string, suffix: string): (r: string)
    ensures r == s + suffix
    ensures forall k :: 0 <= k <= |suffix| ==> EndsWith(r, suffix[k..])
  {
    var r := s + suffix;
    assert forall k :: 0 <= k <= |suffix| ==> r[|r| - |suffix[k..]|..] == suffix[k..];
    r
  }

  /** Normalising twice is normalising once, so callers may normalise a key again. */
  lemma NormalizeIpIdempotent(ip: string)
    ensures NormalizeIp(NormalizeIp(ip)) == NormalizeIp(ip)
  {
  }

  /** Joining at least two groups puts the separator in the result. */
  lemma {:induction false} JoinHasSeparator(groups: seq<string>, sep: char)
    requires |groups| >= 2
    ensures sep in Join(groups, sep)
  {
    var s := Join(groups, sep);
    assert s == groups[0] + [sep] + Join(groups[1..], sep);
    assert s[|groups[0]|] == sep;
  }

  /** An IPv6 address written as four or more groups is reduced to exactly its first four groups. */
  lemma NormalizeIpGroups(groups: seq<string>)
    requires |groups| >= 4
    requires forall i :: 0 <= i < |groups| ==> ':' !in groups[i]
    requires !EndsWith(Join(groups, ':'), "/64")
    ensures NormalizeIp(Join(groups, ':')) == Join(groups[..4], ':') + "::/64"
  {
    JoinHasSeparator(groups, ':');
    SplitJoin(groups, ':');
  }

  /** Two IPv6 addresses in the same /64 range share their quota key. */
  lemma SameRangeSameKey(a: seq<string>, b: seq<string>)
    requires |a| >= 4 && |b| >= 4 && a[..4] == b[..4]
    requires forall i :: 0 <= i < |a| ==> ':' !in a[i]
    requires forall i :: 0 <= i < |b| ==> ':' !in b[i]
    requires !EndsWith(Join(a, ':'), "/64") && !EndsWith(Join(b, ':'), "/64")
    ensures NormalizeIp(Join(a, ':')) == NormalizeIp(Join(b, ':'))
  {
    NormalizeIpGroups(a);
    NormalizeIpGroups(b);
  }

  /** An IPv6 address of fewer than four groups gets `/64` appended. */
  lemma NormalizeIpFewGroups(groups: seq<string>)
    requires 2 <= |groups| < 4
    requires forall i :: 0 <= i < |groups| ==> ':' !in groups[i]
    requires !EndsWith(Join(groups, ':'), "/64")
    ensures NormalizeIp(Join(groups, ':')) == Join(groups, ':') + "/64"
  {
    JoinHasSeparator(groups, ':');
    SplitJoin(groups, ':');
  }
}
