/**
 * The environment-driven settings (elysium_archive/settings.py): the
 * boolean parser, DEBUG and the allowed-hosts list. An unset variable is
 * None; the environment itself is the caller's.
 */
module Settings {
  import opened Wrappers
  import opened Text

  /** The spellings _env_bool accepts as true (after trimming and lower-casing). */
  const TrueWords: seq<string> := ["true", "1", "yes", "y", "on"]

  /** _env_bool: the default for an unset variable, else whether the normalised text is a true word. */
  function EnvBool(value: Option<string>, default: bool): (r: bool)
    ensures value.None? ==> r == default
    ensures value.Some? ==> (r <==> Lower(Strip(value.value)) in TrueWords)
  {
    if value.None? then default else Lower(Strip(value.value)) in TrueWords
  }

  /** A set variable decides alone: the default plays no part, and "" or any other word is false. */
  lemma EnvBoolIgnoresDefault(value: string, d1: bool, d2: bool)
    ensures EnvBool(Some(value), d1) == EnvBool(Some(value), d2)
    ensures EnvBool(Some(" Yes\n"), d1) && EnvBool(Some("ON"), d1) && !EnvBool(Some(""), true)
  {
    YesSpelling();
    OnSpelling();
    assert Strip("") == "" && Lower("") == "";
  }

  /**
   * For every value only the trimmed, lower-cased text decides: each value
   * reads as its normal form, letter case does not matter, and neither does
   * white space around it.
   */
  lemma EnvBoolNormalised(s: string, t: string, before: string, after: string, d: bool)
    requires AllSpace(before) && AllSpace(after)
    ensures EnvBool(Some(s), d) == EnvBool(Some(Lower(Strip(s))), d)
    ensures Lower(s) == Lower(t) ==> EnvBool(Some(s), d) == EnvBool(Some(t), d)
    ensures EnvBool(Some(before + s + after), d) == EnvBool(Some(s), d)
  {
    LowerStripNormal(s);
    LowerStripNormal(t);
    StripPadded(before, s, after);
  }

  lemma YesSpelling()
    ensures Lower(Strip(" Yes\n")) == "yes"
  {
    assert TrimStart(" Yes\n") == TrimStart("Yes\n") == "Yes\n";
    assert TrimEnd("Yes\n") == TrimEnd("Yes") == "Yes";
    assert Lower("Yes") == "yes";
  }

  lemma OnSpelling()
    ensures Lower(Strip("ON")) == "on"
  {
    assert Strip("ON") == "ON";
    assert Lower("ON") == "on";
  }

  /** DEBUG: true when the variable is unset. */
  function Debug(env: Option<string>): bool {
    EnvBool(env, true)
  }

  lemma DebugDefault()
    ensures Debug(None)
    ensures !Debug(Some("0")) && !Debug(Some("false"))
  {
    assert Lower(Strip("0")) == "0";
    assert Lower(Strip("false")) == "false";
  }

  /** The stripped parts that are not empty, in order. */
  function NonEmptyStripped(parts: seq<string>): (r: seq<string>)
    ensures |r| <= |parts|
  {
    if parts == [] then []
    else
      var h := Strip(parts[0]);
      (if h != "" then [h] else []) + NonEmptyStripped(parts[1..])
  }

  /** [h.strip() for h in raw.split(",") if h.strip()], with an unset variable read as "". */
  function ParseHosts(raw: Option<string>): seq<string> {
    NonEmptyStripped(RawParts(raw))
  }

  /** The comma-separated parts of the variable, an unset one read as "". */
  function RawParts(raw: Option<string>): seq<string> {
    SplitOn(if raw.Some? then raw.value else "", ',')
  }

  /** The entries are exactly the non-empty stripped parts. */
  lemma {:induction false} NonEmptyStrippedMembers(parts: seq<string>)
    ensures forall h :: h in NonEmptyStripped(parts) <==> h != "" && exists k :: 0 <= k < |parts| && Strip(parts[k]) == h
  {
    if parts != [] {
      var tail := parts[1..];
      NonEmptyStrippedMembers(tail);
      var h0 := Strip(parts[0]);
      var rest := NonEmptyStripped(tail);
      forall h | h != "" && exists k :: 0 <= k < |parts| && Strip(parts[k]) == h
        ensures h in NonEmptyStripped(parts)
      {
        var k :| 0 <= k < |parts| && Strip(parts[k]) == h;
        if k > 0 {
          assert Strip(tail[k - 1]) == h;
          assert h in rest;
        }
      }
      forall h | h in NonEmptyStripped(parts)
        ensures h != "" && exists k :: 0 <= k < |parts| && Strip(parts[k]) == h
      {
        if h != h0 || h0 == "" {
          assert h in rest;
          var k :| 0 <= k < |tail| && Strip(tail[k]) == h;
          assert Strip(parts[k + 1]) == h;
        } else {
          assert Strip(parts[0]) == h;
        }
      }
    }
  }

  /** A host entry: non-empty, comma-free, with no white space at either end. */
  predicate CleanHost(h: string) {
    h != "" && ',' !in h && !IsSpace(h[0]) && !IsSpace(h[|h| - 1])
  }

  /** No entry is empty, contains a comma, or starts or ends with white space. */
  lemma {:induction false} NonEmptyStrippedShape(parts: seq<string>)
    requires forall k :: 0 <= k < |parts| ==> ',' !in parts[k]
    ensures forall h :: h in NonEmptyStripped(parts) ==> CleanHost(h)
  {
    if parts != [] {
      NonEmptyStrippedShape(parts[1..]);
      StripNoComma(parts[0]);
      var h := Strip(parts[0]);
      var rest := NonEmptyStripped(parts[1..]);
      assert NonEmptyStripped(parts) == (if h != "" then [h] else []) + rest;
    }
  }

  /** Every host of the parsed list is a non-empty, stripped part of the variable without a comma. */
  lemma ParseHostsSpec(raw: Option<string>)
    ensures forall h :: h in ParseHosts(raw) <==> h != "" && exists k :: 0 <= k < |RawParts(raw)| && Strip(RawParts(raw)[k]) == h
    ensures forall h :: h in ParseHosts(raw) ==> CleanHost(h)
  {
    NonEmptyStrippedMembers(RawParts(raw));
    NonEmptyStrippedShape(RawParts(raw));
  }

  /** Stripping only removes characters, so it adds no comma. */
  lemma StripNoComma(s: string)
    requires ',' !in s
    ensures ',' !in Strip(s)
  {
    TrimStartSuffix(s);
    var t := TrimStart(s);
    assert TrimEnd(t) == t[..|TrimEnd(t)|];
  }

  lemma {:induction false} TrimStartSuffix(s: string)
    ensures exists k :: 0 <= k <= |s| && TrimStart(s) == s[k..]
  {
    if s != [] && IsSpace(s[0]) {
      TrimStartSuffix(s[1..]);
      var k :| 0 <= k <= |s[1..]| && TrimStart(s[1..]) == s[1..][k..];
      assert s[1..][k..] == s[k + 1..];
    } else {
      assert s == s[0..];
    }
  }

  /** Appending one host adds one occurrence of it and none of any other. */
  lemma AppendHostCount(s: seq<string>, h: string, x: string)
    ensures Count(s + [h], x) == Count(s, x) + (if x == h then 1 else 0)
  {
    CountAppend(s, [h], x);
    assert Count([h], x) == (if h == x then 1 else 0) + Count([h][1..], x);
  }

  /**
   * ALLOWED_HOSTS: the parsed list; under DEBUG, "localhost" and then
   * "127.0.0.1" are appended, each only when absent.
   */
  method AllowedHosts(raw: Option<string>, debug: bool) returns (hosts: seq<string>)
    ensures var parsed := ParseHosts(raw);
      && (!debug ==> hosts == parsed)
      && (debug ==> |parsed| <= |hosts| && hosts[..|parsed|] == parsed && "localhost" in hosts && "127.0.0.1" in hosts)
      && (debug ==> Count(hosts, "localhost") == (if "localhost" in parsed then Count(parsed, "localhost") else 1))
      && (debug ==> Count(hosts, "127.0.0.1") == (if "127.0.0.1" in parsed then Count(parsed, "127.0.0.1") else 1))
      && (debug ==> |hosts| == |parsed| + (if "localhost" in parsed then 0 else 1) + (if "127.0.0.1" in parsed then 0 else 1))
  {
    var parsed := ParseHosts(raw);
    hosts := parsed;
    if debug {
      assert "localhost"[0] != "127.0.0.1"[0];
      hosts := AppendIfAbsent(hosts, "localhost");
      ghost var middle := hosts;
      hosts := AppendIfAbsent(hosts, "127.0.0.1");
      assert hosts[..|parsed|] == middle[..|parsed|];
      CountZero(parsed, "localhost");
      CountZero(parsed, "127.0.0.1");
    }
  }

  /** `if h not in hosts: hosts.append(h)`: the list gains h at its end only when h is absent. */
  method AppendIfAbsent(hosts: seq<string>, h: string) returns (r: seq<string>)
    ensures h in r && |hosts| <= |r| && r[..|hosts|] == hosts
    ensures |r| == |hosts| + (if h in hosts then 0 else 1)
    ensures forall x :: x in r <==> x in hosts || x == h
    ensures forall x :: Count(r, x) == Count(hosts, x) + (if x == h && h !in hosts then 1 else 0)
  {
    r := hosts;
    if h !in hosts {
      forall x {
        AppendHostCount(hosts, h, x);
      }
      r := hosts + [h];
      assert r[..|hosts|] == hosts;
    }
  }
}
