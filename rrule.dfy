/** The recurrence-rule editing step of `delete-timeframe`: split an RRULE value
    into `KEY=VALUE` parts, collect them in a map, cap UNTIL at a cutoff and write
    the map back as `KEY=VALUE;` text. */
module RRule {
  import opened Document

  // ---------------------------------------------------------------------------
  // Go's strings.Split for a one-character separator
  // ---------------------------------------------------------------------------

  /** The position of the first `c` in `s`. */
  function IndexOf(s: string, c: char): (i: nat)
    requires c in s
    ensures i < |s| && s[i] == c && c !in s[..i]
  {
    if s[0] == c then 0
    else
      HeadTail(s);
      var j := IndexOf(s[1..], c);
      assert s[..j + 1] == [s[0]] + s[1..][..j];
      j + 1
  }

  /** `strings.Split(s, string(sep))`: the pieces between separators, always at
      least one (`Split("", sep) == [""]`), none containing the separator. */
  function Split(s: string, sep: char): (parts: seq<string>)
    ensures |parts| >= 1
    ensures sep in s <==> |parts| >= 2
    ensures forall p :: p in parts ==> sep !in p
    decreases |s|
  {
    if sep !in s then [s]
    else
      var i := IndexOf(s, sep);
      [s[..i]] + Split(s[i + 1..], sep)
  }

  /** `strings.Join(parts, string(sep))`. */
  function Join(parts: seq<string>, sep: char): string
  {
    if parts == [] then ""
    else if |parts| == 1 then parts[0]
    else parts[0] + [sep] + Join(parts[1..], sep)
  }

  /** Joining the parts of a split with the same separator gives the text back. */
  lemma {:induction false} JoinSplit(s: string, sep: char)
    ensures Join(Split(s, sep), sep) == s
    decreases |s|
  {
    if sep in s {
      var i := IndexOf(s, sep);
      var rest := Split(s[i + 1..], sep);
      JoinSplit(s[i + 1..], sep);
      TailOfAppend([s[..i]], rest);
      SliceStep(s, i);
    }
  }

  /** A character missing from `s` is missing from every part of it. */
  lemma {:induction false} SplitKeepsOut(s: string, sep: char, x: char)
    requires x !in s
    ensures forall p :: p in Split(s, sep) ==> x !in p
    decreases |s|
  {
    if sep in s {
      var i := IndexOf(s, sep);
      assert forall ch :: ch in s[..i] ==> ch in s;
      assert forall ch :: ch in s[i + 1..] ==> ch in s;
      SplitKeepsOut(s[i + 1..], sep, x);
    }
  }

  /** The first separator of `a + [sep] + b` is the first of `a`, or the one added. */
  lemma {:induction false} IndexOfJoin(a: string, b: string, sep: char)
    ensures sep !in a ==> IndexOf(a + [sep] + b, sep) == |a|
    ensures sep in a ==> IndexOf(a + [sep] + b, sep) == IndexOf(a, sep)
  {
    var s := a + [sep] + b;
    if a != [] && a[0] != sep {
      assert s[1..] == a[1..] + [sep] + b;
      HeadTail(a);
      IndexOfJoin(a[1..], b, sep);
    }
  }

  /** One step of the split: the text before the first separator, then the
      split of the rest. */
  lemma SplitUnfold(s: string, sep: char)
    requires sep in s
    ensures Split(s, sep) == [s[..IndexOf(s, sep)]] + Split(s[IndexOf(s, sep) + 1..], sep)
  {
  }

  /** The slices of `a + [x] + b` around position `j` of `a`, and around `x`. */
  lemma JoinSlices<T>(a: seq<T>, x: T, b: seq<T>, j: nat)
    requires j < |a|
    ensures (a + [x] + b)[..j] == a[..j]
    ensures (a + [x] + b)[j + 1..] == a[j + 1..] + [x] + b
    ensures (a + [x] + b)[..|a|] == a && (a + [x] + b)[|a| + 1..] == b
  {
  }

  /** Splitting at a separator splits each side independently. */
  lemma {:induction false} SplitAtSep(a: string, b: string, sep: char)
    ensures Split(a + [sep] + b, sep) == Split(a, sep) + Split(b, sep)
    decreases |a|
  {
    var s := a + [sep] + b;
    IndexOfJoin(a, b, sep);
    assert s[|a|] == sep;
    SplitUnfold(s, sep);
    if sep !in a {
      SplitFirstPiece(a, b, sep);
    } else {
      var j := IndexOf(a, sep);
      JoinSlices(a, sep, b, j);
      SplitAtSep(a[j + 1..], b, sep);
      SplitUnfold(a, sep);
      AppendAssoc([a[..j]], Split(a[j + 1..], sep), Split(b, sep));
    }
  }

  /** When `a` has no separator, it is the first piece of `a + [sep] + b`. */
  lemma SplitFirstPiece(a: string, b: string, sep: char)
    requires sep !in a
    ensures Split(a + [sep] + b, sep) == [a] + Split(b, sep)
  {
    var s := a + [sep] + b;
    IndexOfJoin(a, b, sep);
    assert s[|a|] == sep;
    SplitUnfold(s, sep);
    assert s[..|a|] == a && s[|a| + 1..] == b;
  }

  // ---------------------------------------------------------------------------
  // Parts and the map they build
  // ---------------------------------------------------------------------------

  /** `p[0]` of `strings.Split(part, "=")`: the text before the first '='. */
  function PartKey(part: string): string
    requires '=' in part
  {
    Split(part, '=')[0]
  }

  /** `p[1]` of `strings.Split(part, "=")`: the text between the first '=' and
      the next one (or the end). */
  function PartValue(part: string): string
    requires '=' in part
  {
    Split(part, '=')[1]
  }

  /** A part written as `key=value`, with neither side holding '=', reads back as
      that key and that value. */
  lemma PartOfPair(k: string, v: string)
    requires '=' !in k && '=' !in v
    ensures '=' in k + "=" + v
    ensures PartKey(k + "=" + v) == k && PartValue(k + "=" + v) == v
  {
    assert k + "=" + v == k + ['='] + v;
    assert (k + "=" + v)[|k|] == '=';
    SplitAtSep(k, v, '=');
  }

  /** The map the loop of modules.go:292-295 builds, as written: every part is
      split at '=' and indexed at [1], and a later part wins over an earlier one
      with the same key. */
  function RuleMapAsWritten(parts: seq<string>): map<string, string>
    requires forall p :: p in parts ==> '=' in p
  {
    if parts == [] then map[]
    else
      var last := parts[|parts| - 1];
      RuleMapAsWritten(parts[..|parts| - 1])[PartKey(last) := PartValue(last)]
  }

  /** The rules that loop accepts: a part without '=' makes `p[1]` panic. */
  predicate SplittableAsWritten(rule: string)
  {
    forall p :: p in Split(rule, ';') ==> '=' in p
  }

  /** The rules the corrected loop accepts: only a non-empty part without '='
      is malformed. */
  predicate WellFormedRule(rule: string)
  {
    forall p :: p in Split(rule, ';') && p != "" ==> '=' in p
  }

  /** The map building with empty parts skipped, the corrected form of
      RuleMapAsWritten. */
  function RuleMap(parts: seq<string>): map<string, string>
    requires forall p :: p in parts && p != "" ==> '=' in p
  {
    if parts == [] then map[]
    else
      var last := parts[|parts| - 1];
      var m := RuleMap(parts[..|parts| - 1]);
      if last == "" then m else m[PartKey(last) := PartValue(last)]
  }

  /** The key/value map of an RRULE value. */
  function ParseRule(rule: string): map<string, string>
    requires WellFormedRule(rule)
  {
    RuleMap(Split(rule, ';'))
  }

  /** Where the as-written loop does not panic, the corrected one accepts the
      rule and builds the same map. */
  lemma {:induction false} RuleMapAgrees(parts: seq<string>)
    requires forall p :: p in parts ==> '=' in p
    ensures RuleMap(parts) == RuleMapAsWritten(parts)
  {
    if parts != [] {
      var init := parts[..|parts| - 1];
      assert forall p :: p in init ==> p in parts;
      RuleMapAgrees(init);
      assert parts[|parts| - 1] in parts;
    }
  }

  lemma ParseRuleAgrees(rule: string)
    requires SplittableAsWritten(rule)
    ensures WellFormedRule(rule)
    ensures ParseRule(rule) == RuleMapAsWritten(Split(rule, ';'))
  {
    RuleMapAgrees(Split(rule, ';'));
  }

  /** Text that can stand as a key or a value of a rule part. */
  predicate CleanText(t: string)
  {
    ';' !in t && '=' !in t
  }

  predicate CleanMap(m: map<string, string>)
  {
    forall k :: k in m ==> CleanText(k) && CleanText(m[k])
  }

  /** Keys and values read from parts hold neither separator. */
  lemma {:induction false} RuleMapIsClean(parts: seq<string>)
    requires forall p :: p in parts && p != "" ==> '=' in p
    requires forall p :: p in parts ==> ';' !in p
    ensures CleanMap(RuleMap(parts))
  {
    if parts != [] {
      var init := parts[..|parts| - 1];
      assert forall p :: p in init ==> p in parts;
      RuleMapIsClean(init);
      var last := parts[|parts| - 1];
      assert last in parts;
      if last != "" {
        var kv := Split(last, '=');
        SplitKeepsOut(last, '=', ';');
        assert kv[0] in kv && kv[1] in kv;
      }
    }
  }

  lemma ParsedRuleIsClean(rule: string)
    requires WellFormedRule(rule)
    ensures CleanMap(ParseRule(rule))
  {
    RuleMapIsClean(Split(rule, ';'));
  }

  // ---------------------------------------------------------------------------
  // Reassembly
  // ---------------------------------------------------------------------------

  /** `rrulestring += k + "=" + v + ";"` for each key in the order `keys` visits them. */
  function JoinRule(m: map<string, string>, keys: seq<string>): string
    requires forall k :: k in keys ==> k in m
  {
    if keys == [] then ""
    else keys[0] + "=" + m[keys[0]] + ";" + JoinRule(m, keys[1..])
  }

  /** The `key=value` parts JoinRule writes, in order. */
  function Pairs(m: map<string, string>, keys: seq<string>): (ps: seq<string>)
    requires forall k :: k in keys ==> k in m
    ensures |ps| == |keys|
  {
    seq(|keys|, i requires 0 <= i < |keys| => keys[i] + "=" + m[keys[i]])
  }

  /** Splitting reassembled text gives the parts back, followed by the empty
      part after the trailing ';'. */
  lemma {:induction false} SplitJoinRule(m: map<string, string>, keys: seq<string>)
    requires forall k :: k in keys ==> k in m
    requires CleanMap(m)
    ensures Split(JoinRule(m, keys), ';') == Pairs(m, keys) + [""]
  {
    if keys == [] {
      assert Split("", ';') == [""];
    } else {
      var pair := keys[0] + "=" + m[keys[0]];
      var rest := JoinRule(m, keys[1..]);
      assert JoinRule(m, keys) == keys[0] + "=" + m[keys[0]] + ";" + rest;
      SplitPairThenRest(keys[0], m[keys[0]], rest);
      SplitJoinRule(m, keys[1..]);
      PairsCons(m, keys);
      assert [pair] + (Pairs(m, keys[1..]) + [""]) == ([pair] + Pairs(m, keys[1..])) + [""];
    }
  }

  lemma PairsCons(m: map<string, string>, keys: seq<string>)
    requires keys != [] && forall k :: k in keys ==> k in m
    ensures Pairs(m, keys) == [keys[0] + "=" + m[keys[0]]] + Pairs(m, keys[1..])
  {
    var a := Pairs(m, keys);
    var b := [keys[0] + "=" + m[keys[0]]] + Pairs(m, keys[1..]);
    forall i | 0 <= i < |a| ensures a[i] == b[i] {
      if i > 0 {
        assert b[i] == Pairs(m, keys[1..])[i - 1];
      }
    }
  }

  /** A clean `key=value;` in front splits off as one part. */
  lemma SplitPairThenRest(k: string, v: string, rest: string)
    requires CleanText(k) && CleanText(v)
    ensures Split(k + "=" + v + ";" + rest, ';') == [k + "=" + v] + Split(rest, ';')
  {
    PairIsClean(k, v);
    assert k + "=" + v + ";" + rest == (k + "=" + v) + [';'] + rest;
    SplitAtSep(k + "=" + v, rest, ';');
  }

  lemma PairIsClean(k: string, v: string)
    requires CleanText(k) && CleanText(v)
    ensures ';' !in k + "=" + v
    ensures Split(k + "=" + v, ';') == [k + "=" + v]
  {
  }

  /** Reassembled text always ends in ';' (or is empty). */
  lemma {:induction false} JoinRuleEndsWithSep(m: map<string, string>, keys: seq<string>)
    requires forall k :: k in keys ==> k in m
    ensures keys != [] ==> |JoinRule(m, keys)| > 0 && JoinRule(m, keys)[|JoinRule(m, keys)| - 1] == ';'
  {
    if keys != [] {
      JoinRuleEndsWithSep(m, keys[1..]);
    }
  }

  /** FINDING (as written): the text modules.go:318-321 writes never survives
      the split of modules.go:289-295 a second time: the trailing ';' leaves an
      empty part, and `p[1]` of an empty part panics. */
  lemma ReassembledRuleNotSplittable(m: map<string, string>, keys: seq<string>)
    requires forall k :: k in keys ==> k in m
    ensures !SplittableAsWritten(JoinRule(m, keys))
  {
    var j := JoinRule(m, keys);
    if keys == [] {
      assert Split(j, ';') == [""];
    } else {
      JoinRuleEndsWithSep(m, keys);
      assert j == j[..|j| - 1] + [';'] + "";
      SplitAtSep(j[..|j| - 1], "", ';');
      assert Split("", ';') == [""];
    }
    assert "" in Split(j, ';');
  }

  /** The map the corrected parse builds from parts with distinct-or-agreeing keys. */
  lemma {:induction false} RuleMapOfPairs(m: map<string, string>, keys: seq<string>)
    requires forall k :: k in keys ==> k in m
    requires CleanMap(m)
    ensures forall p :: p in Pairs(m, keys) ==> '=' in p
    ensures RuleMap(Pairs(m, keys)) == map k | k in keys :: m[k]
  {
    var ps := Pairs(m, keys);
    forall p | p in ps ensures '=' in p {
      var i :| 0 <= i < |ps| && ps[i] == p;
      PartOfPair(keys[i], m[keys[i]]);
    }
    if keys != [] {
      var n := |keys|;
      var init := keys[..n - 1];
      PairsInit(m, keys);
      RuleMapOfPairs(m, init);
      PartOfPair(keys[n - 1], m[keys[n - 1]]);
      assert ps[n - 1] != "" by { assert '=' in ps[n - 1]; }
      RestrictSnoc(m, keys);
    }
  }

  /** The pairs of all keys but the last are the pairs but the last. */
  lemma PairsInit(m: map<string, string>, keys: seq<string>)
    requires forall k :: k in keys ==> k in m
    requires keys != []
    ensures Pairs(m, keys[..|keys| - 1]) == Pairs(m, keys)[..|keys| - 1]
  {
  }

  /** The map restricted to `keys` is its restriction to all keys but the
      last, with the last one added. */
  lemma RestrictSnoc(m: map<string, string>, keys: seq<string>)
    requires forall k :: k in keys ==> k in m
    requires keys != []
    ensures (map k | k in keys :: m[k])
      == (map k | k in keys[..|keys| - 1] :: m[k])[keys[|keys| - 1] := m[keys[|keys| - 1]]]
  {
    var n := |keys|;
    assert forall k :: k in keys <==> k in keys[..n - 1] || k == keys[n - 1] by {
      assert keys == keys[..n - 1] + [keys[n - 1]];
    }
  }

  /** CORRECTED: re-splitting reassembled text with empty parts skipped gives
      back exactly the map that was written, whatever order the keys took. */
  lemma RuleRoundTrip(m: map<string, string>, keys: seq<string>)
    requires CleanMap(m) && IsListing(keys, m)
    ensures WellFormedRule(JoinRule(m, keys))
    ensures ParseRule(JoinRule(m, keys)) == m
  {
    SplitJoinRule(m, keys);
    RuleMapOfPairs(m, keys);
    var ps := Pairs(m, keys);
    assert (ps + [""])[..|ps|] == ps;
    assert forall p :: p in ps + [""] ==> p in ps || p == "";
  }

  // ---------------------------------------------------------------------------
  // Truncation at the cutoff
  // ---------------------------------------------------------------------------

  /** modules.go:297-316: an UNTIL later than `after` becomes `after`; an UNTIL at
      or before it stays; a COUNT rule stays as it is; a rule with neither gains
      `UNTIL=after`. An unparsable UNTIL is an error. */
  function TruncateRule(m: map<string, string>, after: Instant, env: Foreign): (r: Result<map<string, string>>)
    ensures r.Err? <==> "UNTIL" in m && env.parseUntil(m["UNTIL"]).None?
    ensures r.Err? ==> r.error == InvalidUntil
    ensures r.Ok? ==> forall k :: k != "UNTIL" ==>
      (k in r.value <==> k in m) && (k in m ==> r.value[k] == m[k])
    ensures r.Ok? ==> ("UNTIL" in r.value <==> "UNTIL" in m || "COUNT" !in m)
    ensures r.Ok? && "UNTIL" in r.value ==>
      ("UNTIL" in m && r.value["UNTIL"] == m["UNTIL"]) || r.value["UNTIL"] == env.formatUntil(after)
  {
    if "UNTIL" in m then
      match env.parseUntil(m["UNTIL"])
      case None => Err(InvalidUntil)
      case Some(until) =>
        if until > after then Ok(m["UNTIL" := env.formatUntil(after)]) else Ok(m)
    else if "COUNT" in m then Ok(m)
    else Ok(m["UNTIL" := env.formatUntil(after)])
  }

  /** The cases of the truncation, one by one. */
  lemma TruncateCases(m: map<string, string>, after: Instant, env: Foreign)
    ensures "UNTIL" in m && env.parseUntil(m["UNTIL"]).Some? && env.parseUntil(m["UNTIL"]).value > after
      ==> TruncateRule(m, after, env) == Ok(m["UNTIL" := env.formatUntil(after)])
    ensures "UNTIL" in m && env.parseUntil(m["UNTIL"]).Some? && env.parseUntil(m["UNTIL"]).value <= after
      ==> TruncateRule(m, after, env) == Ok(m)
    ensures "UNTIL" !in m && "COUNT" in m ==> TruncateRule(m, after, env) == Ok(m)
    ensures "UNTIL" !in m && "COUNT" !in m ==> TruncateRule(m, after, env) == Ok(m["UNTIL" := env.formatUntil(after)])
  {
  }

  /** Assuming the compact format reads back as the instant it was made from,
      a truncated rule ends at the earlier of its old end and the cutoff, never
      later than before. */
  lemma TruncateNeverExtends(m: map<string, string>, after: Instant, env: Foreign)
    requires env.parseUntil(env.formatUntil(after)) == Some(after)
    requires TruncateRule(m, after, env).Ok?
    requires "UNTIL" in TruncateRule(m, after, env).value
    ensures var u := TruncateRule(m, after, env).value["UNTIL"];
      env.parseUntil(u).Some? && env.parseUntil(u).value <= after
      && ("UNTIL" in m ==> env.parseUntil(u).value <= env.parseUntil(m["UNTIL"]).value)
  {
  }

  /** Under the same assumption, truncating twice at the same cutoff is truncating once. */
  lemma TruncateIdempotent(m: map<string, string>, after: Instant, env: Foreign)
    requires env.parseUntil(env.formatUntil(after)) == Some(after)
    requires TruncateRule(m, after, env).Ok?
    ensures TruncateRule(TruncateRule(m, after, env).value, after, env) == TruncateRule(m, after, env)
  {
  }

  /** The whole rewrite of one RRULE value (modules.go:289-321). */
  function RewriteRule(rule: string, after: Instant, env: Foreign): Result<string>
    requires WellFormedRule(rule) && ValidForeign(env)
  {
    match TruncateRule(ParseRule(rule), after, env)
    case Err(e) => Err(e)
    case Ok(m) =>
      assert IsListing(env.keyOrder(m), m);
      Ok(JoinRule(m, env.keyOrder(m)))
  }

  /** A rewritten rule, read back with the corrected split, is exactly the
      truncated map: keys and values survive whatever order Go's map took. */
  lemma RewriteRuleRoundTrip(rule: string, after: Instant, env: Foreign)
    requires WellFormedRule(rule) && ValidForeign(env)
    requires CleanText(env.formatUntil(after))
    requires RewriteRule(rule, after, env).Ok?
    ensures WellFormedRule(RewriteRule(rule, after, env).value)
    ensures ParseRule(RewriteRule(rule, after, env).value)
      == TruncateRule(ParseRule(rule), after, env).value
  {
    var m := TruncateRule(ParseRule(rule), after, env).value;
    ParsedRuleIsClean(rule);
    assert CleanMap(m);
    assert IsListing(env.keyOrder(m), m);
    RuleRoundTrip(m, env.keyOrder(m));
  }
}
