/** The deletion modules: delete-bysummary-regex, delete-byid, delete-timeframe
    and delete-duplicates. Each walks `cal.components` and removes events in
    place; each has a function giving what it leaves behind. */
module Deletion {
  import opened Document
  import RRule

  // ===========================================================================
  // delete-bysummary-regex (modules.go:54-103)
  // ===========================================================================

  /** An event the regex module removes: its start strictly inside the window
      and its summary matched by the pattern. */
  predicate RegexHit(c: Component, pattern: string, lo: Instant, hi: Instant, env: Foreign)
  {
    c.VEvent? && InWindow(c.event.start, lo, hi) && c.event.summary.Some?
    && env.matches(pattern, c.event.summary.value)
  }

  function KeepUnlessRegexHit(pattern: string, lo: Instant, hi: Instant, env: Foreign): Component -> bool
  {
    c => !RegexHit(c, pattern, lo, hi, env)
  }

  /** Every event the pattern is tried on has a summary: the source reads
      `.Value` of the summary of each event inside the window. */
  predicate SummariesInWindow(s: seq<Component>, lo: Instant, hi: Instant)
  {
    forall i :: 0 <= i < |s| && s[i].VEvent? && InWindow(s[i].event.start, lo, hi) ==> s[i].event.summary.Some?
  }

  /** The backward loop of modules.go:81-103. */
  method RemoveByRegexSummaryAndTime(cal: Calendar, pattern: string, lo: Instant, hi: Instant, env: Foreign)
    returns (count: int)
    requires SummariesInWindow(cal.components, lo, hi)
    modifies cal
    ensures cal.components == Filter(old(cal.components), KeepUnlessRegexHit(pattern, lo, hi, env))
    ensures count == -(Dropped(old(cal.components), KeepUnlessRegexHit(pattern, lo, hi, env)) as int)
    ensures cal.properties == old(cal.properties)
  {
    ghost var s := cal.components;
    ghost var keep := KeepUnlessRegexHit(pattern, lo, hi, env);
    count := 0;
    var i := |cal.components| - 1;
    while i >= 0
      invariant -1 <= i < |s|
      invariant cal.components == s[..i + 1] + Filter(s[i + 1..], keep)
      invariant count == -(Dropped(s[i + 1..], keep) as int)
      invariant cal.properties == old(cal.properties)
    {
      ghost var rest := Filter(s[i + 1..], keep);
      FilterFrom(s, i, keep);
      SliceStep(s, i);
      var c := cal.components[i];
      assert c == s[i];
      if c.VEvent? {
        var event := c.event;
        if InWindow(event.start, lo, hi) {
          if env.matches(pattern, event.summary.value) {
            assert !keep(c);
            RemoveAtJoin(s[..i], c, rest);
            cal.components := RemoveAt(cal.components, i);
            count := count - 1;
          }
        }
      }
      i := i - 1;
    }
    assert s[0..] == s;
  }

  /** modules.go:74-77: the same loop with the widest window. */
  method RemoveByRegexSummary(cal: Calendar, pattern: string, env: Foreign) returns (count: int)
    requires SummariesInWindow(cal.components, ZeroTime, MaxTime)
    modifies cal
    ensures cal.components == Filter(old(cal.components), KeepUnlessRegexHit(pattern, ZeroTime, MaxTime, env))
    ensures count == -(Dropped(old(cal.components), KeepUnlessRegexHit(pattern, ZeroTime, MaxTime, env)) as int)
    ensures cal.properties == old(cal.properties)
  {
    count := RemoveByRegexSummaryAndTime(cal, pattern, ZeroTime, MaxTime, env);
  }

  /** The window of modules.go:60-66: (from, until) only when both are given,
      an unparsable bound reading as the zero time; otherwise every instant. */
  function RegexWindow(params: Params, env: Foreign): (Instant, Instant)
  {
    if Get(params, "from") != "" && Get(params, "until") != "" then
      (ParseOrZero(Get(params, "from"), env), ParseOrZero(Get(params, "until"), env))
    else (ZeroTime, MaxTime)
  }

  /** What the source needs of its caller: a pattern that compiles (a failed
      compile leaves a nil regexp that is dereferenced) and a summary on every
      event it is tried on. */
  predicate DeleteSummaryRegexPre(s: seq<Component>, params: Params, env: Foreign)
  {
    Get(params, "regex") != "" ==>
      env.compiles(Get(params, "regex"))
      && SummariesInWindow(s, RegexWindow(params, env).0, RegexWindow(params, env).1)
  }

  /** What delete-bysummary-regex leaves behind. */
  function DeleteSummaryRegexOutcome(s: seq<Component>, params: Params, env: Foreign): (o: Outcome)
    requires DeleteSummaryRegexPre(s, params, env)
    ensures o.delta <= 0 && |o.comps| == |s| + o.delta
    ensures o.err.Some? <==> Get(params, "regex") == ""
    ensures o.err.Some? ==> o.comps == s && o.delta == 0 && o.err.value == MissingParameter("regex")
    ensures o.err.None? ==> forall c :: c in o.comps <==>
      c in s && !RegexHit(c, Get(params, "regex"), RegexWindow(params, env).0, RegexWindow(params, env).1, env)
    ensures Others(o.comps) == Others(s)
  {
    if Get(params, "regex") == "" then Outcome(s, 0, Some(MissingParameter("regex")))
    else
      var (lo, hi) := RegexWindow(params, env);
      var keep := KeepUnlessRegexHit(Get(params, "regex"), lo, hi, env);
      FilterKeepsOthers(s, keep);
      FilterMembers(s, keep);
      Outcome(Filter(s, keep), -(Dropped(s, keep) as int), None)
  }

  /** moduleDeleteSummaryRegex. */
  method DeleteSummaryRegex(cal: Calendar, params: Params, env: Foreign)
    returns (delta: int, err: Option<ModuleError>)
    requires DeleteSummaryRegexPre(cal.components, params, env)
    modifies cal
    ensures Outcome(cal.components, delta, err) == DeleteSummaryRegexOutcome(old(cal.components), params, env)
    ensures cal.properties == old(cal.properties)
  {
    if Get(params, "regex") == "" {
      return 0, Some(MissingParameter("regex"));
    }
    var pattern := Get(params, "regex");
    var count: int;
    if Get(params, "from") != "" && Get(params, "until") != "" {
      var from := ParseOrZero(Get(params, "from"), env);
      var until := ParseOrZero(Get(params, "until"), env);
      count := RemoveByRegexSummaryAndTime(cal, pattern, from, until, env);
    } else {
      count := RemoveByRegexSummary(cal, pattern, env);
    }
    if count > 0 {
      // The guard of modules.go:67-69: the count only ever goes down, so this never happens.
      assert false;
    }
    return count, None;
  }

  // ===========================================================================
  // delete-byid (modules.go:108-126)
  // ===========================================================================

  predicate HasId(c: Component, id: string)
  {
    c.VEvent? && c.event.id == id
  }

  function KeepUnlessId(id: string): Component -> bool
  {
    c => !HasId(c, id)
  }

  /** At most one event carries `id`. The source's `break` leaves only the
      `switch`, so its `range` loop goes on over the original length while
      the removal shifts the shared array under it; with a single match that
      changes nothing, with two it would. */
  predicate AtMostOneWithId(s: seq<Component>, id: string)
  {
    forall i, j :: 0 <= i < |s| && 0 <= j < |s| && HasId(s[i], id) && HasId(s[j], id) ==> i == j
  }

  lemma {:induction false} DroppedAtMostOne(s: seq<Component>, id: string)
    requires AtMostOneWithId(s, id)
    ensures Dropped(s, KeepUnlessId(id)) <= 1
  {
    if s != [] {
      assert AtMostOneWithId(s[1..], id) by {
        forall i, j | 0 <= i < |s| - 1 && 0 <= j < |s| - 1 && HasId(s[1..][i], id) && HasId(s[1..][j], id)
          ensures i == j
        {
          assert HasId(s[i + 1], id) && HasId(s[j + 1], id);
        }
      }
      if HasId(s[0], id) {
        forall i | 0 <= i < |s[1..]| ensures KeepUnlessId(id)(s[1..][i]) {
          assert s[1..][i] == s[i + 1];
        }
        FilterKeepsAll(s[1..], KeepUnlessId(id));
      } else {
        DroppedAtMostOne(s[1..], id);
      }
    }
  }

  /** What the source needs of its caller: when an id is given, at most one
      event carries it. Without an id the module fails before looking. */
  predicate DeleteIdPre(s: seq<Component>, params: Params)
  {
    Get(params, "id") != "" ==> AtMostOneWithId(s, Get(params, "id"))
  }

  /** What delete-byid leaves behind. */
  function DeleteIdOutcome(s: seq<Component>, params: Params): (o: Outcome)
    requires DeleteIdPre(s, params)
    ensures o.delta == 0 || o.delta == -1
    ensures Get(params, "id") == "" ==> o == Outcome(s, 0, Some(MissingParameter("id")))
    ensures Get(params, "id") != "" ==> o.err.None? && |o.comps| == |s| + o.delta
    ensures Get(params, "id") != "" ==> forall c :: c in o.comps <==> c in s && !HasId(c, Get(params, "id"))
    ensures Others(o.comps) == Others(s)
  {
    var id := Get(params, "id");
    if id == "" then Outcome(s, 0, Some(MissingParameter("id")))
    else
      DroppedAtMostOne(s, id);
      FilterKeepsOthers(s, KeepUnlessId(id));
      FilterMembers(s, KeepUnlessId(id));
      Outcome(Filter(s, KeepUnlessId(id)), -(Dropped(s, KeepUnlessId(id)) as int), None)
  }

  /** A unique id removes just its event, at its position, with delta -1. */
  lemma DeleteIdRemovesTheEvent(s: seq<Component>, params: Params, k: nat)
    requires DeleteIdPre(s, params)
    requires Get(params, "id") != "" && k < |s| && HasId(s[k], Get(params, "id"))
    ensures DeleteIdOutcome(s, params) == Outcome(RemoveAt(s, k), -1, None)
  {
    var id := Get(params, "id");
    var keep := KeepUnlessId(id);
    var a, b := s[..k], s[k + 1..];
    assert s == a + ([s[k]] + b);
    forall i | 0 <= i < |a| ensures keep(a[i]) {
      assert a[i] == s[i];
    }
    forall i | 0 <= i < |b| ensures keep(b[i]) {
      assert b[i] == s[k + 1 + i];
    }
    FilterKeepsAll(a, keep);
    FilterKeepsAll(b, keep);
    assert Filter([s[k]] + b, keep) == b && Dropped([s[k]] + b, keep) == 1 by {
      assert ([s[k]] + b)[1..] == b;
    }
    FilterAppend(a, [s[k]] + b, keep);
    assert RemoveAt(s, k) == a + b;
  }

  /** An id that no event carries changes nothing and returns 0. */
  lemma DeleteIdAbsent(s: seq<Component>, params: Params)
    requires Get(params, "id") != ""
    requires forall i :: 0 <= i < |s| ==> !HasId(s[i], Get(params, "id"))
    ensures DeleteIdOutcome(s, params) == Outcome(s, 0, None)
  {
    FilterKeepsAll(s, KeepUnlessId(Get(params, "id")));
  }

  /** Deleting the same id a second time is a no-op returning 0. */
  lemma DeleteIdTwice(s: seq<Component>, params: Params)
    requires AtMostOneWithId(s, Get(params, "id")) && Get(params, "id") != ""
    ensures var once := DeleteIdOutcome(s, params).comps;
      AtMostOneWithId(once, Get(params, "id"))
      && DeleteIdOutcome(once, params) == Outcome(once, 0, None)
  {
    var once := DeleteIdOutcome(s, params).comps;
    forall i | 0 <= i < |once| ensures !HasId(once[i], Get(params, "id")) {
      assert once[i] in once;
    }
    DeleteIdAbsent(once, params);
  }

  /** No event in front of the one carrying the id carries it too. */
  lemma NothingBeforeId(s: seq<Component>, i: nat, id: string)
    requires AtMostOneWithId(s, id) && i < |s| && HasId(s[i], id)
    ensures Filter(s[..i], KeepUnlessId(id)) == s[..i]
  {
    forall k | 0 <= k < i ensures KeepUnlessId(id)(s[..i][k]) {
      assert s[..i][k] == s[k];
    }
    FilterKeepsAll(s[..i], KeepUnlessId(id));
  }

  /** The forward loop's step at the event carrying the id: nothing in front
      of it was removed, so removing position i drops exactly that event. */
  lemma DeleteIdStepMatch(s: seq<Component>, i: nat, id: string)
    requires AtMostOneWithId(s, id) && i < |s| && HasId(s[i], id)
    ensures i < |Filter(s[..i], KeepUnlessId(id)) + s[i..]|
    ensures RemoveAt(Filter(s[..i], KeepUnlessId(id)) + s[i..], i) == Filter(s[..i + 1], KeepUnlessId(id)) + s[i + 1..]
    ensures Dropped(s[..i + 1], KeepUnlessId(id)) == Dropped(s[..i], KeepUnlessId(id)) + 1
  {
    FilterUpTo(s, i, KeepUnlessId(id));
    NothingBeforeId(s, i, id);
    assert s[..i] + s[i..] == s[..i] + [s[i]] + s[i + 1..];
    RemoveAtJoin(s[..i], s[i], s[i + 1..]);
  }

  /** The forward loop's step at any other component: nothing changes. */
  lemma DeleteIdStepSkip(s: seq<Component>, i: nat, id: string)
    requires i < |s| && !HasId(s[i], id)
    ensures Filter(s[..i], KeepUnlessId(id)) + s[i..] == Filter(s[..i + 1], KeepUnlessId(id)) + s[i + 1..]
    ensures Dropped(s[..i + 1], KeepUnlessId(id)) == Dropped(s[..i], KeepUnlessId(id))
  {
    FilterUpTo(s, i, KeepUnlessId(id));
    assert s[i..] == [s[i]] + s[i + 1..];
  }

  /** The forward loop of modules.go:114-123. `range` keeps the original
      length while each removal shifts the shared array; with at most one
      removal the loop meets no shifted component it has not seen. */
  method RemoveById(cal: Calendar, id: string) returns (count: int)
    requires AtMostOneWithId(cal.components, id)
    modifies cal
    ensures cal.components == Filter(old(cal.components), KeepUnlessId(id))
    ensures count == -(Dropped(old(cal.components), KeepUnlessId(id)) as int)
    ensures cal.properties == old(cal.properties)
  {
    var snapshot := cal.components;
    ghost var keep := KeepUnlessId(id);
    count := 0;
    var i := 0;
    assert snapshot[..0] == [] && snapshot[0..] == snapshot;
    while i < |snapshot|
      invariant 0 <= i <= |snapshot|
      invariant cal.components == Filter(snapshot[..i], keep) + snapshot[i..]
      invariant count == -(Dropped(snapshot[..i], keep) as int)
      invariant cal.properties == old(cal.properties)
    {
      var component := snapshot[i];
      if component.VEvent? && component.event.id == id {
        DeleteIdStepMatch(snapshot, i, id);
        cal.components := RemoveAt(cal.components, i);
        assert cal.components == Filter(snapshot[..i + 1], keep) + snapshot[i + 1..];
        count := count - 1;
      } else {
        DeleteIdStepSkip(snapshot, i, id);
        assert cal.components == Filter(snapshot[..i + 1], keep) + snapshot[i + 1..];
      }
      i := i + 1;
    }
    assert snapshot[..i] == snapshot;
  }

  /** moduleDeleteId. */
  method DeleteId(cal: Calendar, params: Params) returns (delta: int, err: Option<ModuleError>)
    requires DeleteIdPre(cal.components, params)
    modifies cal
    ensures Outcome(cal.components, delta, err) == DeleteIdOutcome(old(cal.components), params)
    ensures cal.properties == old(cal.properties)
  {
    var id := Get(params, "id");
    if id == "" {
      return 0, Some(MissingParameter("id"));
    }
    var count := RemoveById(cal, id);
    return count, None;
  }

  // ===========================================================================
  // delete-timeframe (modules.go:247-342)
  // ===========================================================================

  /** Every RRULE in `s` can be split; see RRule.WellFormedRule. */
  predicate RulesWellFormed(s: seq<Component>)
  {
    forall i :: 0 <= i < |s| && s[i].VEvent? && s[i].event.rrule.Some? ==>
      RRule.WellFormedRule(s[i].event.rrule.value)
  }

  predicate RuleWellFormed(c: Component)
  {
    c.VEvent? && c.event.rrule.Some? ==> RRule.WellFormedRule(c.event.rrule.value)
  }

  /** An event with an RRULE gets the rule rewritten at the cutoff `after`;
      nothing else about the component changes. */
  function RewriteComponent(c: Component, after: Instant, env: Foreign): (r: Result<Component>)
    requires RuleWellFormed(c) && ValidForeign(env)
    ensures r.Err? ==> c.VEvent? && c.event.rrule.Some?
    ensures r.Ok? ==> (r.value.VEvent? <==> c.VEvent?)
    ensures r.Ok? && c.Other? ==> r.value == c
    ensures r.Ok? && c.VEvent? ==> r.value.event == c.event.(rrule := r.value.event.rrule)
    ensures r.Ok? && c.VEvent? ==> (r.value.event.rrule.Some? <==> c.event.rrule.Some?)
  {
    if c.VEvent? && c.event.rrule.Some? then
      match RRule.RewriteRule(c.event.rrule.value, after, env)
      case Err(e) => Err(e)
      case Ok(rule) => Ok(VEvent(c.event.(rrule := Some(rule))))
    else Ok(c)
  }

  /** The rule of `c` splits, but its UNTIL does not parse: the loop stops here. */
  predicate UntilUnreadable(c: Component, lo: Instant, env: Foreign)
    requires ValidForeign(env)
  {
    RuleWellFormed(c) && RewriteComponent(c, lo, env).Err?
  }

  /** Walking back from the end, the loop meets an unreadable UNTIL before it
      meets any rule it cannot split. */
  predicate StopsBeforeBadRule(s: seq<Component>, lo: Instant, env: Foreign)
    requires ValidForeign(env)
  {
    exists j :: 0 <= j < |s| && RulesWellFormed(s[j..]) && UntilUnreadable(s[j], lo, env)
  }

  /** Every RRULE the backward loop reads can be split: all of them, or all
      from the component where the loop stops onwards. Rules in front of
      that component are never read. */
  predicate SweepReady(s: seq<Component>, lo: Instant, env: Foreign)
    requires ValidForeign(env)
  {
    RulesWellFormed(s) || StopsBeforeBadRule(s, lo, env)
  }

  /** The loop can start from any later position. */
  lemma SweepReadySuffix(s: seq<Component>, k: nat, lo: Instant, env: Foreign)
    requires ValidForeign(env) && SweepReady(s, lo, env) && k <= |s|
    ensures SweepReady(s[k..], lo, env)
  {
    if !RulesWellFormed(s) {
      var j :| 0 <= j < |s| && RulesWellFormed(s[j..]) && UntilUnreadable(s[j], lo, env);
      if j >= k {
        assert s[k..][j - k..] == s[j..] && s[k..][j - k] == s[j];
      } else {
        forall i | 0 <= i < |s[k..]| ensures s[k..][i] == s[j..][i + k - j] {
        }
      }
    }
  }

  /** Ready for the whole list: ready for the tail, and the head's rule
      splits unless the loop stops somewhere in the tail. */
  lemma SweepReadyTail(s: seq<Component>, lo: Instant, env: Foreign)
    requires ValidForeign(env) && SweepReady(s, lo, env) && s != []
    ensures SweepReady(s[1..], lo, env)
    ensures RuleWellFormed(s[0]) || StopsBeforeBadRule(s[1..], lo, env)
  {
    SweepReadySuffix(s, 1, lo, env);
    if !RulesWellFormed(s) {
      var j :| 0 <= j < |s| && RulesWellFormed(s[j..]) && UntilUnreadable(s[j], lo, env);
      // j is not 0: that would make every rule of `s` well formed
      assert s[1..][j - 1..] == s[j..] && s[1..][j - 1] == s[j];
    }
  }

  datatype Step = Fail | Keep(c: Component) | Drop

  /** One pass of the loop body: rewrite the rule, then drop the event if its
      start is strictly inside (lo, hi). */
  function TimeframeStep(c: Component, lo: Instant, hi: Instant, env: Foreign): Step
    requires RuleWellFormed(c) && ValidForeign(env)
  {
    match RewriteComponent(c, lo, env)
    case Err(_) => Fail
    case Ok(c') => if c'.VEvent? && InWindow(c'.event.start, lo, hi) then Drop else Keep(c')
  }

  /** The state the backward loop reaches: the components, how many it removed
      and whether it stopped at an unparsable UNTIL. */
  datatype Sweep = Sweep(comps: seq<Component>, removed: nat, failed: bool)

  /** The backward loop over `s`: the tail is handled first; once a step
      fails, the components in front of it stay as they were. */
  function TimeframeSweep(s: seq<Component>, lo: Instant, hi: Instant, env: Foreign): (w: Sweep)
    requires ValidForeign(env) && SweepReady(s, lo, env)
    ensures |w.comps| + w.removed == |s|
    decreases |s|, 0
  {
    if s == [] then Sweep([], 0, false)
    else
      SweepReadyTail(s, lo, env);
      var w := TimeframeSweep(s[1..], lo, hi, env);
      if w.failed then Sweep([s[0]] + w.comps, w.removed, true)
      else
        assert RuleWellFormed(s[0]) by {
          if !RuleWellFormed(s[0]) {
            SweepStops(s[1..], lo, hi, env);
          }
        }
        match TimeframeStep(s[0], lo, hi, env)
        case Fail => Sweep([s[0]] + w.comps, w.removed, true)
        case Keep(c) => Sweep([c] + w.comps, w.removed, false)
        case Drop => Sweep(w.comps, w.removed + 1, false)
  }

  /** A loop that meets an unreadable UNTIL before any unsplittable rule stops. */
  lemma {:induction false} SweepStops(s: seq<Component>, lo: Instant, hi: Instant, env: Foreign)
    requires ValidForeign(env) && StopsBeforeBadRule(s, lo, env)
    ensures TimeframeSweep(s, lo, hi, env).failed
    decreases |s|, 1
  {
    var j :| 0 <= j < |s| && RulesWellFormed(s[j..]) && UntilUnreadable(s[j], lo, env);
    SweepReadyTail(s, lo, env);
    if j == 0 {
      assert s[j..][0] == s[0];
    } else {
      assert s[1..][j - 1..] == s[j..] && s[1..][j - 1] == s[j];
      SweepStops(s[1..], lo, hi, env);
    }
  }

  /** Every rule rewritten, or the error of the first one that cannot be. */
  function RewriteAll(s: seq<Component>, after: Instant, env: Foreign): (r: Result<seq<Component>>)
    requires RulesWellFormed(s) && ValidForeign(env)
  {
    if s == [] then Ok([])
    else
      assert RuleWellFormed(s[0]);
      match RewriteComponent(s[0], after, env)
      case Err(e) => Err(e)
      case Ok(c) =>
        match RewriteAll(s[1..], after, env)
        case Err(e) => Err(e)
        case Ok(rest) => Ok([c] + rest)
  }

  /** Components outside the window: non-events, and events whose start is
      not strictly inside (lo, hi). */
  function KeepOutside(lo: Instant, hi: Instant): Component -> bool
  {
    (c: Component) => !(c.VEvent? && InWindow(c.event.start, lo, hi))
  }

  /** The loop fails exactly when some UNTIL cannot be parsed; otherwise it
      rewrites every rule and removes exactly the events with lo < start < hi,
      keeping the rest in order. */
  lemma {:induction false} TimeframeSweepIsFilter(s: seq<Component>, lo: Instant, hi: Instant, env: Foreign)
    requires RulesWellFormed(s) && ValidForeign(env)
    ensures TimeframeSweep(s, lo, hi, env).failed <==> RewriteAll(s, lo, env).Err?
    ensures RewriteAll(s, lo, env).Ok? ==>
      TimeframeSweep(s, lo, hi, env).comps == Filter(RewriteAll(s, lo, env).value, KeepOutside(lo, hi))
      && TimeframeSweep(s, lo, hi, env).removed == Dropped(s, KeepOutside(lo, hi))
  {
    if s != [] {
      assert RuleWellFormed(s[0]);
      TimeframeSweepIsFilter(s[1..], lo, hi, env);
    }
  }

  /** An empty window, as with after == before, removes nothing. */
  lemma {:induction false} TimeframeEmptyWindow(s: seq<Component>, lo: Instant, hi: Instant, env: Foreign)
    requires RulesWellFormed(s) && ValidForeign(env) && hi <= lo
    ensures TimeframeSweep(s, lo, hi, env).removed == 0
    ensures |TimeframeSweep(s, lo, hi, env).comps| == |s|
  {
    if s != [] {
      assert RuleWellFormed(s[0]);
      TimeframeEmptyWindow(s[1..], lo, hi, env);
    }
  }

  /** The loop leaves the non-event components, in order, as they were. */
  lemma {:induction false} TimeframeKeepsOthers(s: seq<Component>, lo: Instant, hi: Instant, env: Foreign)
    requires ValidForeign(env) && SweepReady(s, lo, env)
    ensures Others(TimeframeSweep(s, lo, hi, env).comps) == Others(s)
  {
    if s != [] {
      SweepReadyTail(s, lo, env);
      TimeframeKeepsOthers(s[1..], lo, hi, env);
      var w := TimeframeSweep(s[1..], lo, hi, env);
      assert ([s[0]] + w.comps)[1..] == w.comps;
      HeadTail(s);
      OthersAppend([s[0]], s[1..]);
      if !w.failed {
        if !RuleWellFormed(s[0]) {
          SweepStops(s[1..], lo, hi, env);
        }
        match TimeframeStep(s[0], lo, hi, env)
        case Fail =>
        case Keep(c) => assert ([c] + w.comps)[1..] == w.comps;
        case Drop =>
      }
    }
  }

  /** One step of the backward loop: the sweep of s[i..] from that of s[i+1..]. */
  lemma SweepFrom(s: seq<Component>, i: nat, lo: Instant, hi: Instant, env: Foreign)
    requires i < |s| && ValidForeign(env) && SweepReady(s[i..], lo, env) && SweepReady(s[i + 1..], lo, env)
    requires !TimeframeSweep(s[i + 1..], lo, hi, env).failed
    ensures RuleWellFormed(s[i])
    ensures var w := TimeframeSweep(s[i + 1..], lo, hi, env);
      TimeframeSweep(s[i..], lo, hi, env) == match TimeframeStep(s[i], lo, hi, env)
        case Fail => Sweep([s[i]] + w.comps, w.removed, true)
        case Keep(c) => Sweep([c] + w.comps, w.removed, false)
        case Drop => Sweep(w.comps, w.removed + 1, false)
  {
    SliceStep(s, i);
    SweepReadyTail(s[i..], lo, env);
    if !RuleWellFormed(s[i]) {
      SweepStops(s[i + 1..], lo, hi, env);
    }
  }

  /** The backward loop's step where the rule cannot be rewritten. */
  lemma SweepFailStep(s: seq<Component>, i: nat, lo: Instant, hi: Instant, env: Foreign)
    requires i < |s| && ValidForeign(env) && SweepReady(s[i..], lo, env) && SweepReady(s[i + 1..], lo, env)
    requires !TimeframeSweep(s[i + 1..], lo, hi, env).failed
    requires RuleWellFormed(s[i]) && RewriteComponent(s[i], lo, env).Err?
    ensures TimeframeSweep(s[i..], lo, hi, env).failed
    ensures TimeframeSweep(s[i..], lo, hi, env).comps == [s[i]] + TimeframeSweep(s[i + 1..], lo, hi, env).comps
    ensures s[..i + 1] + TimeframeSweep(s[i + 1..], lo, hi, env).comps == s[..i] + TimeframeSweep(s[i..], lo, hi, env).comps
  {
    SweepFrom(s, i, lo, hi, env);
    SliceStep(s, i);
    AppendAssoc(s[..i], [s[i]], TimeframeSweep(s[i + 1..], lo, hi, env).comps);
  }

  /** The backward loop's step where the component stays, its rule rewritten. */
  lemma SweepKeepStep(s: seq<Component>, i: nat, lo: Instant, hi: Instant, env: Foreign)
    requires i < |s| && ValidForeign(env) && SweepReady(s[i..], lo, env) && SweepReady(s[i + 1..], lo, env)
    requires !TimeframeSweep(s[i + 1..], lo, hi, env).failed
    requires RuleWellFormed(s[i]) && RewriteComponent(s[i], lo, env).Ok?
    requires var c := RewriteComponent(s[i], lo, env).value; !(c.VEvent? && InWindow(c.event.start, lo, hi))
    ensures var w := TimeframeSweep(s[i + 1..], lo, hi, env);
      var v := TimeframeSweep(s[i..], lo, hi, env);
      !v.failed && v.removed == w.removed
      && (s[..i + 1] + w.comps)[i := RewriteComponent(s[i], lo, env).value] == s[..i] + v.comps
  {
    SweepFrom(s, i, lo, hi, env);
    var w := TimeframeSweep(s[i + 1..], lo, hi, env);
    var c := RewriteComponent(s[i], lo, env).value;
    ReplaceAtPrefixEnd(s, i, w.comps, c);
  }

  /** The backward loop's step where the event, its rule rewritten, is removed. */
  lemma SweepDropStep(s: seq<Component>, i: nat, lo: Instant, hi: Instant, env: Foreign)
    requires i < |s| && ValidForeign(env) && SweepReady(s[i..], lo, env) && SweepReady(s[i + 1..], lo, env)
    requires !TimeframeSweep(s[i + 1..], lo, hi, env).failed
    requires RuleWellFormed(s[i]) && RewriteComponent(s[i], lo, env).Ok?
    requires var c := RewriteComponent(s[i], lo, env).value; c.VEvent? && InWindow(c.event.start, lo, hi)
    ensures var w := TimeframeSweep(s[i + 1..], lo, hi, env);
      var v := TimeframeSweep(s[i..], lo, hi, env);
      !v.failed && v.removed == w.removed + 1
      && RemoveAt((s[..i + 1] + w.comps)[i := RewriteComponent(s[i], lo, env).value], i) == s[..i] + v.comps
  {
    SweepFrom(s, i, lo, hi, env);
    var w := TimeframeSweep(s[i + 1..], lo, hi, env);
    var c := RewriteComponent(s[i], lo, env).value;
    ReplaceAtPrefixEnd(s, i, w.comps, c);
    RemoveAtJoin(s[..i], c, w.comps);
  }

  /** Once a step fails, everything in front of it is left as it was. */
  lemma {:induction false} SweepAfterFailure(s: seq<Component>, k: nat, lo: Instant, hi: Instant, env: Foreign)
    requires k <= |s| && ValidForeign(env) && SweepReady(s, lo, env) && SweepReady(s[k..], lo, env)
    requires TimeframeSweep(s[k..], lo, hi, env).failed
    ensures TimeframeSweep(s, lo, hi, env).failed
    ensures TimeframeSweep(s, lo, hi, env).comps == s[..k] + TimeframeSweep(s[k..], lo, hi, env).comps
  {
    if k > 0 {
      SliceAfterHead(s, k);
      SweepReadyTail(s, lo, env);
      SweepAfterFailure(s[1..], k - 1, lo, hi, env);
    }
  }

  /** modules.go:252-276: at least one bound, each "" / "now" / RFC 3339. */
  function TimeframeBounds(params: Params, env: Foreign): (r: Result<(Instant, Instant)>)
    ensures Get(params, "after") == "" && Get(params, "before") == "" ==> r == Err(MissingTimeframe)
    ensures r.Ok? ==> ResolveAfter(Get(params, "after"), Get(params, "after"), env) == Ok(r.value.0)
    ensures r.Ok? ==> ResolveBefore(Get(params, "before"), env) == Ok(r.value.1)
  {
    if Get(params, "after") == "" && Get(params, "before") == "" then Err(MissingTimeframe)
    else
      match ResolveAfter(Get(params, "after"), Get(params, "after"), env)
      case Err(e) => Err(e)
      case Ok(after) =>
        match ResolveBefore(Get(params, "before"), env)
        case Err(e) => Err(e)
        case Ok(before) => Ok((after, before))
  }

  /** The RRULE handling of modules.go:284-331 for one component: split the
      rule into a map, move or add UNTIL, write the map back. */
  method RewriteEventRule(c: Component, after: Instant, env: Foreign) returns (r: Result<Component>)
    requires RuleWellFormed(c) && ValidForeign(env)
    ensures r == RewriteComponent(c, after, env)
  {
    if c.VEvent? && c.event.rrule.Some? {
      var m := RRule.ParseRule(c.event.rrule.value);
      var truncated := RRule.TruncateRule(m, after, env);
      if truncated.Err? {
        return Err(truncated.error);
      }
      assert IsListing(env.keyOrder(truncated.value), truncated.value);
      var rule := RRule.JoinRule(truncated.value, env.keyOrder(truncated.value));
      return Ok(VEvent(c.event.(rrule := Some(rule))));
    }
    return Ok(c);
  }

  /** What the source needs of its caller: once the bounds resolve, every
      RRULE the loop reads can be split. */
  ghost predicate DeleteTimeframePre(s: seq<Component>, params: Params, env: Foreign)
  {
    ValidForeign(env)
    && (TimeframeBounds(params, env).Ok? ==> SweepReady(s, TimeframeBounds(params, env).value.0, env))
  }

  /** What delete-timeframe leaves behind. On an unparsable UNTIL the loop
      stops and returns 0, keeping what it already rewrote and removed. */
  function DeleteTimeframeOutcome(s: seq<Component>, params: Params, env: Foreign): (o: Outcome)
    requires DeleteTimeframePre(s, params, env)
    ensures o.delta <= 0 && |o.comps| <= |s|
    ensures o.err.None? ==> |o.comps| == |s| + o.delta
    ensures TimeframeBounds(params, env).Err? ==> o == Outcome(s, 0, Some(TimeframeBounds(params, env).error))
    ensures TimeframeBounds(params, env).Ok? ==>
      var (lo, hi) := TimeframeBounds(params, env).value;
      var w := TimeframeSweep(s, lo, hi, env);
      o.comps == w.comps
      && (w.failed ==> o.delta == 0 && o.err == Some(InvalidUntil))
      && (!w.failed ==> o.delta == -(w.removed as int) && o.err.None?)
  {
    match TimeframeBounds(params, env)
    case Err(e) => Outcome(s, 0, Some(e))
    case Ok((lo, hi)) =>
      var w := TimeframeSweep(s, lo, hi, env);
      if w.failed then Outcome(w.comps, 0, Some(InvalidUntil))
      else Outcome(w.comps, -(w.removed as int), None)
  }

  /** With every UNTIL readable, delete-timeframe removes exactly the events
      strictly inside its window, rewrites every RRULE and returns minus the
      number removed. */
  lemma DeleteTimeframeRemovesWindow(s: seq<Component>, params: Params, env: Foreign)
    requires RulesWellFormed(s) && ValidForeign(env)
    requires TimeframeBounds(params, env).Ok?
    requires RewriteAll(s, TimeframeBounds(params, env).value.0, env).Ok?
    ensures var (lo, hi) := TimeframeBounds(params, env).value;
      var o := DeleteTimeframeOutcome(s, params, env);
      o.err.None?
      && o.comps == Filter(RewriteAll(s, lo, env).value, KeepOutside(lo, hi))
      && o.delta == -(Dropped(s, KeepOutside(lo, hi)) as int)
      && Others(o.comps) == Others(s)
  {
    var (lo, hi) := TimeframeBounds(params, env).value;
    TimeframeSweepIsFilter(s, lo, hi, env);
    TimeframeKeepsOthers(s, lo, hi, env);
  }

  /** The same text for both bounds gives an empty window: nothing is removed. */
  lemma DeleteTimeframeSameBounds(s: seq<Component>, params: Params, env: Foreign)
    requires RulesWellFormed(s) && ValidForeign(env)
    requires Get(params, "after") == Get(params, "before") != ""
    ensures DeleteTimeframeOutcome(s, params, env).delta == 0
    ensures |DeleteTimeframeOutcome(s, params, env).comps| == |s|
  {
    match TimeframeBounds(params, env)
    case Err(_) =>
    case Ok((lo, hi)) =>
      assert lo == hi;
      TimeframeEmptyWindow(s, lo, hi, env);
  }

  /** Whether or not it fails, delete-timeframe leaves the non-event
      components, in order, as they were. */
  lemma DeleteTimeframeKeepsOthers(s: seq<Component>, params: Params, env: Foreign)
    requires DeleteTimeframePre(s, params, env)
    ensures Others(DeleteTimeframeOutcome(s, params, env).comps) == Others(s)
  {
    match TimeframeBounds(params, env)
    case Err(_) =>
    case Ok((lo, hi)) => TimeframeKeepsOthers(s, lo, hi, env);
  }

  /** moduleDeleteTimeframe. */
  method DeleteTimeframe(cal: Calendar, params: Params, env: Foreign)
    returns (delta: int, err: Option<ModuleError>)
    requires DeleteTimeframePre(cal.components, params, env)
    modifies cal
    ensures Outcome(cal.components, delta, err) == DeleteTimeframeOutcome(old(cal.components), params, env)
    ensures cal.properties == old(cal.properties)
  {
    if Get(params, "after") == "" && Get(params, "before") == "" {
      return 0, Some(MissingTimeframe);
    }
    var after: Instant;
    if Get(params, "after") == "" {
      after := ZeroTime;
    } else if Get(params, "after") == "now" {
      after := env.now;
    } else {
      var parsed := env.parseTime(Get(params, "after"));
      if parsed.None? {
        return 0, Some(InvalidStartTime);
      }
      after := parsed.value;
    }
    var before: Instant;
    if Get(params, "before") == "" {
      before := MaxTime;
    } else if Get(params, "before") == "now" {
      before := env.now;
    } else {
      var parsed := env.parseTime(Get(params, "before"));
      if parsed.None? {
        return 0, Some(InvalidEndTime);
      }
      before := parsed.value;
    }
    assert TimeframeBounds(params, env) == Ok((after, before));
    var count, failed := SweepTimeframe(cal, after, before, env);
    if failed {
      return 0, Some(InvalidUntil);
    }
    return count, None;
  }

  /** The backward loop of modules.go:280-339 with the bounds resolved. On an
      unparsable UNTIL it stops, keeping what it already changed. */
  method SweepTimeframe(cal: Calendar, after: Instant, before: Instant, env: Foreign)
    returns (count: int, failed: bool)
    requires ValidForeign(env) && SweepReady(cal.components, after, env)
    modifies cal
    ensures cal.components == TimeframeSweep(old(cal.components), after, before, env).comps
    ensures failed == TimeframeSweep(old(cal.components), after, before, env).failed
    ensures !failed ==> count + TimeframeSweep(old(cal.components), after, before, env).removed == 0
    ensures cal.properties == old(cal.properties)
  {
    ghost var s := cal.components;
    count := 0;
    var i := |cal.components| - 1;
    while i >= 0
      invariant -1 <= i < |s|
      invariant SweepReady(s[i + 1..], after, env)
      invariant !TimeframeSweep(s[i + 1..], after, before, env).failed
      invariant cal.components == s[..i + 1] + TimeframeSweep(s[i + 1..], after, before, env).comps
      invariant count + TimeframeSweep(s[i + 1..], after, before, env).removed == 0
      invariant cal.properties == old(cal.properties)
    {
      PrefixIndex(s, i, TimeframeSweep(s[i + 1..], after, before, env).comps);
      SweepReadySuffix(s, i, after, env);
      SweepFrom(s, i, after, before, env);
      var c := cal.components[i];
      var rewritten := RewriteEventRule(c, after, env);
      if rewritten.Err? {
        // modules.go:300-302: stop here, keeping what was already changed
        SweepFailStep(s, i, after, before, env);
        SweepAfterFailure(s, i, after, before, env);
        return 0, true;
      }
      if c.VEvent? {
        var event := rewritten.value.event;
        cal.components := cal.components[i := VEvent(event)];
        if InWindow(event.start, after, before) {
          SweepDropStep(s, i, after, before, env);
          cal.components := RemoveAt(cal.components, i);
          count := count - 1;
        } else {
          SweepKeepStep(s, i, after, before, env);
        }
      } else {
        SweepKeepStep(s, i, after, before, env);
      }
      i := i - 1;
    }
    assert s[i + 1..] == s;
    return count, false;
  }

  // ===========================================================================
  // delete-duplicates (modules.go:349-369)
  // ===========================================================================

  /** Every event has a summary: the source reads `.Value` of each one. */
  predicate SummariesPresent(s: seq<Component>)
  {
    forall i :: 0 <= i < |s| && s[i].VEvent? ==> s[i].event.summary.Some?
  }

  /** `start.String() + end.String() + summary`. */
  function DupKey(e: Event, env: Foreign): string
    requires e.summary.Some?
  {
    env.timeText(e.start) + env.timeText(e.end) + e.summary.value
  }

  /** The keys of the events of `s`. */
  function KeysOf(s: seq<Component>, env: Foreign): set<string>
    requires SummariesPresent(s)
  {
    if s == [] then {}
    else (if s[0].VEvent? then {DupKey(s[0].event, env)} else {}) + KeysOf(s[1..], env)
  }

  /** A component survives when it is not an event or no event after it shares its key. */
  predicate Survives(c: Component, rest: seq<Component>, env: Foreign)
    requires c.VEvent? ==> c.event.summary.Some?
    requires SummariesPresent(rest)
  {
    !c.VEvent? || DupKey(c.event, env) !in KeysOf(rest, env)
  }

  /** The components that survive delete-duplicates: among events sharing a
      key, only the one last in original order. */
  function Dedup(s: seq<Component>, env: Foreign): (r: seq<Component>)
    requires SummariesPresent(s)
    ensures |r| <= |s| && SummariesPresent(r)
  {
    if s == [] then []
    else (if Survives(s[0], s[1..], env) then [s[0]] else []) + Dedup(s[1..], env)
  }

  lemma {:induction false} KeyInKeysOf(s: seq<Component>, j: nat, env: Foreign)
    requires SummariesPresent(s) && j < |s| && s[j].VEvent?
    ensures DupKey(s[j].event, env) in KeysOf(s, env)
  {
    if j > 0 {
      KeyInKeysOf(s[1..], j - 1, env);
    }
  }

  /** Deduplication keeps every key. */
  lemma {:induction false} DedupKeys(s: seq<Component>, env: Foreign)
    requires SummariesPresent(s)
    ensures KeysOf(Dedup(s, env), env) == KeysOf(s, env)
  {
    if s != [] {
      DedupKeys(s[1..], env);
      var r := Dedup(s[1..], env);
      if Survives(s[0], s[1..], env) {
        assert Dedup(s, env) == [s[0]] + r;
        assert ([s[0]] + r)[1..] == r;
      } else {
        assert Dedup(s, env) == r;
        assert KeysOf(s, env) == KeysOf(s[1..], env);
      }
    }
  }

  /** No event's key recurs later in the sequence. */
  predicate KeysUnique(r: seq<Component>, env: Foreign)
    requires SummariesPresent(r)
  {
    r == [] || (Survives(r[0], r[1..], env) && KeysUnique(r[1..], env))
  }

  lemma {:induction false} DedupKeysUnique(s: seq<Component>, env: Foreign)
    requires SummariesPresent(s)
    ensures KeysUnique(Dedup(s, env), env)
  {
    if s != [] {
      DedupKeysUnique(s[1..], env);
      DedupKeys(s[1..], env);
      var r := Dedup(s[1..], env);
      if Survives(s[0], s[1..], env) {
        assert Dedup(s, env) == [s[0]] + r;
        assert ([s[0]] + r)[1..] == r;
        assert Survives(s[0], r, env);
      } else {
        assert Dedup(s, env) == r;
      }
    }
  }

  /** A sequence without repeated keys is left as it is. */
  lemma {:induction false} DedupFixpoint(r: seq<Component>, env: Foreign)
    requires SummariesPresent(r) && KeysUnique(r, env)
    ensures Dedup(r, env) == r
  {
    if r != [] {
      DedupFixpoint(r[1..], env);
    }
  }

  /** After deduplication no two events share a key. */
  lemma {:induction false} KeysUniquePairwise(r: seq<Component>, env: Foreign)
    requires SummariesPresent(r) && KeysUnique(r, env)
    ensures forall i, j :: 0 <= i < j < |r| && r[i].VEvent? && r[j].VEvent? ==>
      DupKey(r[i].event, env) != DupKey(r[j].event, env)
  {
    if r != [] {
      KeysUniquePairwise(r[1..], env);
      forall i, j | 0 <= i < j < |r| && r[i].VEvent? && r[j].VEvent?
        ensures DupKey(r[i].event, env) != DupKey(r[j].event, env)
      {
        if i == 0 {
          KeyInKeysOf(r[1..], j - 1, env);
        } else {
          assert r[i] == r[1..][i - 1] && r[j] == r[1..][j - 1];
        }
      }
    }
  }

  /** The event last in original order for its key survives. */
  lemma {:induction false} LastOccurrenceSurvives(s: seq<Component>, j: nat, env: Foreign)
    requires SummariesPresent(s) && j < |s| && s[j].VEvent?
    requires DupKey(s[j].event, env) !in KeysOf(s[j + 1..], env)
    ensures s[j] in Dedup(s, env)
  {
    if j > 0 {
      assert s[1..][j..] == s[j + 1..];
      LastOccurrenceSurvives(s[1..], j - 1, env);
    }
  }

  /** Deduplication removes (number of events) - (number of distinct keys). */
  lemma {:induction false} DedupCount(s: seq<Component>, env: Foreign)
    requires SummariesPresent(s)
    ensures |KeysOf(s, env)| <= EventCount(s)
    ensures |Dedup(s, env)| == |s| - (EventCount(s) - |KeysOf(s, env)|)
  {
    if s != [] {
      DedupCount(s[1..], env);
      var r := Dedup(s[1..], env);
      if !s[0].VEvent? {
        assert KeysOf(s, env) == KeysOf(s[1..], env);
        assert Dedup(s, env) == [s[0]] + r;
      } else if Survives(s[0], s[1..], env) {
        assert KeysOf(s, env) == {DupKey(s[0].event, env)} + KeysOf(s[1..], env);
        assert Dedup(s, env) == [s[0]] + r;
      } else {
        assert KeysOf(s, env) == KeysOf(s[1..], env);
        assert Dedup(s, env) == r;
      }
    }
  }

  /** Deduplication leaves the non-event components, in order, as they were. */
  lemma {:induction false} DedupKeepsOthers(s: seq<Component>, env: Foreign)
    requires SummariesPresent(s)
    ensures Others(Dedup(s, env)) == Others(s)
  {
    if s != [] {
      DedupKeepsOthers(s[1..], env);
      var head := if Survives(s[0], s[1..], env) then [s[0]] else [];
      OthersAppend(head, Dedup(s[1..], env));
    }
  }

  /** What delete-duplicates leaves behind. */
  function DeleteDuplicatesOutcome(s: seq<Component>, env: Foreign): (o: Outcome)
    requires SummariesPresent(s)
    ensures o.err.None? && o.delta <= 0 && |o.comps| == |s| + o.delta
  {
    Outcome(Dedup(s, env), |Dedup(s, env)| - |s|, None)
  }

  /** Afterwards no two events share a key, every key is still there, the
      delta is -(events - distinct keys), and a second run returns 0. */
  lemma DeleteDuplicatesSpec(s: seq<Component>, env: Foreign)
    requires SummariesPresent(s)
    ensures var o := DeleteDuplicatesOutcome(s, env);
      (forall i, j :: 0 <= i < j < |o.comps| && o.comps[i].VEvent? && o.comps[j].VEvent? ==>
        DupKey(o.comps[i].event, env) != DupKey(o.comps[j].event, env))
      && KeysOf(o.comps, env) == KeysOf(s, env)
      && o.delta == -(EventCount(s) - |KeysOf(s, env)|)
      && Others(o.comps) == Others(s)
      && DeleteDuplicatesOutcome(o.comps, env) == Outcome(o.comps, 0, None)
  {
    DedupKeysUnique(s, env);
    KeysUniquePairwise(Dedup(s, env), env);
    DedupKeys(s, env);
    DedupCount(s, env);
    DedupKeepsOthers(s, env);
    DedupFixpoint(Dedup(s, env), env);
  }

  /** Every suffix of a sequence whose events have summaries has that property. */
  lemma SummariesInSuffix(s: seq<Component>, k: nat)
    requires k <= |s| && SummariesPresent(s)
    ensures SummariesPresent(s[k..])
  {
    var t := s[k..];
    forall j | 0 <= j < |t| && t[j].VEvent? ensures t[j].event.summary.Some? {
      assert t[j] == s[k + j];
    }
  }

  /** The backward loop's step at position i: the component there, the
      keys seen so far, and the two ways the loop can go on. */
  lemma DedupStep(s: seq<Component>, i: nat, env: Foreign)
    requires i < |s| && SummariesPresent(s)
    ensures SummariesPresent(s[i..]) && SummariesPresent(s[i + 1..])
    ensures (s[..i + 1] + Dedup(s[i + 1..], env))[i] == s[i]
    ensures KeysOf(s[i..], env) == (if s[i].VEvent? then {DupKey(s[i].event, env)} else {}) + KeysOf(s[i + 1..], env)
    ensures Survives(s[i], s[i + 1..], env) ==>
      s[..i + 1] + Dedup(s[i + 1..], env) == s[..i] + Dedup(s[i..], env)
      && |Dedup(s[i..], env)| - |s[i..]| == |Dedup(s[i + 1..], env)| - |s[i + 1..]|
    ensures !Survives(s[i], s[i + 1..], env) ==>
      RemoveAt(s[..i + 1] + Dedup(s[i + 1..], env), i) == s[..i] + Dedup(s[i..], env)
      && |Dedup(s[i..], env)| - |s[i..]| == |Dedup(s[i + 1..], env)| - |s[i + 1..]| - 1
  {
    SliceStep(s, i);
    SummariesInSuffix(s, i);
    SummariesInSuffix(s, i + 1);
    var d := Dedup(s[i + 1..], env);
    PrefixIndex(s, i, d);
    if Survives(s[i], s[i + 1..], env) {
      AppendAssoc(s[..i], [s[i]], d);
    } else {
      RemoveAtJoin(s[..i], s[i], d);
    }
  }

  /** moduleDeleteDuplicates: `uniques` holds the keys of the events already
      passed, i.e. those later in the calendar. */
  method DeleteDuplicates(cal: Calendar, params: Params, env: Foreign)
    returns (delta: int, err: Option<ModuleError>)
    requires SummariesPresent(cal.components)
    modifies cal
    ensures Outcome(cal.components, delta, err) == DeleteDuplicatesOutcome(old(cal.components), env)
    ensures cal.properties == old(cal.properties)
  {
    ghost var s := cal.components;
    var count := 0;
    var uniques: seq<string> := [];
    var i := |cal.components| - 1;
    while i >= 0
      invariant -1 <= i < |s|
      invariant SummariesPresent(s[i + 1..])
      invariant cal.components == s[..i + 1] + Dedup(s[i + 1..], env)
      invariant count == |Dedup(s[i + 1..], env)| - |s[i + 1..]|
      invariant forall k :: k in uniques <==> k in KeysOf(s[i + 1..], env)
      invariant cal.properties == old(cal.properties)
    {
      DedupStep(s, i, env);
      var c := cal.components[i];
      if c.VEvent? {
        var event := c.event;
        var identifier := env.timeText(event.start) + env.timeText(event.end) + event.summary.value;
        assert identifier == DupKey(s[i].event, env);
        if identifier in uniques {
          cal.components := RemoveAt(cal.components, i);
          count := count - 1;
        } else {
          uniques := uniques + [identifier];
        }
      }
      i := i - 1;
    }
    assert s[0..] == s;
    return count, None;
  }
}
