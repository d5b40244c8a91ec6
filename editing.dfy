/** The editing modules: edit-byid, edit-bysummary-regex and add-reminder.
    They change events in place and never add or remove a component; the two
    edit modules also write `overwrite` back into the parameter map they are
    given, which the caller shares. */
module Editing {
  import opened Document
  import Deletion

  // ===========================================================================
  // The overwrite policy (modules.go:394-444, 532-582)
  // ===========================================================================

  /** One text property edit: `field` is the event's summary, description or
      location and `key` the parameter holding its new text. Nothing happens
      when that parameter is empty. A property the event lacks first forces
      `overwrite` to "true" in the parameter map. Then `overwrite` decides:
      "true" replaces, "false" appends after "; ", "fillempty" writes only
      over an empty value, anything else leaves the property alone. */
  function EditField(field: Option<string>, key: string, params: Params): (r: (Option<string>, Params))
    ensures Get(params, key) == "" ==> r == (field, params)
    ensures field.Some? ==> r.1 == params && r.0.Some?
    ensures field.None? && Get(params, key) != "" ==>
      r == (Some(Get(params, key)), params["overwrite" := "true"])
    ensures field.Some? && Get(params, key) != "" ==> var mode := Get(params, "overwrite");
      (mode == "true" ==> r.0.value == Get(params, key))
      && (mode == "false" ==> r.0.value == field.value + "; " + Get(params, key))
      && (mode == "fillempty" ==> r.0 == (if field.value == "" then Some(Get(params, key)) else field))
      && (mode != "true" && mode != "false" && mode != "fillempty" ==> r.0 == field)
  {
    var value := Get(params, key);
    if value == "" then (field, params)
    else
      var p := if field.None? then params["overwrite" := "true"] else params;
      var mode := Get(p, "overwrite");
      if mode == "false" then (Some(field.value + "; " + value), p)
      else if mode == "fillempty" then (if field.value == "" then Some(value) else field, p)
      else if mode == "true" then (Some(value), p)
      else (field, p)
  }

  /** The parameter map after an edit: as it was, or with `overwrite` forced to "true". */
  predicate OverwriteForced(before: Params, after: Params)
  {
    after == before || after == before["overwrite" := "true"]
  }

  /** The effect of an edit on the parameters: only `overwrite` can change,
      and only to "true"; once "true" it stays "true". */
  lemma OverwriteForcedSticks(before: Params, after: Params)
    requires OverwriteForced(before, after)
    ensures forall k :: k != "overwrite" ==> Get(after, k) == Get(before, k)
    ensures Get(after, "overwrite") == Get(before, "overwrite") || Get(after, "overwrite") == "true"
    ensures Get(before, "overwrite") == "true" ==> after == before
  {
    if Get(before, "overwrite") == "true" {
      assert before["overwrite" := "true"] == before;
    }
  }

  /** What one edit does to an event, the parameter map, and the error it returns. */
  datatype Edit = Edit(event: Event, params: Params, err: Option<ModuleError>)

  /** The field edits every edit module makes on an event it selected:
      summary, description, location, then `new-start` and `new-end`.
      Properties are set on the event itself, so an unparsable time leaves
      the edits made before it in place. */
  function EditFields(e: Event, params: Params, env: Foreign): (r: Edit)
    ensures r.event.id == e.id && r.event.rrule == e.rrule && r.event.alarms == e.alarms
    ensures OverwriteForced(params, r.params)
    ensures var newStart, newEnd := Get(params, "new-start"), Get(params, "new-end");
      var badStart := newStart != "" && env.parseTime(newStart).None?;
      var badEnd := newEnd != "" && env.parseTime(newEnd).None?;
      (r.err.Some? <==> badStart || badEnd)
      && (badStart ==> r.err == Some(InvalidStartTime) && r.event.start == e.start && r.event.end == e.end)
      && (!badStart && badEnd ==> r.err == Some(InvalidEndTime) && r.event.end == e.end)
      && (!badStart ==> r.event.start == (if newStart == "" then e.start else env.parseTime(newStart).value))
      && (r.err.None? ==> r.event.end == (if newEnd == "" then e.end else env.parseTime(newEnd).value))
    ensures var (summary, p1) := EditField(e.summary, "new-summary", params);
      var (description, p2) := EditField(e.description, "new-description", p1);
      var (location, p3) := EditField(e.location, "new-location", p2);
      r.event.summary == summary && r.event.description == description && r.event.location == location
      && r.params == p3
  {
    var (summary, p1) := EditField(e.summary, "new-summary", params);
    var (description, p2) := EditField(e.description, "new-description", p1);
    var (location, p3) := EditField(e.location, "new-location", p2);
    assert OverwriteForced(params, p3);
    assert Get(p3, "new-start") == Get(params, "new-start") && Get(p3, "new-end") == Get(params, "new-end");
    var texts := e.(summary := summary, description := description, location := location);
    var newStart, newEnd := Get(p3, "new-start"), Get(p3, "new-end");
    if newStart != "" && env.parseTime(newStart).None? then Edit(texts, p3, Some(InvalidStartTime))
    else
      var started := if newStart != "" then texts.(start := env.parseTime(newStart).value) else texts;
      if newEnd != "" && env.parseTime(newEnd).None? then Edit(started, p3, Some(InvalidEndTime))
      else
        var ended := if newEnd != "" then started.(end := env.parseTime(newEnd).value) else started;
        Edit(ended, p3, None)
  }

  /** Every absent text property the edit writes is created, and once
      `overwrite` is "true" every given text replaces its property. */
  lemma EditFieldsOverwriteTrue(e: Event, params: Params, env: Foreign)
    requires Get(params, "overwrite") == "true"
    ensures var r := EditFields(e, params, env);
      r.params == params
      && (Get(params, "new-summary") != "" ==> r.event.summary == Some(Get(params, "new-summary")))
      && (Get(params, "new-description") != "" ==> r.event.description == Some(Get(params, "new-description")))
      && (Get(params, "new-location") != "" ==> r.event.location == Some(Get(params, "new-location")))
  {
    assert params["overwrite" := "true"] == params;
  }

  /** A text property the event lacks forces `overwrite` to "true" for the
      properties edited after it: each of them is then replaced outright,
      whatever `overwrite` said before. */
  lemma EditFieldsForcedCarries(e: Event, params: Params, env: Foreign)
    ensures var r := EditFields(e, params, env);
      e.summary.None? && Get(params, "new-summary") != "" ==>
        Get(r.params, "overwrite") == "true"
        && (Get(params, "new-description") != "" ==> r.event.description == Some(Get(params, "new-description")))
        && (Get(params, "new-location") != "" ==> r.event.location == Some(Get(params, "new-location")))
    ensures var r := EditFields(e, params, env);
      e.description.None? && Get(params, "new-description") != "" ==>
        Get(r.params, "overwrite") == "true"
        && (Get(params, "new-location") != "" ==> r.event.location == Some(Get(params, "new-location")))
  {
    var p1 := EditField(e.summary, "new-summary", params).1;
    var p2 := EditField(e.description, "new-description", p1).1;
    OverwriteForcedSticks(params, p1);
    OverwriteForcedSticks(p1, p2);
    OverwriteForcedSticks(p2, EditField(e.location, "new-location", p2).1);
  }

  /** With no new text, time or duration given, an edit changes nothing. */
  lemma EditFieldsNoChange(e: Event, params: Params, env: Foreign)
    requires Get(params, "new-summary") == "" && Get(params, "new-description") == ""
    requires Get(params, "new-location") == "" && Get(params, "new-start") == "" && Get(params, "new-end") == ""
    ensures EditFields(e, params, env) == Edit(e, params, None)
  {
  }

  /** `move-time`: start and end shifted by the same parsed duration. */
  function MoveTime(e: Event, params: Params, env: Foreign): (r: Result<Event>)
    ensures r.Err? <==> Get(params, "move-time") != "" && env.parseDuration(Get(params, "move-time")).None?
    ensures r.Err? ==> r.error == InvalidDuration
    ensures r.Ok? ==> r.value == e.(start := r.value.start, end := r.value.end)
    ensures r.Ok? ==> r.value.end - r.value.start == e.end - e.start
    ensures r.Ok? && Get(params, "move-time") != "" ==>
      r.value.start == e.start + env.parseDuration(Get(params, "move-time")).value
  {
    if Get(params, "move-time") == "" then Ok(e)
    else match env.parseDuration(Get(params, "move-time"))
      case None => Err(InvalidDuration)
      case Some(d) => Ok(e.(start := e.start + d, end := e.end + d))
  }

  // ===========================================================================
  // edit-byid (modules.go:381-469)
  // ===========================================================================

  /** What an edit module leaves behind: components, parameter map, error.
      Its count is always 0. */
  datatype Edited = Edited(comps: seq<Component>, params: Params, err: Option<ModuleError>)

  /** The index of the last event carrying `id`, or -1 when none does. */
  function LastIndexWithId(s: seq<Component>, id: string): (k: int)
    ensures -1 <= k < |s|
    ensures k == -1 <==> forall j :: 0 <= j < |s| ==> !Deletion.HasId(s[j], id)
    ensures k >= 0 ==> Deletion.HasId(s[k], id) && forall j :: k < j < |s| ==> !Deletion.HasId(s[j], id)
  {
    if s == [] then -1
    else if Deletion.HasId(s[|s| - 1], id) then |s| - 1
    else LastIndexWithId(s[..|s| - 1], id)
  }

  /** What edit-byid leaves behind: only the last event carrying the id is
      edited; `overwrite` defaults to "true". */
  function EditIdOutcome(s: seq<Component>, params: Params, env: Foreign): (o: Edited)
    ensures |o.comps| == |s|
    ensures Get(params, "id") == "" ==> o == Edited(s, params, Some(MissingParameter("id")))
    ensures Get(params, "id") != "" ==> Get(o.params, "overwrite") != ""
    ensures forall j :: 0 <= j < |s| && (Get(params, "id") == "" || j != LastIndexWithId(s, Get(params, "id"))) ==>
      o.comps[j] == s[j]
    ensures forall j :: 0 <= j < |s| ==>
      (o.comps[j].VEvent? == s[j].VEvent? && (s[j].VEvent? ==> o.comps[j].event.id == s[j].event.id))
    ensures o.err.Some? ==> o.err.value in {MissingParameter("id"), InvalidStartTime, InvalidEndTime}
    ensures Get(params, "id") != "" && LastIndexWithId(s, Get(params, "id")) == -1 ==> o.err.None?
    ensures var k := LastIndexWithId(s, Get(params, "id"));
      var p := if Get(params, "overwrite") == "" then params["overwrite" := "true"] else params;
      Get(params, "id") != "" && k >= 0 ==>
        var edit := EditFields(s[k].event, p, env);
        o.comps[k] == VEvent(edit.event) && o.params == edit.params && o.err == edit.err
  {
    var id := Get(params, "id");
    if id == "" then Edited(s, params, Some(MissingParameter("id")))
    else
      var p := if Get(params, "overwrite") == "" then params["overwrite" := "true"] else params;
      var k := LastIndexWithId(s, id);
      if k < 0 then Edited(s, p, None)
      else
        var edit := EditFields(s[k].event, p, env);
        OverwriteForcedSticks(p, edit.params);
        Edited(s[k := VEvent(edit.event)], edit.params, edit.err)
  }

  /** With `overwrite` unset or "true", the last event carrying the id gets
      every given text, and every given start and end when the edit succeeds;
      with no new time the edit cannot fail and keeps the event's times. */
  lemma EditIdAppliesEdits(s: seq<Component>, params: Params, env: Foreign)
    requires Get(params, "id") != "" && LastIndexWithId(s, Get(params, "id")) >= 0
    requires Get(params, "overwrite") == "" || Get(params, "overwrite") == "true"
    ensures var o := EditIdOutcome(s, params, env);
      var k := LastIndexWithId(s, Get(params, "id"));
      o.comps[k].VEvent? && Get(o.params, "overwrite") == "true"
      && (Get(params, "new-summary") != "" ==> o.comps[k].event.summary == Some(Get(params, "new-summary")))
      && (Get(params, "new-description") != "" ==> o.comps[k].event.description == Some(Get(params, "new-description")))
      && (Get(params, "new-location") != "" ==> o.comps[k].event.location == Some(Get(params, "new-location")))
      && (o.err.None? && Get(params, "new-start") != "" ==>
        o.comps[k].event.start == env.parseTime(Get(params, "new-start")).value)
      && (o.err.None? && Get(params, "new-end") != "" ==>
        o.comps[k].event.end == env.parseTime(Get(params, "new-end")).value)
      && (Get(params, "new-start") == "" && Get(params, "new-end") == "" ==>
        o.err.None? && o.comps[k].event.start == s[k].event.start && o.comps[k].event.end == s[k].event.end)
  {
    var p := if Get(params, "overwrite") == "" then params["overwrite" := "true"] else params;
    OverwriteForcedSticks(params, p);
    var k := LastIndexWithId(s, Get(params, "id"));
    EditFieldsOverwriteTrue(s[k].event, p, env);
  }

  /** An id no event carries changes no component. */
  lemma EditIdAbsent(s: seq<Component>, params: Params, env: Foreign)
    requires forall j :: 0 <= j < |s| ==> !Deletion.HasId(s[j], Get(params, "id"))
    ensures EditIdOutcome(s, params, env).comps == s
    ensures EditIdOutcome(s, params, env).err.None? == (Get(params, "id") != "")
  {
  }

  /** moduleEditId: the backward search stops at the first hit, which is the
      last event carrying the id. */
  method EditId(cal: Calendar, params: Params, env: Foreign)
    returns (delta: int, newParams: Params, err: Option<ModuleError>)
    modifies cal
    ensures delta == 0
    ensures Edited(cal.components, newParams, err) == EditIdOutcome(old(cal.components), params, env)
    ensures cal.properties == old(cal.properties)
  {
    var id := Get(params, "id");
    if id == "" {
      return 0, params, Some(MissingParameter("id"));
    }
    newParams := params;
    if Get(newParams, "overwrite") == "" {
      newParams := newParams["overwrite" := "true"];
    }
    var i := |cal.components| - 1;
    while i >= 0
      invariant -1 <= i < |cal.components|
      invariant cal.components == old(cal.components) && cal.properties == old(cal.properties)
      invariant forall j :: i < j < |cal.components| ==> !Deletion.HasId(cal.components[j], id)
    {
      var c := cal.components[i];
      if c.VEvent? && c.event.id == id {
        var edit := EditFields(c.event, newParams, env);
        cal.components := cal.components[i := VEvent(edit.event)];
        return 0, edit.params, edit.err;
      }
      i := i - 1;
    }
    return 0, newParams, None;
  }

  // ===========================================================================
  // edit-bysummary-regex (modules.go:483-619)
  // ===========================================================================

  /** The search window: "" is the zero time or the largest instant, "now" the
      clock, anything else an RFC 3339 instant. The lower bound is read from
      the `start` parameter, not from `after`: only whether `after` is "" or
      "now" is looked at. */
  function EditWindow(params: Params, env: Foreign): (r: Result<(Instant, Instant)>)
    ensures r.Ok? ==> ResolveAfter(Get(params, "after"), Get(params, "start"), env) == Ok(r.value.0)
    ensures r.Ok? ==> ResolveBefore(Get(params, "before"), env) == Ok(r.value.1)
    ensures r.Err? ==> r.error in {InvalidStartTime, InvalidEndTime}
  {
    match ResolveAfter(Get(params, "after"), Get(params, "start"), env)
    case Err(e) => Err(e)
    case Ok(after) =>
      match ResolveBefore(Get(params, "before"), env)
      case Err(e) => Err(e)
      case Ok(before) => Ok((after, before))
  }

  /** What the source needs of its caller: when the parameter checks pass,
      every event the loop tries the pattern on has a summary. */
  predicate EditSummaryRegexPre(s: seq<Component>, params: Params, env: Foreign)
  {
    (Get(params, "regex") != "" && env.compiles(Get(params, "regex")) && EditWindow(params, env).Ok?
      && !(Get(params, "move-time") != "" && (Get(params, "new-start") != "" || Get(params, "new-end") != ""))) ==>
      SummariesReached(s, Get(params, "regex"), EditWindow(params, env).value.0, EditWindow(params, env).value.1, params, env)
  }

  /** Every event in the window that the backward loop reaches has a summary.
      The loop reaches s[i] only while nothing after it has failed, so events
      in front of a failing edit are never read. */
  predicate SummariesReached(s: seq<Component>, pattern: string, lo: Instant, hi: Instant, params: Params, env: Foreign)
  {
    forall i ::
      0 <= i < |s| && RegexEditSweep(s[i + 1..], pattern, lo, hi, params, env).err.None?
      && s[i].VEvent? && InWindow(s[i].event.start, lo, hi)
      ==> s[i].event.summary.Some?
  }

  /** The event the loop reaches at position i has a summary if it is in the window. */
  lemma SummaryReachedAt(s: seq<Component>, i: nat, pattern: string, lo: Instant, hi: Instant, params: Params, env: Foreign)
    requires i < |s| && SummariesReached(s, pattern, lo, hi, params, env)
    requires RegexEditSweep(s[i + 1..], pattern, lo, hi, params, env).err.None?
    ensures s[i].VEvent? && InWindow(s[i].event.start, lo, hi) ==> s[i].event.summary.Some?
  {
  }

  /** A component, its index, and whether the regex module edits it. */
  predicate Hit(c: Component, pattern: string, lo: Instant, hi: Instant, env: Foreign)
  {
    Deletion.RegexHit(c, pattern, lo, hi, env)
  }

  /** What the loop body does to one component, the parameter map and the
      error: a matching event gets the field edits, then the move. */
  function EditOne(c: Component, pattern: string, lo: Instant, hi: Instant, params: Params, env: Foreign)
    : (r: (Component, Params, Option<ModuleError>))
    ensures r.0.VEvent? == c.VEvent?
    ensures !Hit(c, pattern, lo, hi, env) ==> r == (c, params, None)
    ensures c.VEvent? ==> r.0.event.id == c.event.id && r.0.event.rrule == c.event.rrule
    ensures OverwriteForced(params, r.1)
    ensures Hit(c, pattern, lo, hi, env) ==> var edit := EditFields(c.event, params, env);
      r.1 == edit.params
      && (edit.err.Some? ==> r.0 == VEvent(edit.event) && r.2 == edit.err)
      && (edit.err.None? ==> match MoveTime(edit.event, edit.params, env)
           case Ok(moved) => r.0 == VEvent(moved) && r.2.None?
           case Err(e) => r.0 == VEvent(edit.event) && r.2 == Some(e))
  {
    if !Hit(c, pattern, lo, hi, env) then (c, params, None)
    else
      var edit := EditFields(c.event, params, env);
      if edit.err.Some? then (VEvent(edit.event), edit.params, edit.err)
      else match MoveTime(edit.event, edit.params, env)
        case Err(e) => (VEvent(edit.event), edit.params, Some(e))
        case Ok(moved) => (VEvent(moved), edit.params, None)
  }

  /** The backward loop over `s`: the tail is handled first, the parameter
      map threads through, and an error stops the loop. */
  function RegexEditSweep(s: seq<Component>, pattern: string, lo: Instant, hi: Instant, params: Params, env: Foreign)
    : (r: Edited)
    ensures |r.comps| == |s|
  {
    if s == [] then Edited([], params, None)
    else
      var w := RegexEditSweep(s[1..], pattern, lo, hi, params, env);
      if w.err.Some? then Edited([s[0]] + w.comps, w.params, w.err)
      else
        var (c, p, e) := EditOne(s[0], pattern, lo, hi, w.params, env);
        Edited([c] + w.comps, p, e)
  }

  /** The regex edit keeps the shape of the calendar: each position keeps its
      kind and event id, non-events and non-matching events stay as they
      were, and the parameters change at most by forcing `overwrite`. */
  lemma {:induction false} RegexEditShape(s: seq<Component>, pattern: string, lo: Instant, hi: Instant, params: Params, env: Foreign)
    ensures var r := RegexEditSweep(s, pattern, lo, hi, params, env);
      (forall j :: 0 <= j < |s| ==> r.comps[j].VEvent? == s[j].VEvent?)
      && (forall j :: 0 <= j < |s| && s[j].VEvent? ==> r.comps[j].event.id == s[j].event.id)
      && (forall j :: 0 <= j < |s| && !Hit(s[j], pattern, lo, hi, env) ==> r.comps[j] == s[j])
      && (Get(params, "overwrite") == "true" ==> r.params == params)
  {
    if s != [] {
      var w := RegexEditSweep(s[1..], pattern, lo, hi, params, env);
      RegexEditShape(s[1..], pattern, lo, hi, params, env);
      var r := RegexEditSweep(s, pattern, lo, hi, params, env);
      var head := if w.err.Some? then s[0] else EditOne(s[0], pattern, lo, hi, w.params, env).0;
      assert r.comps == [head] + w.comps;
      assert head.VEvent? == s[0].VEvent? && (s[0].VEvent? ==> head.event.id == s[0].event.id);
      assert !Hit(s[0], pattern, lo, hi, env) ==> head == s[0];
      forall j | 1 <= j < |s| ensures r.comps[j] == w.comps[j - 1] && s[j] == s[1..][j - 1] {
      }
      if w.err.None? && Get(params, "overwrite") == "true" {
        OverwriteForcedSticks(w.params, EditOne(s[0], pattern, lo, hi, w.params, env).1);
      }
    }
  }

  /** With `move-time` given, every edited event that the loop completes
      keeps its duration. */
  lemma {:induction false} RegexEditKeepsSpan(s: seq<Component>, pattern: string, lo: Instant, hi: Instant, params: Params, env: Foreign)
    requires Get(params, "new-start") == "" && Get(params, "new-end") == ""
    requires RegexEditSweep(s, pattern, lo, hi, params, env).err.None?
    ensures var r := RegexEditSweep(s, pattern, lo, hi, params, env);
      forall j :: 0 <= j < |s| && s[j].VEvent? ==>
        (r.comps[j].VEvent? && r.comps[j].event.end - r.comps[j].event.start == s[j].event.end - s[j].event.start)
  {
    if s != [] {
      var w := RegexEditSweep(s[1..], pattern, lo, hi, params, env);
      RegexEditKeepsSpan(s[1..], pattern, lo, hi, params, env);
      var r := RegexEditSweep(s, pattern, lo, hi, params, env);
      OverwriteForcedSticks(params, w.params) by {
        RegexEditParams(s[1..], pattern, lo, hi, params, env);
      }
      var head := EditOne(s[0], pattern, lo, hi, w.params, env).0;
      assert r.comps == [head] + w.comps;
      EditOneKeepsSpan(s[0], pattern, lo, hi, w.params, env);
      forall j | 1 <= j < |s| ensures r.comps[j] == w.comps[j - 1] && s[j] == s[1..][j - 1] {
      }
    }
  }

  /** An edit that sets no start or end and completes keeps the event's duration. */
  lemma EditOneKeepsSpan(c: Component, pattern: string, lo: Instant, hi: Instant, params: Params, env: Foreign)
    requires Get(params, "new-start") == "" && Get(params, "new-end") == ""
    requires EditOne(c, pattern, lo, hi, params, env).2.None?
    ensures var d := EditOne(c, pattern, lo, hi, params, env).0;
      c.VEvent? ==> d.event.end - d.event.start == c.event.end - c.event.start
  {
  }

  /** The parameter map after the sweep differs at most in `overwrite`. */
  lemma {:induction false} RegexEditParams(s: seq<Component>, pattern: string, lo: Instant, hi: Instant, params: Params, env: Foreign)
    ensures OverwriteForced(params, RegexEditSweep(s, pattern, lo, hi, params, env).params)
  {
    if s != [] {
      var w := RegexEditSweep(s[1..], pattern, lo, hi, params, env);
      RegexEditParams(s[1..], pattern, lo, hi, params, env);
      if w.err.None? {
        var p := EditOne(s[0], pattern, lo, hi, w.params, env).1;
        if w.params != params {
          assert w.params == params["overwrite" := "true"];
          assert p == w.params || p == w.params["overwrite" := "true"];
          assert w.params["overwrite" := "true"] == w.params;
        }
      }
    }
  }

  /** With `overwrite` at "true" the parameters never change, so every hit
      the completed sweep passes is edited exactly as EditOne edits it alone. */
  lemma {:induction false} RegexEditHits(s: seq<Component>, pattern: string, lo: Instant, hi: Instant, params: Params, env: Foreign)
    requires Get(params, "overwrite") == "true"
    requires RegexEditSweep(s, pattern, lo, hi, params, env).err.None?
    ensures var r := RegexEditSweep(s, pattern, lo, hi, params, env);
      forall j :: 0 <= j < |s| && Hit(s[j], pattern, lo, hi, env) ==>
        r.comps[j] == EditOne(s[j], pattern, lo, hi, params, env).0
  {
    if s != [] {
      var w := RegexEditSweep(s[1..], pattern, lo, hi, params, env);
      RegexEditHits(s[1..], pattern, lo, hi, params, env);
      RegexEditShape(s[1..], pattern, lo, hi, params, env);
      var r := RegexEditSweep(s, pattern, lo, hi, params, env);
      assert r.comps == [EditOne(s[0], pattern, lo, hi, params, env).0] + w.comps;
      forall j | 1 <= j < |s| ensures r.comps[j] == w.comps[j - 1] && s[j] == s[1..][j - 1] {
      }
    }
  }

  /** With `overwrite` at "true", when edit-bysummary-regex completes every
      matching event in the window carries each given text. */
  lemma EditSummaryRegexAppliesTexts(s: seq<Component>, params: Params, env: Foreign)
    requires Get(params, "overwrite") == "true"
    requires Get(params, "regex") != "" && env.compiles(Get(params, "regex")) && EditWindow(params, env).Ok?
    requires EditSummaryRegexOutcome(s, params, env).err.None?
    ensures var o := EditSummaryRegexOutcome(s, params, env);
      var (lo, hi) := EditWindow(params, env).value;
      forall j :: 0 <= j < |s| && Hit(s[j], Get(params, "regex"), lo, hi, env) ==>
        o.comps[j].VEvent?
        && (Get(params, "new-summary") != "" ==> o.comps[j].event.summary == Some(Get(params, "new-summary")))
        && (Get(params, "new-description") != "" ==> o.comps[j].event.description == Some(Get(params, "new-description")))
        && (Get(params, "new-location") != "" ==> o.comps[j].event.location == Some(Get(params, "new-location")))
  {
    var (lo, hi) := EditWindow(params, env).value;
    var pattern := Get(params, "regex");
    RegexEditHits(s, pattern, lo, hi, params, env);
    forall j | 0 <= j < |s| && Hit(s[j], pattern, lo, hi, env)
      ensures EditOne(s[j], pattern, lo, hi, params, env).0.VEvent?
      ensures var d := EditOne(s[j], pattern, lo, hi, params, env).0.event;
        (Get(params, "new-summary") != "" ==> d.summary == Some(Get(params, "new-summary")))
        && (Get(params, "new-description") != "" ==> d.description == Some(Get(params, "new-description")))
        && (Get(params, "new-location") != "" ==> d.location == Some(Get(params, "new-location")))
    {
      EditFieldsOverwriteTrue(s[j].event, params, env);
    }
  }

  /** What edit-bysummary-regex leaves behind. */
  function EditSummaryRegexOutcome(s: seq<Component>, params: Params, env: Foreign): (o: Edited)
    ensures |o.comps| == |s|
    ensures Get(params, "regex") == "" ==> o == Edited(s, params, Some(MissingParameter("regex")))
    ensures Get(params, "regex") != "" && !env.compiles(Get(params, "regex")) ==> o == Edited(s, params, Some(InvalidRegex))
    ensures Get(params, "regex") != "" && env.compiles(Get(params, "regex")) && EditWindow(params, env).Err? ==>
      o == Edited(s, params, Some(EditWindow(params, env).error))
    ensures (Get(params, "regex") != "" && env.compiles(Get(params, "regex")) && EditWindow(params, env).Ok?
      && Get(params, "move-time") != "" && (Get(params, "new-start") != "" || Get(params, "new-end") != "")) ==>
      o == Edited(s, params, Some(ExclusiveParams))
  {
    var pattern := Get(params, "regex");
    if pattern == "" then Edited(s, params, Some(MissingParameter("regex")))
    else if !env.compiles(pattern) then Edited(s, params, Some(InvalidRegex))
    else match EditWindow(params, env)
      case Err(e) => Edited(s, params, Some(e))
      case Ok((lo, hi)) =>
        if Get(params, "move-time") != "" && (Get(params, "new-start") != "" || Get(params, "new-end") != "") then
          Edited(s, params, Some(ExclusiveParams))
        else RegexEditSweep(s, pattern, lo, hi, params, env)
  }

  /** Whatever it returns, edit-bysummary-regex keeps every position's kind
      and event id, leaves non-matching components alone, and keeps the
      non-event components as they were. */
  lemma EditSummaryRegexShape(s: seq<Component>, params: Params, env: Foreign)
    ensures var o := EditSummaryRegexOutcome(s, params, env);
      (forall j :: 0 <= j < |s| ==> o.comps[j].VEvent? == s[j].VEvent?)
      && (forall j :: 0 <= j < |s| && s[j].VEvent? ==> o.comps[j].event.id == s[j].event.id)
      && (forall j :: 0 <= j < |s| && !s[j].VEvent? ==> o.comps[j] == s[j])
      && OverwriteForced(params, o.params)
  {
    var pattern := Get(params, "regex");
    if pattern != "" && env.compiles(pattern) && EditWindow(params, env).Ok? {
      var (lo, hi) := EditWindow(params, env).value;
      RegexEditShape(s, pattern, lo, hi, params, env);
      RegexEditParams(s, pattern, lo, hi, params, env);
    }
  }

  /** The backward loop's step at position i. */
  lemma EditSweepFrom(s: seq<Component>, i: nat, pattern: string, lo: Instant, hi: Instant, params: Params, env: Foreign)
    requires i < |s|
    requires RegexEditSweep(s[i + 1..], pattern, lo, hi, params, env).err.None?
    ensures var w := RegexEditSweep(s[i + 1..], pattern, lo, hi, params, env);
      var step := EditOne(s[i], pattern, lo, hi, w.params, env);
      RegexEditSweep(s[i..], pattern, lo, hi, params, env) == Edited([step.0] + w.comps, step.1, step.2)
      && (s[..i + 1] + w.comps)[i := step.0] == s[..i] + ([step.0] + w.comps)
  {
    SliceStep(s, i);
  }

  /** Once a step fails, everything in front of it is left as it was. */
  lemma {:induction false} EditSweepAfterFailure(s: seq<Component>, k: nat, pattern: string, lo: Instant, hi: Instant, params: Params, env: Foreign)
    requires k <= |s|
    requires RegexEditSweep(s[k..], pattern, lo, hi, params, env).err.Some?
    ensures RegexEditSweep(s, pattern, lo, hi, params, env)
      == RegexEditSweep(s[k..], pattern, lo, hi, params, env).(comps := s[..k] + RegexEditSweep(s[k..], pattern, lo, hi, params, env).comps)
  {
    if k > 0 {
      SliceAfterHead(s, k);
      EditSweepAfterFailure(s[1..], k - 1, pattern, lo, hi, params, env);
      var tail := RegexEditSweep(s[k..], pattern, lo, hi, params, env);
      AppendAssoc([s[0]], s[1..][..k - 1], tail.comps);
    }
  }

  /** moduleEditSummaryRegex: parameter checks, then the backward loop. */
  method EditSummaryRegex(cal: Calendar, params: Params, env: Foreign)
    returns (delta: int, newParams: Params, err: Option<ModuleError>)
    requires EditSummaryRegexPre(cal.components, params, env)
    modifies cal
    ensures delta == 0
    ensures Edited(cal.components, newParams, err) == EditSummaryRegexOutcome(old(cal.components), params, env)
    ensures cal.properties == old(cal.properties)
  {
    var pattern := Get(params, "regex");
    if pattern == "" {
      return 0, params, Some(MissingParameter("regex"));
    }
    if !env.compiles(pattern) {
      return 0, params, Some(InvalidRegex);
    }
    var after: Instant;
    if Get(params, "after") == "" {
      after := ZeroTime;
    } else if Get(params, "after") == "now" {
      after := env.now;
    } else {
      var parsed := env.parseTime(Get(params, "start"));
      if parsed.None? {
        return 0, params, Some(InvalidStartTime);
      }
      after := parsed.value;
    }
    var before: Instant;
    if Get(params, "before") == "" {
      before := MaxTime;
    } else if Get(params, "before") == "now" {
      before := env.now;
    } else {
      var parsed := env.parseTime(Get(params, "before"));
      if parsed.None? {
        return 0, params, Some(InvalidEndTime);
      }
      before := parsed.value;
    }
    assert EditWindow(params, env) == Ok((after, before));
    if Get(params, "move-time") != "" && (Get(params, "new-start") != "" || Get(params, "new-end") != "") {
      return 0, params, Some(ExclusiveParams);
    }
    newParams, err := EditMatching(cal, pattern, after, before, params, env);
    delta := 0;
  }

  /** The backward loop of modules.go:524-617. */
  method EditMatching(cal: Calendar, pattern: string, after: Instant, before: Instant, params: Params, env: Foreign)
    returns (newParams: Params, err: Option<ModuleError>)
    requires SummariesReached(cal.components, pattern, after, before, params, env)
    modifies cal
    ensures Edited(cal.components, newParams, err) == RegexEditSweep(old(cal.components), pattern, after, before, params, env)
    ensures cal.properties == old(cal.properties)
  {
    ghost var s := cal.components;
    newParams := params;
    var i := |cal.components| - 1;
    while i >= 0
      invariant -1 <= i < |s|
      invariant RegexEditSweep(s[i + 1..], pattern, after, before, params, env).err.None?
      invariant cal.components == s[..i + 1] + RegexEditSweep(s[i + 1..], pattern, after, before, params, env).comps
      invariant newParams == RegexEditSweep(s[i + 1..], pattern, after, before, params, env).params
      invariant cal.properties == old(cal.properties)
    {
      EditSweepFrom(s, i, pattern, after, before, params, env);
      ghost var here := cal.components;
      var c := cal.components[i];
      assert c == s[i] by { assert here[i] == s[..i + 1][i]; }
      SummaryReachedAt(s, i, pattern, after, before, params, env);
      var edited, p, e := EditStep(c, pattern, after, before, newParams, env);
      // the event is edited through the pointer the calendar holds, so
      // even an edit cut short by an error shows in the calendar
      cal.components := cal.components[i := edited];
      newParams := p;
      if e.Some? {
        EditSweepAfterFailure(s, i, pattern, after, before, params, env);
        return newParams, e;
      }
      i := i - 1;
    }
    assert s[0..] == s;
    return newParams, None;
  }

  /** The body of the backward loop for one component: a matching event
      gets the field edits, then the move. */
  method EditStep(c: Component, pattern: string, after: Instant, before: Instant, params: Params, env: Foreign)
    returns (edited: Component, newParams: Params, err: Option<ModuleError>)
    requires c.VEvent? && InWindow(c.event.start, after, before) ==> c.event.summary.Some?
    ensures (edited, newParams, err) == EditOne(c, pattern, after, before, params, env)
  {
    edited, newParams, err := c, params, None;
    if c.VEvent? {
      var event := c.event;
      if InWindow(event.start, after, before) {
        if env.matches(pattern, event.summary.value) {
          var edit := EditFields(event, params, env);
          newParams := edit.params;
          event := edit.event;
          err := edit.err;
          if edit.err.None? && Get(newParams, "move-time") != "" {
            var dur := env.parseDuration(Get(newParams, "move-time"));
            if dur.Some? {
              event := event.(start := event.start + dur.value, end := event.end + dur.value);
            } else {
              err := Some(InvalidDuration);
            }
          }
          edited := VEvent(event);
        }
      }
    }
  }

  // ===========================================================================
  // add-reminder (modules.go:621-635)
  // ===========================================================================

  /** The alarm the module configures: TRIGGER "-PT" + time, ACTION DISPLAY. */
  function Reminder(time: string): Alarm
  {
    Alarm(Some("-PT" + time), Some("DISPLAY"))
  }

  /** `AddAlarm()` appends an empty alarm; trigger and action are then set on
      `Alarms()[0]`, the event's first alarm, which is the new one only when
      the event had none. */
  function WithReminder(c: Component, time: string): (r: Component)
    ensures r.VEvent? == c.VEvent?
    ensures c.Other? ==> r == c
    ensures c.VEvent? ==> r.event == c.event.(alarms := r.event.alarms)
    ensures c.VEvent? ==> |r.event.alarms| == |c.event.alarms| + 1 && r.event.alarms[0] == Reminder(time)
    ensures c.VEvent? ==> forall k :: 1 <= k < |c.event.alarms| ==> r.event.alarms[k] == c.event.alarms[k]
    ensures c.VEvent? && c.event.alarms != [] ==> r.event.alarms[|c.event.alarms|] == Alarm(None, None)
    ensures c.VEvent? && c.event.alarms == [] ==> r.event.alarms == [Reminder(time)]
  {
    if c.Other? then c
    else
      var added := c.event.alarms + [Alarm(None, None)];
      VEvent(c.event.(alarms := added[0 := Reminder(time)]))
  }

  /** What add-reminder leaves behind: every component passed through WithReminder. */
  function AddReminderOutcome(s: seq<Component>, params: Params): (r: seq<Component>)
    ensures |r| == |s|
    ensures forall i :: 0 <= i < |s| ==> r[i] == WithReminder(s[i], Get(params, "time"))
  {
    seq(|s|, i requires 0 <= i < |s| => WithReminder(s[i], Get(params, "time")))
  }

  /** add-reminder keeps the non-event components and the number of events. */
  lemma {:induction false} AddReminderKeepsOthers(s: seq<Component>, params: Params)
    ensures Others(AddReminderOutcome(s, params)) == Others(s)
    ensures EventCount(AddReminderOutcome(s, params)) == EventCount(s)
  {
    if s != [] {
      var r := AddReminderOutcome(s, params);
      assert r == [r[0]] + AddReminderOutcome(s[1..], params);
      AddReminderKeepsOthers(s[1..], params);
    }
  }

  /** moduleAddAllReminder. */
  method AddAllReminder(cal: Calendar, params: Params) returns (delta: int, err: Option<ModuleError>)
    modifies cal
    ensures delta == 0 && err.None?
    ensures cal.components == AddReminderOutcome(old(cal.components), params)
    ensures cal.properties == old(cal.properties)
  {
    ghost var s := cal.components;
    var time := Get(params, "time");
    var i := |cal.components| - 1;
    while i >= 0
      invariant -1 <= i < |s| && |cal.components| == |s|
      invariant forall j :: 0 <= j <= i ==> cal.components[j] == s[j]
      invariant forall j :: i < j < |s| ==> cal.components[j] == WithReminder(s[j], time)
      invariant cal.properties == old(cal.properties)
    {
      var c := cal.components[i];
      if c.VEvent? {
        var event := c.event;
        event := event.(alarms := event.alarms + [Alarm(None, None)]);
        event := event.(alarms := event.alarms[0 := event.alarms[0].(trigger := Some("-PT" + time))]);
        event := event.(alarms := event.alarms[0 := event.alarms[0].(action := Some("DISPLAY"))]);
        cal.components := cal.components[i := VEvent(event)];
      }
      i := i - 1;
    }
    return 0, None;
  }
}
