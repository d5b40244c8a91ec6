/** The module registry: the names a profile may list, the modules each name
    runs, which of them a module admin may configure, and the dispatch that
    runs one module on a calendar. */
module Registry {
  import opened Document
  import Deletion
  import Editing
  import Aggregation

  datatype ModuleKind =
    | DeleteBySummaryRegex
    | DeleteById
    | AddUrl
    | AddFile
    | DeleteTimeframe
    | DeleteDuplicates
    | EditById
    | EditBySummaryRegex
    | SaveToFile
    | AddReminder

  /** The module table: every name a profile may use. */
  const Modules: map<string, ModuleKind> := map[
    "delete-bysummary-regex" := DeleteBySummaryRegex,
    "delete-byid" := DeleteById,
    "add-url" := AddUrl,
    "add-file" := AddFile,
    "delete-timeframe" := DeleteTimeframe,
    "delete-duplicates" := DeleteDuplicates,
    "edit-byid" := EditById,
    "edit-bysummary-regex" := EditBySummaryRegex,
    "save-to-file" := SaveToFile,
    "add-reminder" := AddReminder]

  /** The modules a module admin may configure: none of them reaches the
      network or the file system. */
  const LowPrivModules: seq<string> := [
    "delete-bysummary-regex",
    "delete-byid",
    "delete-timeframe",
    "delete-duplicates",
    "edit-byid",
    "edit-bysummary-regex"]

  /** The tables name ten modules; the low-privileged ones are exactly the
      six deleting and editing modules, each of them in the module table,
      and the four that fetch, read, write or add alarms are known but not
      low-privileged. */
  lemma Classification()
    ensures Modules.Keys == {"delete-bysummary-regex", "delete-byid", "add-url", "add-file", "delete-timeframe",
      "delete-duplicates", "edit-byid", "edit-bysummary-regex", "save-to-file", "add-reminder"}
    ensures (set n | n in LowPrivModules) == {"delete-bysummary-regex", "delete-byid", "delete-timeframe",
      "delete-duplicates", "edit-byid", "edit-bysummary-regex"}
    ensures forall n :: n in LowPrivModules ==> n in Modules
    ensures forall n :: n in ["add-url", "add-file", "save-to-file", "add-reminder"] ==>
      n in Modules && n !in LowPrivModules
    ensures forall n :: n in LowPrivModules ==>
      Modules[n] in {DeleteBySummaryRegex, DeleteById, DeleteTimeframe, DeleteDuplicates, EditById, EditBySummaryRegex}
  {
  }

  // ---------------------------------------------------------------------------
  // Dispatch (modules.go:43-45)
  // ---------------------------------------------------------------------------

  /** What running a module leaves: the components, the delta it returns,
      the parameter map as the module left it, and its error. */
  datatype Run = Run(comps: seq<Component>, delta: int, params: Params, err: Option<ModuleError>)

  /** What each module needs of the calendar to run without a panic. */
  ghost predicate ModulePre(kind: ModuleKind, s: seq<Component>, params: Params, env: Foreign)
  {
    match kind
    case DeleteBySummaryRegex => Deletion.DeleteSummaryRegexPre(s, params, env)
    case DeleteById => Deletion.DeleteIdPre(s, params)
    case AddUrl => ValidForeign(env)
    case DeleteTimeframe => Deletion.DeleteTimeframePre(s, params, env)
    case DeleteDuplicates => Deletion.SummariesPresent(s)
    case EditBySummaryRegex => Editing.EditSummaryRegexPre(s, params, env)
    case _ => true
  }

  /** The outcome of running the module of the given kind on `s`. */
  function ModuleOutcome(kind: ModuleKind, s: seq<Component>, params: Params, env: Foreign, world: Aggregation.World): Run
    requires ModulePre(kind, s, params, env)
  {
    match kind
    case DeleteBySummaryRegex =>
      var o := Deletion.DeleteSummaryRegexOutcome(s, params, env); Run(o.comps, o.delta, params, o.err)
    case DeleteById =>
      var o := Deletion.DeleteIdOutcome(s, params); Run(o.comps, o.delta, params, o.err)
    case AddUrl =>
      var o := Aggregation.AddUrlOutcome(s, params, world); Run(o.comps, o.delta, params, o.err)
    case AddFile =>
      var o := Aggregation.AddFileOutcome(s, params, world); Run(o.comps, o.delta, params, o.err)
    case DeleteTimeframe =>
      var o := Deletion.DeleteTimeframeOutcome(s, params, env); Run(o.comps, o.delta, params, o.err)
    case DeleteDuplicates =>
      var o := Deletion.DeleteDuplicatesOutcome(s, env); Run(o.comps, o.delta, params, o.err)
    case EditById =>
      var o := Editing.EditIdOutcome(s, params, env); Run(o.comps, 0, o.params, o.err)
    case EditBySummaryRegex =>
      var o := Editing.EditSummaryRegexOutcome(s, params, env); Run(o.comps, 0, o.params, o.err)
    case SaveToFile =>
      var file := Get(params, "file");
      Run(s, 0, params,
        if file == "" then Some(MissingParameter("file"))
        else if !world.writeOk(file) then Some(WriteFailed)
        else None)
    case AddReminder =>
      Run(Editing.AddReminderOutcome(s, params), 0, params, None)
  }

  /** callModule: runs the module on the calendar and hands back its delta
      and error. */
  method CallModule(kind: ModuleKind, cal: Calendar, params: Params, env: Foreign, world: Aggregation.World)
    returns (delta: int, newParams: Params, err: Option<ModuleError>)
    requires ModulePre(kind, cal.components, params, env)
    modifies cal
    ensures Run(cal.components, delta, newParams, err) == ModuleOutcome(kind, old(cal.components), params, env, world)
    ensures cal.properties == old(cal.properties)
  {
    newParams := params;
    match kind
    case DeleteBySummaryRegex => delta, err := Deletion.DeleteSummaryRegex(cal, params, env);
    case DeleteById => delta, err := Deletion.DeleteId(cal, params);
    case AddUrl => delta, err := Aggregation.AddUrl(cal, params, env, world);
    case AddFile => delta, err := Aggregation.AddFile(cal, params, world);
    case DeleteTimeframe => delta, err := Deletion.DeleteTimeframe(cal, params, env);
    case DeleteDuplicates => delta, err := Deletion.DeleteDuplicates(cal, params, env);
    case EditById => delta, newParams, err := Editing.EditId(cal, params, env);
    case EditBySummaryRegex => delta, newParams, err := Editing.EditSummaryRegex(cal, params, env);
    case SaveToFile => delta, err := Aggregation.SaveToFile(cal, params, world);
    case AddReminder => delta, err := Editing.AddAllReminder(cal, params);
  }

  // ---------------------------------------------------------------------------
  // What a module admin can do
  // ---------------------------------------------------------------------------

  /** Two lists with the same shape, where only events may differ, have the
      same non-event components. */
  lemma {:induction false} OthersPointwise(a: seq<Component>, b: seq<Component>)
    requires |a| == |b|
    requires forall j :: 0 <= j < |a| ==> a[j].VEvent? == b[j].VEvent?
    requires forall j :: 0 <= j < |a| && !b[j].VEvent? ==> a[j] == b[j]
    ensures Others(a) == Others(b)
  {
    if a != [] {
      OthersPointwise(a[1..], b[1..]);
    }
  }

  /** A low-privileged module never adds a component, never returns a
      positive delta, leaves every non-event component where it was, and
      does not depend on the network or the file system at all. */
  lemma LowPrivilegedOutcome(name: string, s: seq<Component>, params: Params, env: Foreign,
                             world: Aggregation.World, other: Aggregation.World)
    requires name in LowPrivModules
    requires ModulePre(Modules[name], s, params, env)
    ensures var r := ModuleOutcome(Modules[name], s, params, env, world);
      r.delta <= 0 && |r.comps| <= |s| && Others(r.comps) == Others(s)
      && r == ModuleOutcome(Modules[name], s, params, env, other)
  {
    Classification();
    var r := ModuleOutcome(Modules[name], s, params, env, world);
    match Modules[name]
    case DeleteTimeframe => Deletion.DeleteTimeframeKeepsOthers(s, params, env);
    case DeleteDuplicates => Deletion.DeleteDuplicatesSpec(s, env);
    case EditById => OthersPointwise(r.comps, s);
    case EditBySummaryRegex => Editing.EditSummaryRegexShape(s, params, env); OthersPointwise(r.comps, s);
    case _ =>
  }
}
