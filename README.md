# ical-relay module engine, modelled in Dafny

ical-relay serves calendars. Each profile names a source calendar and a list of
*modules*. A module is a function `(calendar, params) -> (delta, error)` that
changes the calendar's component list in place:
- `delete-bysummary-regex`, `delete-byid`, `delete-timeframe` and
  `delete-duplicates` remove events;
- `edit-byid` and `edit-bysummary-regex` rewrite event fields under an
  overwrite policy;
- `add-reminder` adds an alarm to every event;
- `add-url` and `add-file` merge events from elsewhere;
- `save-to-file` writes the calendar out.

Each module returns a delta: the number of events added, or minus the number
removed. A module table maps names to modules, and a shorter list marks the
modules a module admin may configure. Alongside the engine sits the in-memory
configuration: profiles, notifiers and their recipients, and the defaults
filled in after loading.

The model has seven modules:
- `Document`: the calendar, the parameter bag and the foreign pieces. The
  foreign pieces are the regex engine, the RFC 3339 / duration / `UNTIL`
  parsers and formatter, the clock and Go's map iteration order. It also
  holds the shared list surgery (`RemoveAt`, `Filter`).
- `RRule`: splitting an RRULE into a key/value map, the `UNTIL` truncation
  and the reassembly.
- `Deletion`, `Editing` and `Aggregation`: the modules themselves.
- `Registry`: the name tables and the dispatch.
- `Configuration`: the configuration edits and defaults.

Each module is a method on a `Calendar` object that `modifies` it. Its
postcondition ties the new component list, delta and error to a
specification function of the old list (`DeleteIdOutcome`,
`DeleteTimeframeOutcome`, ...). The lemmas then state what the source
promises about those functions. The backward loops carry the invariant
`components == s[..i+1] + Spec(s[i+1..])`.

The model follows the code where it departs from its own comments or from the
service's description:
- `edit-bysummary-regex` parses `params["start"]` when `after` is set. It
  never defaults `overwrite`, so an unset policy edits no text field.
- `edit-byid` edits the last event carrying the id, not the first, and
  writes `overwrite` back into the caller's parameter map.
- `delete-byid` goes on ranging over a stale slice after a removal. The model
  therefore requires at most one event with the id, which is the case where
  the code removes exactly that event.
- `add-reminder` sets TRIGGER and ACTION on the first alarm, not on the one
  it has just added.
- An unparsable `UNTIL` makes `delete-timeframe` return `(0, error)`. The
  events after it in the list have already been removed or rewritten, and
  the model keeps that partial state.
- A non-200 status from an additional URL adds nothing and is not an error.

`ProfileExists` and `NotifierExists` (config.go:148-156) are predicates that
say the name is a key of the profile and notifier maps. `AddModule` uses the
first.

## Model

| member | source | states |
|---|---|---|
| Document.ResolveAfter | modules.go:255-265 | an empty lower bound is the zero time; the only failure is a bound that is neither empty nor "now" and does not parse, which is "invalid start time" |
| Document.ResolveBefore | modules.go:266-276 | an empty upper bound is the largest Go time; the only failure is a bound that is neither empty nor "now" and does not parse, which is "invalid end time" |
| Document.RemoveAt | modules.go:638-640 | `remove` leaves a slice one element shorter |
| Document.RemoveAtSpec | modules.go:638-640 | `remove` drops exactly index s: everything before it kept, everything after it shifted down by one, the same multiset less that element |
| Document.Filter | modules.go:81-103 | the length a sweep loses is the number of components it drops |
| Document.FilterMembers | modules.go:81-103 | the survivors of a sweep are exactly the components the keep test accepts |
| Document.FilterAppend | modules.go:83 | sweeping a list piecewise gives the same survivors and removal count as sweeping it whole |
| Document.FilterKeepsOthers | modules.go:97-99 | a sweep that only drops events leaves the non-event components, in order, untouched |
| RRule.Split | modules.go:289 | `strings.Split` gives at least one part, splits exactly when the separator occurs, and no part holds the separator |
| RRule.JoinSplit | modules.go:289 | joining the parts of a split with the same separator gives the text back |
| RRule.SplitAtSep | modules.go:289 | splitting `a;b` is splitting `a` followed by splitting `b` |
| RRule.RuleMapAgrees | modules.go:292-295 | the map built while skipping empty parts equals the map the code builds, whenever every part holds `=` |
| RRule.ParseRuleAgrees | modules.go:289-295 | on every rule the code can split without a panic, the modelled parse gives the code's map |
| RRule.ParsedRuleIsClean | modules.go:292-295 | no key or value of a parsed rule contains `;` or `=` |
| RRule.SplitJoinRule | modules.go:318-321 | re-splitting the reassembled `K=V;` string gives the pairs in visiting order, followed by one empty part |
| RRule.JoinRuleEndsWithSep | modules.go:320 | a reassembled rule with any key ends with `;` |
| RRule.ReassembledRuleNotSplittable | modules.go:293-294 | the code's own split panics on every rule that its reassembly writes |
| RRule.RuleMapOfPairs | modules.go:318-321 | the pairs written for the visited keys parse back to exactly those keys and values |
| RRule.RuleRoundTrip | modules.go:289-321 | parsing the reassembled rule gives back the same map, whatever order the map is visited in |
| RRule.TruncateRule | modules.go:296-316 | an unreadable UNTIL is the "invalid UNTIL" error; otherwise keys other than UNTIL are untouched, UNTIL is present iff it was or COUNT is absent, and its value is the old one or `after` |
| RRule.TruncateCases | modules.go:297-316 | an UNTIL later than `after` becomes `after`; an UNTIL at or before it is kept; a COUNT rule is unchanged; a rule with neither gains `UNTIL=after` |
| RRule.TruncateNeverExtends | modules.go:304-308 | after truncation UNTIL is never later than `after` nor than the old UNTIL, given that the compact format reads back |
| RRule.TruncateIdempotent | modules.go:296-316 | truncating a second time with the same cutoff changes nothing, given that the compact format reads back |
| RRule.RewriteRuleRoundTrip | modules.go:289-328 | the rewritten RRULE string parses back to the truncated map, so every other key/value pair is preserved |
| Deletion.RemoveByRegexSummaryAndTime | modules.go:81-103 | the components become exactly those that are not an event starting strictly inside (lo, hi) whose summary matches, in order; the count is minus the number removed |
| Deletion.RemoveByRegexSummary | modules.go:74-77 | the same, with the bounds the zero time and the largest Go time |
| Deletion.DeleteSummaryRegexOutcome | modules.go:54-71 | an empty regex is an error with no change and delta 0; otherwise exactly the matching events inside the window go, non-events stay, and the delta is minus their number and never positive |
| Deletion.DeleteSummaryRegex | modules.go:54-71 | the method's new component list, delta and error are those of the outcome function; the "should not be positive" branch is unreachable |
| Deletion.DroppedAtMostOne | modules.go:113-124 | with at most one event carrying the id, at most one component is removed |
| Deletion.DeleteIdOutcome | modules.go:108-126 | an empty id is an error with no change on any calendar; otherwise exactly the events with the id go, non-events stay, and the delta is 0 or -1 |
| Deletion.DeleteIdRemovesTheEvent | modules.go:113-124 | when event k carries a unique id, the result is `remove(s, k)` with delta -1 |
| Deletion.DeleteIdAbsent | modules.go:113-125 | an id that no event carries gives delta 0 and no change |
| Deletion.DeleteIdTwice | modules.go:108-126 | a second call with the same id is a no-op with delta 0 |
| Deletion.RemoveById | modules.go:113-124 | the forward loop leaves exactly the components without the id, and counts minus the number removed |
| Deletion.DeleteId | modules.go:108-126 | the method's state, delta and error are those of the outcome function |
| Deletion.RewriteComponent | modules.go:284-331 | only the RRULE of an event changes; non-events and events without a rule are untouched; the only failure is an event whose rule has an unreadable UNTIL |
| Deletion.TimeframeSweep | modules.go:280-339 | the sweep keeps or drops every component, so survivors plus removed is the original length |
| Deletion.TimeframeSweepIsFilter | modules.go:280-339 | the sweep fails iff some rule's UNTIL is unreadable; otherwise its survivors are the rewritten components outside (after, before) and it removes exactly the events inside |
| Deletion.TimeframeEmptyWindow | modules.go:333 | a window with before <= after removes nothing |
| Deletion.SweepStops | modules.go:289-302 | a loop that, walking back from the end, meets an unreadable UNTIL before any rule it cannot split stops with the error, whatever the rules in front of it hold |
| Deletion.TimeframeKeepsOthers | modules.go:280-339 | non-event components survive the sweep untouched and in order, even when it stops on an error, on every calendar the loop can run on |
| Deletion.SweepAfterFailure | modules.go:299-302 | once an UNTIL fails, the components before it in the list are returned unchanged |
| Deletion.TimeframeBounds | modules.go:252-276 | both bounds empty is an error; otherwise each bound is resolved (empty, "now" or parsed) |
| Deletion.RewriteEventRule | modules.go:284-331 | the split, truncate and reassemble step yields the rewritten component |
| Deletion.DeleteTimeframeOutcome | modules.go:247-342 | a bound error changes nothing; an unreadable UNTIL is the "invalid until" error with delta 0, keeping what the loop already rewrote and removed; otherwise the delta is minus the number removed; the delta is never positive and the list never grows |
| Deletion.DeleteTimeframeRemovesWindow | modules.go:280-341 | with readable rules, exactly the events starting strictly between after and before go, every rule is rewritten, non-events stay, and the delta is minus the number removed |
| Deletion.DeleteTimeframeSameBounds | modules.go:333 | after == before removes nothing |
| Deletion.DeleteTimeframeKeepsOthers | modules.go:247-342 | the module never touches non-event components, on every calendar it can run on |
| Deletion.DeleteTimeframe | modules.go:247-342 | the method's state, delta and error are those of the outcome function; the bound errors need nothing of the calendar, and past them only the rules the loop reads must split |
| Deletion.SweepTimeframe | modules.go:280-339 | the backward loop leaves the sweep's components, reports whether it stopped on a bad UNTIL, and otherwise counts down once per removed event |
| Deletion.Dedup | modules.go:349-369 | duplicate removal never lengthens the list and keeps summaries readable |
| Deletion.DedupKeys | modules.go:352-367 | every (start, end, summary) key present before is present after |
| Deletion.DedupKeysUnique | modules.go:352-367 | no key is held by two surviving events |
| Deletion.DedupFixpoint | modules.go:349-369 | a list without duplicate keys is left as it is |
| Deletion.LastOccurrenceSurvives | modules.go:352-365 | the event last in original order for its key survives |
| Deletion.DedupCount | modules.go:349-369 | exactly events minus distinct keys are removed |
| Deletion.DedupKeepsOthers | modules.go:349-369 | non-event components stay in order |
| Deletion.DeleteDuplicatesOutcome | modules.go:349-369 | no error, a delta that is never positive, and a length that falls by exactly the delta |
| Deletion.DeleteDuplicatesSpec | modules.go:347-369 | afterwards keys are pairwise distinct, no key is lost, the delta is -(events - distinct keys), non-events stay, and a second run returns 0 |
| Deletion.DeleteDuplicates | modules.go:349-369 | the loop over the `uniques` list yields the outcome function's state and delta |
| Editing.EditField | modules.go:394-410 | "true" replaces, "false" appends after "; ", "fillempty" writes only into "", any other value changes nothing; an absent field forces "true" into the parameters |
| Editing.OverwriteForcedSticks | modules.go:394-444 | the edits change no parameter except `overwrite`, which only ever becomes "true", and nothing at all when it already was |
| Editing.EditFields | modules.go:394-460 | summary, description and location get the overwrite policy one after another, each seeing the `overwrite` the one before it may have forced; id, rule and alarms are untouched; a bad new-start or new-end is an error that keeps the edits made before it; good times are set |
| Editing.EditFieldsForcedCarries | modules.go:394-444 | once an absent property forces `overwrite` to "true", every later given text replaces its property |
| Editing.EditFieldsOverwriteTrue | modules.go:394-444 | with "true", every given field takes the new value and the parameters are unchanged |
| Editing.EditFieldsNoChange | modules.go:394-460 | with no new-* parameter the event and the parameters are unchanged |
| Editing.MoveTime | modules.go:599-611 | an unparsable duration is an error; otherwise start and end move by it together and the span is kept |
| Editing.LastIndexWithId | modules.go:388-392 | the backward search finds the last event with the id, or none exists |
| Editing.EditIdOutcome | modules.go:381-469 | an empty id is an error with no change; an id nobody carries is no error; the last event with the id receives the field edits under `overwrite` defaulted to "true", with their parameters and error; every other component is untouched; kinds and ids stay; the list keeps its length |
| Editing.EditIdAppliesEdits | modules.go:381-469 | with `overwrite` unset or "true", the last event with the id carries every given text, the given times when the edit succeeds, and its own times and no error when no time is given |
| Editing.EditIdAbsent | modules.go:467-468 | an id no event carries changes nothing and is not an error |
| Editing.EditId | modules.go:381-469 | the method returns delta 0 and the outcome function's state and parameters |
| Editing.EditWindow | modules.go:492-516 | the lower bound reads "start" whenever "after" is neither empty nor "now"; the errors are the two bound errors |
| Editing.EditOne | modules.go:526-614 | an event outside the window or not matching is untouched; a hit gets the field edits and, when they succeed, the move by `move-time`, or the error of whichever failed; kinds, ids and rules are kept |
| Editing.RegexEditSweep | modules.go:523-617 | the edit sweep keeps the list's length |
| Editing.RegexEditShape | modules.go:523-617 | kinds and ids are kept, every component that is not hit is untouched, and an "true" policy leaves the parameters as they were |
| Editing.RegexEditKeepsSpan | modules.go:599-611 | without new-start or new-end, every event keeps its duration |
| Editing.RegexEditParams | modules.go:532-582 | the only parameter change is a forced "true" policy |
| Editing.EditSweepAfterFailure | modules.go:583-603 | a failing edit returns with the components before it in the list unchanged |
| Editing.RegexEditHits | modules.go:524-617 | with `overwrite` at "true", every hit of a completed sweep is edited exactly as that event alone would be |
| Editing.EditSummaryRegexAppliesTexts | modules.go:483-619 | with `overwrite` at "true", a completed run leaves every matching event in the window carrying each given text |
| Editing.EditSummaryRegexOutcome | modules.go:483-619 | the errors come in order: missing regex, invalid regex, bad bound, move-time with new-start/new-end; each leaves the calendar unchanged |
| Editing.EditSummaryRegexShape | modules.go:483-619 | non-events untouched, kinds and ids kept, parameters changed only by a forced "true" |
| Editing.EditSummaryRegex | modules.go:483-619 | the method returns delta 0 and the outcome function's state and parameters |
| Editing.EditMatching | modules.go:524-617 | the backward loop yields the edit sweep's state, stopping at the first failed edit; only the events it reaches need a summary |
| Editing.EditStep | modules.go:525-614 | one pass of the loop body edits exactly as the per-component edit function says, including the error that stops the loop |
| Editing.WithReminder | modules.go:626-629 | an event gains one alarm; alarm 0 becomes the DISPLAY reminder, and with earlier alarms the appended one stays blank; nothing else changes |
| Editing.AddReminderOutcome | modules.go:621-635 | every component is transformed in place; the list keeps its length |
| Editing.AddReminderKeepsOthers | modules.go:621-635 | non-events and the number of events are unchanged |
| Editing.AddAllReminder | modules.go:621-635 | delta 0, no error, and the outcome function's list |
| Aggregation.EventsCount | modules.go:130-137 | the events taken from a feed are all events and their number is the feed's event count |
| Aggregation.AddEvents | modules.go:130-137 | the target's components become the old ones followed by the feed's events in order; the count is their number, never negative; properties are untouched |
| Aggregation.AddOne | modules.go:154-185 | a request or transport failure (or a missing file) is an error with no change; a non-200 status appends nothing and is no error; otherwise the old list is kept and exactly the feed's events are appended, counted |
| Aggregation.AddEventsUrl | modules.go:154-185 | the method's state, count and error are those of the outcome function |
| Aggregation.AddEventsFile | modules.go:220-227 | the same for a file |
| Aggregation.Headers | modules.go:144-149 | header X is present iff parameter `header-X` is, with its value |
| Aggregation.BuildHeaders | modules.go:144-149 | the loop over the parameters, in any visiting order, builds exactly that map |
| Aggregation.AddUrlOutcome | modules.go:139-152 | an empty url is an error with no change; otherwise the old components stay as a prefix and the delta is what was appended |
| Aggregation.AddUrl | modules.go:139-152 | the method's state, count and error are those of the outcome function |
| Aggregation.AddFileOutcome | modules.go:213-227 | an empty filename or a file that does not exist is an error with no change; otherwise the old components stay as a prefix |
| Aggregation.AddFile | modules.go:213-218 | the method's state, count and error are those of the outcome function |
| Aggregation.AddMany | modules.go:201-239 | the old components stay as a prefix and the count, never negative, is exactly what was appended |
| Aggregation.AddManySplit | modules.go:201-211 | adding a + b is adding a, then b to the result, with the counts summed, unless a already failed |
| Aggregation.AddManyStopsAtError | modules.go:204-207 | at the first failing source the partial sum and the components so far are returned with its error |
| Aggregation.AddMultiUrl | modules.go:201-211 | the loop yields the summed outcome of the urls |
| Aggregation.AddMultiFile | modules.go:229-239 | the loop yields the summed outcome of the files |
| Aggregation.SaveToFile | modules.go:189-199 | count 0; an empty file name or a failed write is the error; the calendar is not changed |
| Registry.Classification | modules.go:17-38 | ten known modules; the low-privileged ones are exactly the six deleting and editing modules, each in the table; add-url, add-file, save-to-file and add-reminder are known but not low-privileged |
| Registry.CallModule | modules.go:43-45 | running a module by name yields that module's outcome |
| Registry.LowPrivilegedOutcome | modules.go:30-38 | a low-privileged module never adds a component, never returns a positive delta, keeps non-events, and its result does not depend on the network or the file system |
| Configuration.Config.GetPublicCalendars | config.go:138-146 | the names returned are exactly the public profiles, each once |
| Configuration.Config.AddNotifierFromProfile | config.go:158-164 | the notifier gets the profile's URL under the server URL, interval "1h" and no recipients, replacing any old entry; nothing else changes |
| Configuration.Config.AddNotifyRecipient | config.go:166-175 | an existing notifier gets the recipient appended; an unknown one is "notifier does not exist" with no change |
| Configuration.Config.RemoveNotifyRecipient | config.go:177-191 | it succeeds exactly when the notifier exists and holds the recipient, and then only the first occurrence goes; an absent recipient is "recipient not found" and an absent notifier "notifier does not exist", both without change |
| Configuration.Config.AddModule | config.go:193-201 | an unknown profile is "profile <name> does not exist" with no change; otherwise the module is appended to that profile only |
| Configuration.FirstIndex | config.go:180-181 | the position the range loop stops at holds the recipient and none before it does |
| Configuration.RemoveFirstSpec | config.go:180-187 | removing the first occurrence takes out exactly one copy, keeps the rest in order, and keeps every later copy |
| Configuration.WithSlash | config.go:86-94 | the path ends in "/" afterwards, and a path already ending in "/" is unchanged |
| Configuration.DefaultsSpec | config.go:77-94 | an empty address becomes ":8080" and level 0 becomes Info, other values are kept; an empty storage path becomes the configuration directory and an empty templates path "/opt/ical-relay/templates/"; both paths end in "/" and keep a trailing "/" they had; other fields are unchanged, and defaulting again changes nothing |
| Configuration.ApplyDefaults | config.go:77-94 | the sequential assignments yield the defaulted server block |

## Left out

- Network and file I/O: the HTTP request, the status check and the body
  parse in `addEventsURL`, `os.Stat` and the read in `addEventsFile`, and the
  write in `moduleSaveToFile`. These are oracles in `Aggregation.World`. A
  body that fails to parse is modelled as a feed, not as a nil calendar.
- Request headers are passed as a map. `Header.Set` canonicalises their
  names, and that is not modelled.
- The golang-ical library: parsing, serialisation and property storage. An
  event's RRULE is one optional field, replaced by the reassembled string.
  The code also calls `removeProperty` on the event's property list and
  drops its result, so what that does to the real list depends on library
  internals. The model does not claim that the old RRULE property is gone.
- Foreign functions are parameters of `Document.Foreign`: the Go regexp
  engine, `time.Parse`, `time.ParseDuration`, the compact UNTIL format,
  `time.Time.String` and `time.Now`. The clock is read once per call. Any
  round trip between the compact parse and format is an explicit
  precondition (`TruncateNeverExtends`, `TruncateIdempotent`).
- `time.Time.Add` saturation and overflow: `MoveTime` adds unbounded
  integers.
- Aliasing: events are values, so an edit cannot reach another copy of the
  same `*VEvent` pointer.
- Logging (logrus) throughout.
- `removeFromICS` is not part of this model. It is taken to behave like
  `remove`.
- `Deletion.DeleteId`: requires, when an id is given, at most one event
  carrying it. With two, the code's `range` keeps the original length while
  the removal shifts the shared array, so it skips a component and reads a
  shifted one again; this is not modelled.
- `RRule.ParseRule`: takes an empty part to mean nothing. The code panics
  on it (see Findings). `Deletion.SweepReady` still requires `=` in every
  non-empty part of each rule the loop reads: every rule, or every rule
  from the one whose UNTIL stops the loop onwards.
- Summaries are required where the code dereferences them
  (`SummariesInWindow`, `SummariesPresent`, `SummariesReached`), and only
  once the parameter checks before the loop have passed. The code panics on
  an absent summary there. The edit loop stops at its first failing edit,
  so `SummariesReached` asks nothing of the events in front of it.
- `Deletion.DeleteSummaryRegexPre`: requires a given regex to compile.
  delete-bysummary-regex drops the compile error (modules.go:59) and then
  dereferences the nil pattern, a panic; edit-bysummary-regex reports the
  same input as an invalid regex instead.
- Time zones: an instant carries no location. The compact UNTIL text
  (modules.go:307, 315) writes the clock time of the bound's own zone
  followed by a literal `Z`, and `time.Time.String` in the duplicate key
  (modules.go:358) includes the zone. So for bounds or events outside UTC
  the model's UNTIL text and its duplicate keys can differ from the code's:
  two events at the same instant in different zones are duplicates in the
  model and not in the code, and the read-back precondition of
  `TruncateNeverExtends` and `TruncateIdempotent` does not hold for a
  bound outside UTC.
- A configuration without a `notifiers` section: Go's map is then nil and
  `addNotifierFromProfile` (config.go:158-164) panics on the write. The
  model's `notifiers` is always a map, empty in that case.
- The pipeline that runs a profile's modules in turn is not part of this
  model. Only `callModule` is modelled.
- Configuration file I/O: reading, YAML, `MkdirAll`, `saveConfig` and
  `reloadConfig`. The error `saveConfig` may return after a successful
  in-memory edit is not modelled. The directory of the configuration file
  is a parameter of `ApplyDefaults`.
- `removeModuleFromProfile`, `RunCleanup` and `TimeCleanup`: they depend on
  `removeFromMapString`, which is not part of this model, and on a
  goroutine, the clock and sleeping.
- The mail configuration and the super tokens are carried along but not
  interpreted.

## Findings

| source | as written | input that shows it | evidently intended | confidence | as-written member | corrected member |
|---|---|---|---|---|---|---|
| modules.go:318-321 | the reassembled RRULE ends in `;`, and the split at lines 293-294 indexes `p[1]` of the empty part after it | an event with `RRULE:FREQ=DAILY` passing two `delete-timeframe` modules in one profile: the first writes `FREQ=DAILY;UNTIL=...;`, and the second panics on the empty part | rules reassembled without a trailing separator, or empty parts skipped, so that a rewritten rule parses back to the same map | not executed | RRule.ReassembledRuleNotSplittable | RRule.RuleRoundTrip |
