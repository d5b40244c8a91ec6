/** The calendar document every module works on, the string-keyed parameter bag,
    the foreign pieces (regex engine, time parsers, clock, map iteration order)
    and the list surgery the modules share. */
module Document {

  datatype Option<+T> = None | Some(value: T)

  // ---------------------------------------------------------------------------
  // Time
  // ---------------------------------------------------------------------------

  /** An instant, counted in nanoseconds from Go's zero time (0001-01-01T00:00:00Z). */
  type Instant = int

  /** Go's `time.Time{}`: the lower bound used when no lower bound is given. */
  const ZeroTime: Instant := 0

  /** The largest instant a Go `time.Time` holds, the value the source builds with
      `time.Unix(1<<63-1-unixToInternal, 999999999)`: 2^63 - 1 seconds and
      999999999 nanoseconds after the zero time. */
  const MaxTime: Instant := 9223372036854775807 * 1000000000 + 999999999

  /** `date.After(lo) && hi.After(date)`: strictly inside, both bounds excluded. */
  predicate InWindow(t: Instant, lo: Instant, hi: Instant)
  {
    lo < t && t < hi
  }

  // ---------------------------------------------------------------------------
  // Components
  // ---------------------------------------------------------------------------

  /** A VALARM: its TRIGGER and ACTION properties, absent until set. */
  datatype Alarm = Alarm(trigger: Option<string>, action: Option<string>)

  /** A VEVENT. An event without a readable DTSTART/DTEND is given `ZeroTime`,
      which is what the library's `GetStartAt`/`GetEndAt` yield on failure. */
  datatype Event = Event(
    id: string,
    summary: Option<string>,
    description: Option<string>,
    location: Option<string>,
    start: Instant,
    end: Instant,
    rrule: Option<string>,
    alarms: seq<Alarm>)

  /** A calendar component: an event, or anything else (time zone, todo, ...),
      which every module passes through untouched. */
  datatype Component = VEvent(event: Event) | Other(kind: string)

  /** A calendar-level property such as PRODID or X-WR-TIMEZONE. */
  type Property = (string, string)

  /** The parsed calendar that a module receives by pointer and changes in place. */
  class Calendar {
    var components: seq<Component>
    var properties: seq<Property>

    constructor (components: seq<Component>, properties: seq<Property>)
      ensures this.components == components && this.properties == properties
    {
      this.components := components;
      this.properties := properties;
    }
  }

  // ---------------------------------------------------------------------------
  // Parameters, errors, outcomes
  // ---------------------------------------------------------------------------

  /** A module's `map[string]string` parameters. */
  type Params = map<string, string>

  /** Go's `params[key]`: an absent key reads as the empty string. */
  function Get(params: Params, key: string): string
  {
    if key in params then params[key] else ""
  }

  /** The errors a module returns; the comment gives the source's message. */
  datatype ModuleError =
    | MissingParameter(name: string)  // "missing mandatory Parameter '<name>'"
    | MissingTimeframe                // "missing both Parameters 'start' or 'end'. One has to be present"
    | PositiveCount                   // "this number should not be positive"
    | InvalidRegex                    // "invalid regex: ..."
    | InvalidStartTime                // "invalid start time: ..."
    | InvalidEndTime                  // "invalid end time: ..."
    | InvalidUntil                    // "invalid UNTIL time: ..."
    | InvalidDuration                 // "invalid duration: ..."
    | ExclusiveParams                 // "two exclusive params were given: 'move-time' and 'new-start'/'new-end'"
    | RequestInvalid                  // the error of http.NewRequest, returned as it is
    | RequestFailed                   // "error requesting additional URL: ..."
    | FileNotFound(filename: string)  // "file <name> not found"
    | WriteFailed                     // "error writing to file: ..."

  datatype Result<+T> = Ok(value: T) | Err(error: ModuleError)

  /** What a module leaves behind: the components, the returned count and error. */
  datatype Outcome = Outcome(comps: seq<Component>, delta: int, err: Option<ModuleError>)

  // ---------------------------------------------------------------------------
  // Foreign pieces
  // ---------------------------------------------------------------------------

  /** Everything the modules take from outside the shown code. */
  datatype Foreign = Foreign(
    compiles: string -> bool,                      // regexp.Compile succeeds
    matches: (string, string) -> bool,             // (pattern, text): regexp MatchString
    parseTime: string -> Option<Instant>,          // time.Parse(time.RFC3339, _)
    parseDuration: string -> Option<int>,          // time.ParseDuration, in nanoseconds
    parseUntil: string -> Option<Instant>,         // time.Parse("20060102T150405Z", _)
    formatUntil: Instant -> string,                // t.Format("20060102T150405Z")
    timeText: Instant -> string,                   // t.String()
    keyOrder: map<string, string> -> seq<string>,  // the order `range` visits a Go map
    now: Instant)                                  // time.Now()

  /** `ks` visits exactly the keys of `m`. */
  ghost predicate IsListing(ks: seq<string>, m: map<string, string>)
  {
    forall k :: k in ks <==> k in m
  }

  /** Ranging over a Go map visits each of its keys. */
  ghost predicate ValidForeign(env: Foreign)
  {
    forall m: map<string, string> :: IsListing(env.keyOrder(m), m)
  }

  // ---------------------------------------------------------------------------
  // Time window resolver
  // ---------------------------------------------------------------------------

  /** A lower bound: "" is the zero time, "now" the clock, anything else the
      RFC 3339 instant read from `source` (the text of the parameter that is parsed). */
  function ResolveAfter(text: string, source: string, env: Foreign): (r: Result<Instant>)
    ensures r.Err? <==> text != "" && text != "now" && env.parseTime(source).None?
    ensures r.Err? ==> r.error == InvalidStartTime
    ensures text == "" ==> r == Ok(ZeroTime)
  {
    if text == "" then Ok(ZeroTime)
    else if text == "now" then Ok(env.now)
    else match env.parseTime(source)
      case None => Err(InvalidStartTime)
      case Some(t) => Ok(t)
  }

  /** An upper bound: "" is the largest instant, "now" the clock, else RFC 3339. */
  function ResolveBefore(text: string, env: Foreign): (r: Result<Instant>)
    ensures r.Err? <==> text != "" && text != "now" && env.parseTime(text).None?
    ensures r.Err? ==> r.error == InvalidEndTime
    ensures text == "" ==> r == Ok(MaxTime)
  {
    if text == "" then Ok(MaxTime)
    else if text == "now" then Ok(env.now)
    else match env.parseTime(text)
      case None => Err(InvalidEndTime)
      case Some(t) => Ok(t)
  }

  /** `t, _ := time.Parse(time.RFC3339, text)`: a failed parse yields the zero time. */
  function ParseOrZero(text: string, env: Foreign): (t: Instant)
    ensures env.parseTime(text).None? ==> t == ZeroTime
    ensures env.parseTime(text).Some? ==> t == env.parseTime(text).value
  {
    match env.parseTime(text)
    case None => ZeroTime
    case Some(t) => t
  }

  // ---------------------------------------------------------------------------
  // List surgery
  // ---------------------------------------------------------------------------

  /** Dropping the head and then k - 1 more drops k; taking k is the head and k - 1 of the rest. */
  lemma SliceAfterHead<T>(s: seq<T>, k: nat)
    requires 0 < k <= |s|
    ensures s[1..][k - 1..] == s[k..]
    ensures s[..k] == [s[0]] + s[1..][..k - 1]
  {
  }

  /** The slices around position `i`. */
  lemma SliceStep<T>(s: seq<T>, i: nat)
    requires i < |s|
    ensures s[i..][0] == s[i] && s[i..][1..] == s[i + 1..]
    ensures s[..i + 1] == s[..i] + [s[i]]
    ensures s == s[..i] + [s[i]] + s[i + 1..]
  {
  }

  /** A non-empty sequence is its head followed by its tail. */
  lemma HeadTail<T>(s: seq<T>)
    requires s != []
    ensures s == [s[0]] + s[1..]
  {
  }

  /** The tail of a concatenation with a non-empty front. */
  lemma TailOfAppend<T>(a: seq<T>, b: seq<T>)
    requires a != []
    ensures (a + b)[0] == a[0] && (a + b)[1..] == a[1..] + b
  {
  }

  /** Position `i` of `s[..i + 1] + t` is still `s[i]`. */
  lemma PrefixIndex<T>(s: seq<T>, i: nat, t: seq<T>)
    requires i < |s|
    ensures (s[..i + 1] + t)[i] == s[i]
  {
  }

  /** Writing `c` at the end of the prefix `s[..i + 1]`. */
  lemma ReplaceAtPrefixEnd<T>(s: seq<T>, i: nat, t: seq<T>, c: T)
    requires i < |s|
    ensures (s[..i + 1] + t)[i := c] == s[..i] + ([c] + t)
    ensures (s[..i + 1] + t)[i := c] == s[..i] + [c] + t
  {
  }

  /** Concatenation regroups freely. */
  lemma AppendAssoc<T>(x: seq<T>, y: seq<T>, z: seq<T>)
    ensures x + (y + z) == (x + y) + z
  {
  }

  /** `append(slice[:s], slice[s+1:]...)`: drops exactly the element at `i`. */
  function RemoveAt<T>(s: seq<T>, i: nat): (r: seq<T>)
    requires i < |s|
    ensures |r| == |s| - 1
  {
    s[..i] + s[i + 1..]
  }

  /** `remove` keeps everything in front of `i`, shifts everything behind it
      down by one, and takes exactly one copy of `s[i]` out. */
  lemma RemoveAtSpec<T>(s: seq<T>, i: nat)
    requires i < |s|
    ensures forall k :: 0 <= k < i ==> RemoveAt(s, i)[k] == s[k]
    ensures forall k :: i <= k < |s| - 1 ==> RemoveAt(s, i)[k] == s[k + 1]
    ensures multiset(RemoveAt(s, i)) + multiset{s[i]} == multiset(s)
  {
    SliceStep(s, i);
  }

  /** The components of `s` that `keep` accepts, in their original order. */
  function Filter(s: seq<Component>, keep: Component -> bool): (r: seq<Component>)
    ensures |r| + Dropped(s, keep) == |s|
  {
    if s == [] then []
    else (if keep(s[0]) then [s[0]] else []) + Filter(s[1..], keep)
  }

  /** A component survives the filter exactly when it was there and `keep`
      accepts it. */
  lemma {:induction false} FilterMembers(s: seq<Component>, keep: Component -> bool)
    ensures forall c :: c in Filter(s, keep) <==> c in s && keep(c)
  {
    if s != [] {
      FilterMembers(s[1..], keep);
      HeadTail(s);
    }
  }

  /** How many components of `s` `keep` rejects. */
  function Dropped(s: seq<Component>, keep: Component -> bool): nat
  {
    if s == [] then 0
    else (if keep(s[0]) then 0 else 1) + Dropped(s[1..], keep)
  }

  lemma {:induction false} FilterAppend(a: seq<Component>, b: seq<Component>, keep: Component -> bool)
    ensures Filter(a + b, keep) == Filter(a, keep) + Filter(b, keep)
    ensures Dropped(a + b, keep) == Dropped(a, keep) + Dropped(b, keep)
  {
    if a == [] {
      assert a + b == b;
    } else {
      TailOfAppend(a, b);
      FilterAppend(a[1..], b, keep);
      AppendAssoc(if keep(a[0]) then [a[0]] else [], Filter(a[1..], keep), Filter(b, keep));
    }
  }

  /** A filter that rejects nothing is the identity. */
  lemma {:induction false} FilterKeepsAll(s: seq<Component>, keep: Component -> bool)
    requires forall i :: 0 <= i < |s| ==> keep(s[i])
    ensures Filter(s, keep) == s && Dropped(s, keep) == 0
  {
    if s != [] {
      FilterKeepsAll(s[1..], keep);
    }
  }

  /** Dropping the element after the prefix `a`. */
  lemma RemoveAtJoin<T>(a: seq<T>, x: T, t: seq<T>)
    ensures RemoveAt(a + [x] + t, |a|) == a + t
  {
    var s := a + [x] + t;
    assert s[..|a|] == a && s[|a| + 1..] == t;
  }

  /** One step of a backward sweep: the filter of s[i..] from that of s[i+1..]. */
  lemma FilterFrom(s: seq<Component>, i: nat, keep: Component -> bool)
    requires i < |s|
    ensures Filter(s[i..], keep) == (if keep(s[i]) then [s[i]] else []) + Filter(s[i + 1..], keep)
    ensures Dropped(s[i..], keep) == (if keep(s[i]) then 0 else 1) + Dropped(s[i + 1..], keep)
  {
    SliceStep(s, i);
  }

  /** One step of a forward sweep: the filter of s[..i+1] from that of s[..i]. */
  lemma FilterUpTo(s: seq<Component>, i: nat, keep: Component -> bool)
    requires i < |s|
    ensures Filter(s[..i + 1], keep) == Filter(s[..i], keep) + (if keep(s[i]) then [s[i]] else [])
    ensures Dropped(s[..i + 1], keep) == Dropped(s[..i], keep) + (if keep(s[i]) then 0 else 1)
  {
    SliceStep(s, i);
    FilterAppend(s[..i], [s[i]], keep);
  }

  predicate IsEvent(c: Component) { c.VEvent? }

  /** The non-event components of `s`, in order. */
  function Others(s: seq<Component>): seq<Component>
  {
    if s == [] then []
    else (if s[0].Other? then [s[0]] else []) + Others(s[1..])
  }

  /** A filter that keeps every non-event component leaves the non-event
      components, and their order, exactly as they were. */
  lemma {:induction false} FilterKeepsOthers(s: seq<Component>, keep: Component -> bool)
    requires forall c: Component :: c.Other? ==> keep(c)
    ensures Others(Filter(s, keep)) == Others(s)
  {
    if s != [] {
      FilterKeepsOthers(s[1..], keep);
      OthersAppend(if keep(s[0]) then [s[0]] else [], Filter(s[1..], keep));
    }
  }

  lemma {:induction false} OthersAppend(a: seq<Component>, b: seq<Component>)
    ensures Others(a + b) == Others(a) + Others(b)
  {
    if a == [] {
      assert a + b == b;
    } else {
      TailOfAppend(a, b);
      OthersAppend(a[1..], b);
      AppendAssoc(if a[0].Other? then [a[0]] else [], Others(a[1..]), Others(b));
    }
  }

  /** The number of events in `s`. */
  function EventCount(s: seq<Component>): (n: nat)
    ensures n <= |s|
  {
    if s == [] then 0 else (if s[0].VEvent? then 1 else 0) + EventCount(s[1..])
  }
}
