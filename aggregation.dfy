/** The modules that bring events in from elsewhere (add-url, add-file and
    the addMulti helpers) and the one that writes the calendar out
    (save-to-file). The network and the file system are oracles: what a
    request or a read yields is given, not computed. */
module Aggregation {
  import opened Document

  /** What an HTTP GET yields: a request that cannot be built, a transport
      error, or a status code with the parsed body's components. */
  datatype Response = InvalidRequest | TransportError | Status(code: int, feed: seq<Component>)

  /** The outside world the add and save modules talk to. */
  datatype World = World(
    fetch: (string, map<string, string>) -> Response,  // (url, headers)
    readFile: string -> Option<seq<Component>>,        // None: os.Stat fails
    writeOk: string -> bool)                           // ioutil.WriteFile succeeds

  // ===========================================================================
  // addEvents (modules.go:130-137)
  // ===========================================================================

  /** The events of `feed`, in order, with their number. */
  lemma {:induction false} EventsCount(feed: seq<Component>)
    ensures |Filter(feed, IsEvent)| == EventCount(feed)
    ensures forall c :: c in Filter(feed, IsEvent) ==> c.VEvent?
  {
    if feed != [] {
      EventsCount(feed[1..]);
    }
  }

  /** addEvents: append every event of `feed` to `target`, in order, and
      return how many there were. Nothing else in `target` changes. */
  method AddEvents(target: Calendar, feed: seq<Component>) returns (count: int)
    modifies target
    ensures target.components == old(target.components) + Filter(feed, IsEvent)
    ensures count == EventCount(feed) && count >= 0
    ensures target.properties == old(target.properties)
  {
    var events := Filter(feed, IsEvent);
    EventsCount(feed);
    count := 0;
    var i := 0;
    while i < |events|
      invariant 0 <= i <= |events| && count == i
      invariant target.components == old(target.components) + events[..i]
      invariant target.properties == old(target.properties)
    {
      SliceStep(events, i);
      target.components := target.components + [events[i]];
      count := count + 1;
      i := i + 1;
    }
    assert events[..i] == events;
  }

  // ===========================================================================
  // One source: a URL or a file (modules.go:154-185, 220-227)
  // ===========================================================================

  datatype Source = Url(url: string) | File(filename: string)

  /** What adding one source does to the components: an unreachable URL or a
      missing file is an error with no change; a non-200 status is ignored
      with count 0; otherwise the source's events are appended. */
  function AddOne(s: seq<Component>, source: Source, headers: map<string, string>, world: World): (o: Outcome)
    ensures o.delta >= 0
    ensures o.err.Some? ==> o.comps == s && o.delta == 0
    ensures o.err.None? ==> |o.comps| == |s| + o.delta && o.comps[..|s|] == s
    ensures o.err.None? ==> forall c :: c in o.comps[|s|..] ==> c.VEvent?
    ensures o.err.Some? <==> match source
      case Url(url) => !world.fetch(url, headers).Status?
      case File(name) => world.readFile(name).None?
    ensures source.Url? && world.fetch(source.url, headers).Status? && world.fetch(source.url, headers).code != 200 ==>
      o == Outcome(s, 0, None)
    ensures source.Url? && world.fetch(source.url, headers).Status? && world.fetch(source.url, headers).code == 200 ==>
      o.comps[|s|..] == Filter(world.fetch(source.url, headers).feed, IsEvent)
      && o.delta == EventCount(world.fetch(source.url, headers).feed)
    ensures source.File? && world.readFile(source.filename).Some? ==>
      o.comps[|s|..] == Filter(world.readFile(source.filename).value, IsEvent)
      && o.delta == EventCount(world.readFile(source.filename).value)
  {
    EventsCount(match source
      case Url(url) => (if world.fetch(url, headers).Status? then world.fetch(url, headers).feed else [])
      case File(name) => (if world.readFile(name).Some? then world.readFile(name).value else []));
    match source
    case Url(url) =>
      (match world.fetch(url, headers)
       case InvalidRequest => Outcome(s, 0, Some(RequestInvalid))
       case TransportError => Outcome(s, 0, Some(RequestFailed))
       case Status(code, feed) =>
         if code != 200 then Outcome(s, 0, None)
         else
           assert (s + Filter(feed, IsEvent))[..|s|] == s;
           assert (s + Filter(feed, IsEvent))[|s|..] == Filter(feed, IsEvent);
           Outcome(s + Filter(feed, IsEvent), EventCount(feed), None))
    case File(name) =>
      (match world.readFile(name)
       case None => Outcome(s, 0, Some(FileNotFound(name)))
       case Some(feed) =>
         assert (s + Filter(feed, IsEvent))[..|s|] == s;
         assert (s + Filter(feed, IsEvent))[|s|..] == Filter(feed, IsEvent);
         Outcome(s + Filter(feed, IsEvent), EventCount(feed), None))
  }

  /** addEventsURL. */
  method AddEventsUrl(cal: Calendar, url: string, headers: map<string, string>, world: World)
    returns (count: int, err: Option<ModuleError>)
    modifies cal
    ensures Outcome(cal.components, count, err) == AddOne(old(cal.components), Url(url), headers, world)
    ensures cal.properties == old(cal.properties)
  {
    var response := world.fetch(url, headers);
    match response
    case InvalidRequest =>
      return 0, Some(RequestInvalid);
    case TransportError =>
      return 0, Some(RequestFailed);
    case Status(code, feed) =>
      if code != 200 {
        // unavailable URLs are ignored, not reported
        return 0, None;
      }
      count := AddEvents(cal, feed);
      return count, None;
  }

  /** addEventsFile. */
  method AddEventsFile(cal: Calendar, filename: string, world: World)
    returns (count: int, err: Option<ModuleError>)
    modifies cal
    ensures Outcome(cal.components, count, err) == AddOne(old(cal.components), File(filename), map[], world)
    ensures cal.properties == old(cal.properties)
  {
    var contents := world.readFile(filename);
    if contents.None? {
      return 0, Some(FileNotFound(filename));
    }
    count := AddEvents(cal, contents.value);
    return count, None;
  }

  // ===========================================================================
  // add-url and add-file (modules.go:139-152, 213-218)
  // ===========================================================================

  const HeaderPrefix: string := "header-"

  predicate HasHeaderPrefix(k: string)
  {
    |k| >= |HeaderPrefix| && k[..|HeaderPrefix|] == HeaderPrefix
  }

  /** A name prefixed with `header-`, and a prefixed key with the prefix taken off. */
  lemma PrefixParts(name: string, k: string)
    ensures HasHeaderPrefix(HeaderPrefix + name) && (HeaderPrefix + name)[|HeaderPrefix|..] == name
    ensures HasHeaderPrefix(k) ==> HeaderPrefix + k[|HeaderPrefix|..] == k
  {
    assert (HeaderPrefix + name)[..|HeaderPrefix|] == HeaderPrefix;
    if HasHeaderPrefix(k) {
      assert k == k[..|HeaderPrefix|] + k[|HeaderPrefix|..];
    }
  }

  /** The request headers: every parameter `header-<name>` becomes header `<name>`. */
  function Headers(params: Params): (h: map<string, string>)
    ensures forall name :: name in h <==> HeaderPrefix + name in params
    ensures forall name :: name in h ==> h[name] == params[HeaderPrefix + name]
  {
    var names := set k | k in params && HasHeaderPrefix(k) :: k[|HeaderPrefix|..];
    assert forall name :: name in names <==> HeaderPrefix + name in params by {
      forall name ensures name in names <==> HeaderPrefix + name in params {
        PrefixParts(name, "");
        if name in names {
          var k :| k in params && HasHeaderPrefix(k) && k[|HeaderPrefix|..] == name;
          PrefixParts(name, k);
        }
      }
    }
    map name | name in names :: params[HeaderPrefix + name]
  }

  /** The loop of modules.go:145-149, visiting the keys in Go's map order. */
  method BuildHeaders(params: Params, env: Foreign) returns (header: map<string, string>)
    requires ValidForeign(env)
    ensures header == Headers(params)
  {
    var keys := env.keyOrder(params);
    assert IsListing(keys, params);
    header := map[];
    var i := 0;
    while i < |keys|
      invariant 0 <= i <= |keys|
      invariant forall name :: name in header <==> HeaderPrefix + name in params && HeaderPrefix + name in keys[..i]
      invariant forall name :: name in header ==> header[name] == params[HeaderPrefix + name]
    {
      var k := keys[i];
      assert keys[..i + 1] == keys[..i] + [k];
      if HasHeaderPrefix(k) {
        header := header[k[|HeaderPrefix|..] := params[k]];
        forall name ensures HeaderPrefix + name == k <==> name == k[|HeaderPrefix|..] {
          PrefixParts(name, k);
        }
      } else {
        forall name ensures HeaderPrefix + name != k {
          PrefixParts(name, k);
        }
      }
      i := i + 1;
    }
    assert keys[..i] == keys;
    assert header.Keys == Headers(params).Keys;
  }

  /** What add-url leaves behind. */
  function AddUrlOutcome(s: seq<Component>, params: Params, world: World): (o: Outcome)
    ensures Get(params, "url") == "" ==> o == Outcome(s, 0, Some(MissingParameter("url")))
    ensures o.delta >= 0 && |o.comps| == |s| + o.delta && o.comps[..|s|] == s
  {
    if Get(params, "url") == "" then Outcome(s, 0, Some(MissingParameter("url")))
    else AddOne(s, Url(Get(params, "url")), Headers(params), world)
  }

  /** moduleAddURL. */
  method AddUrl(cal: Calendar, params: Params, env: Foreign, world: World)
    returns (count: int, err: Option<ModuleError>)
    requires ValidForeign(env)
    modifies cal
    ensures Outcome(cal.components, count, err) == AddUrlOutcome(old(cal.components), params, world)
    ensures cal.properties == old(cal.properties)
  {
    if Get(params, "url") == "" {
      return 0, Some(MissingParameter("url"));
    }
    var header := BuildHeaders(params, env);
    count, err := AddEventsUrl(cal, Get(params, "url"), header, world);
  }

  /** What add-file leaves behind. */
  function AddFileOutcome(s: seq<Component>, params: Params, world: World): (o: Outcome)
    ensures Get(params, "filename") == "" ==> o == Outcome(s, 0, Some(MissingParameter("filename")))
    ensures Get(params, "filename") != "" && world.readFile(Get(params, "filename")).None? ==>
      o == Outcome(s, 0, Some(FileNotFound(Get(params, "filename"))))
    ensures o.delta >= 0 && |o.comps| == |s| + o.delta && o.comps[..|s|] == s
  {
    if Get(params, "filename") == "" then Outcome(s, 0, Some(MissingParameter("filename")))
    else AddOne(s, File(Get(params, "filename")), map[], world)
  }

  /** moduleAddFile. */
  method AddFile(cal: Calendar, params: Params, world: World)
    returns (count: int, err: Option<ModuleError>)
    modifies cal
    ensures Outcome(cal.components, count, err) == AddFileOutcome(old(cal.components), params, world)
    ensures cal.properties == old(cal.properties)
  {
    if Get(params, "filename") == "" {
      return 0, Some(MissingParameter("filename"));
    }
    count, err := AddEventsFile(cal, Get(params, "filename"), world);
  }

  // ===========================================================================
  // addMultiURL and addMultiFile (modules.go:201-211, 229-239)
  // ===========================================================================

  /** Add the sources one after another; the first error stops the loop and
      is returned with the count added before it. */
  function AddMany(s: seq<Component>, sources: seq<Source>, headers: map<string, string>, world: World): (o: Outcome)
    ensures o.delta >= 0 && |o.comps| == |s| + o.delta && o.comps[..|s|] == s
    decreases sources
  {
    if sources == [] then Outcome(s, 0, None)
    else
      var first := AddOne(s, sources[0], headers, world);
      if first.err.Some? then Outcome(s, 0, first.err)
      else
        var rest := AddMany(first.comps, sources[1..], headers, world);
        assert rest.comps[..|s|] == rest.comps[..|first.comps|][..|s|];
        Outcome(rest.comps, first.delta + rest.delta, rest.err)
  }

  /** The count is the sum of the counts of the sources added before the
      first error, and an error stops before any later source is read. */
  lemma {:induction false} AddManySplit(s: seq<Component>, a: seq<Source>, b: seq<Source>, headers: map<string, string>, world: World)
    ensures var first := AddMany(s, a, headers, world);
      AddMany(s, a + b, headers, world) ==
        if first.err.Some? then first
        else var rest := AddMany(first.comps, b, headers, world);
          Outcome(rest.comps, first.delta + rest.delta, rest.err)
    decreases a
  {
    if a == [] {
      assert a + b == b;
    } else {
      assert (a + b)[0] == a[0] && (a + b)[1..] == a[1..] + b;
      var one := AddOne(s, a[0], headers, world);
      if one.err.None? {
        AddManySplit(one.comps, a[1..], b, headers, world);
      }
    }
  }

  /** A source that fails makes the whole call fail with the count so far. */
  lemma AddManyStopsAtError(s: seq<Component>, a: seq<Source>, bad: Source, b: seq<Source>, headers: map<string, string>, world: World)
    requires AddMany(s, a, headers, world).err.None?
    requires AddOne(AddMany(s, a, headers, world).comps, bad, headers, world).err.Some?
    ensures AddMany(s, a + [bad] + b, headers, world) == Outcome(
      AddMany(s, a, headers, world).comps,
      AddMany(s, a, headers, world).delta,
      AddOne(AddMany(s, a, headers, world).comps, bad, headers, world).err)
  {
    assert a + [bad] + b == a + ([bad] + b);
    AddManySplit(s, a, [bad] + b, headers, world);
    assert ([bad] + b)[0] == bad;
  }

  function Urls(urls: seq<string>): (r: seq<Source>)
    ensures |r| == |urls| && forall i :: 0 <= i < |urls| ==> r[i] == Url(urls[i])
  {
    seq(|urls|, i requires 0 <= i < |urls| => Url(urls[i]))
  }

  function Files(filenames: seq<string>): (r: seq<Source>)
    ensures |r| == |filenames| && forall i :: 0 <= i < |filenames| ==> r[i] == File(filenames[i])
  {
    seq(|filenames|, i requires 0 <= i < |filenames| => File(filenames[i]))
  }

  /** One step of the forward loop over the sources. */
  lemma AddManyFrom(s: seq<Component>, sources: seq<Source>, i: nat, headers: map<string, string>, world: World)
    requires i < |sources|
    ensures AddMany(s, sources[i..], headers, world) ==
      var first := AddOne(s, sources[i], headers, world);
      if first.err.Some? then Outcome(s, 0, first.err)
      else
        var rest := AddMany(first.comps, sources[i + 1..], headers, world);
        Outcome(rest.comps, first.delta + rest.delta, rest.err)
  {
    assert sources[i..][0] == sources[i] && sources[i..][1..] == sources[i + 1..];
  }

  /** addMultiURL. */
  method AddMultiUrl(cal: Calendar, urls: seq<string>, header: map<string, string>, world: World)
    returns (count: int, err: Option<ModuleError>)
    modifies cal
    ensures Outcome(cal.components, count, err) == AddMany(old(cal.components), Urls(urls), header, world)
    ensures cal.properties == old(cal.properties)
  {
    ghost var sources := Urls(urls);
    ghost var goal := AddMany(cal.components, sources, header, world);
    count := 0;
    var i := 0;
    assert sources[0..] == sources;
    while i < |urls|
      invariant 0 <= i <= |urls|
      invariant goal.comps == AddMany(cal.components, sources[i..], header, world).comps
      invariant goal.err == AddMany(cal.components, sources[i..], header, world).err
      invariant goal.delta == count + AddMany(cal.components, sources[i..], header, world).delta
      invariant cal.properties == old(cal.properties)
    {
      AddManyFrom(cal.components, sources, i, header, world);
      var c, e := AddEventsUrl(cal, urls[i], header, world);
      if e.Some? {
        return count, e;
      }
      count := count + c;
      i := i + 1;
    }
    return count, None;
  }

  /** addMultiFile. */
  method AddMultiFile(cal: Calendar, filenames: seq<string>, world: World)
    returns (count: int, err: Option<ModuleError>)
    modifies cal
    ensures Outcome(cal.components, count, err) == AddMany(old(cal.components), Files(filenames), map[], world)
    ensures cal.properties == old(cal.properties)
  {
    ghost var sources := Files(filenames);
    ghost var goal := AddMany(cal.components, sources, map[], world);
    count := 0;
    var i := 0;
    assert sources[0..] == sources;
    while i < |filenames|
      invariant 0 <= i <= |filenames|
      invariant goal.comps == AddMany(cal.components, sources[i..], map[], world).comps
      invariant goal.err == AddMany(cal.components, sources[i..], map[], world).err
      invariant goal.delta == count + AddMany(cal.components, sources[i..], map[], world).delta
      invariant cal.properties == old(cal.properties)
    {
      AddManyFrom(cal.components, sources, i, map[], world);
      var c, e := AddEventsFile(cal, filenames[i], world);
      if e.Some? {
        return count, e;
      }
      count := count + c;
      i := i + 1;
    }
    return count, None;
  }

  // ===========================================================================
  // save-to-file (modules.go:189-199)
  // ===========================================================================

  /** moduleSaveToFile: the calendar is written out and not changed. */
  method SaveToFile(cal: Calendar, params: Params, world: World) returns (count: int, err: Option<ModuleError>)
    ensures count == 0
    ensures err.Some? <==> Get(params, "file") == "" || !world.writeOk(Get(params, "file"))
    ensures Get(params, "file") == "" ==> err == Some(MissingParameter("file"))
    ensures Get(params, "file") != "" && err.Some? ==> err == Some(WriteFailed)
  {
    if Get(params, "file") == "" {
      return 0, Some(MissingParameter("file"));
    }
    if !world.writeOk(Get(params, "file")) {
      return 0, Some(WriteFailed);
    }
    return 0, None;
  }
}
