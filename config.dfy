/** The relay's configuration as held in memory: the server block, the
    profiles and the notifiers, with the edits the admin interface makes to
    them and the defaults filled in after the file is read. Writing the file
    back is not part of this model. */
module Configuration {
  import opened Document

  datatype MailConfig = MailConfig(smtpServer: string, smtpPort: int, sender: string, smtpUser: string, smtpPass: string)

  datatype ServerConfig = ServerConfig(
    addr: string,
    url: string,
    logLevel: nat,
    storagePath: string,
    templatePath: string,
    imprint: string,
    privacyPolicy: string,
    mail: MailConfig,
    superTokens: seq<string>)

  /** A profile: a source calendar and the modules applied to it, each
      module a parameter map with its `name`. */
  datatype Profile = Profile(
    source: string,
    public: bool,
    immutablePast: bool,
    tokens: seq<string>,
    modules: seq<map<string, string>>)

  datatype Notifier = Notifier(source: string, interval: string, recipients: seq<string>)

  /** The configuration. Its methods take the struct by value in the source,
      but the two maps are references, so their edits reach the shared
      configuration: here they are methods on one object. */
  class Config {
    var server: ServerConfig
    var profiles: map<string, Profile>
    var notifiers: map<string, Notifier>

    constructor (server: ServerConfig, profiles: map<string, Profile>, notifiers: map<string, Notifier>)
      ensures this.server == server && this.profiles == profiles && this.notifiers == notifiers
    {
      this.server := server;
      this.profiles := profiles;
      this.notifiers := notifiers;
    }

    /** getPublicCalendars: the public profiles' names, each once, in
        whatever order the map is visited. */
    method GetPublicCalendars() returns (names: seq<string>)
      ensures forall p :: p in names <==> p in profiles && profiles[p].public
      ensures forall i, j :: 0 <= i < j < |names| ==> names[i] != names[j]
    {
      names := [];
      var remaining := profiles.Keys;
      while remaining != {}
        invariant remaining <= profiles.Keys
        invariant forall p :: p in names <==> p in profiles && p !in remaining && profiles[p].public
        invariant forall i, j :: 0 <= i < j < |names| ==> names[i] != names[j]
        decreases remaining
      {
        var p :| p in remaining;
        if profiles[p].public {
          names := names + [p];
        }
        remaining := remaining - {p};
      }
    }

    /** profileExists. */
    predicate ProfileExists(name: string)
      reads this
    {
      name in profiles
    }

    /** notifierExists. */
    predicate NotifierExists(name: string)
      reads this
    {
      name in notifiers
    }

    /** addNotifierFromProfile: a notifier for the profile's public URL,
        hourly, with no recipients, replacing any notifier of that name. */
    method AddNotifierFromProfile(name: string)
      modifies this
      ensures notifiers == old(notifiers)[name := Notifier(server.url + "/profiles/" + name, "1h", [])]
      ensures server == old(server) && profiles == old(profiles)
    {
      notifiers := notifiers[name := Notifier(server.url + "/profiles/" + name, "1h", [])];
    }

    /** addNotifyRecipient: the recipient goes at the end of the notifier's list. */
    method AddNotifyRecipient(notifier: string, recipient: string) returns (err: Option<string>)
      modifies this
      ensures err.Some? <==> notifier !in old(notifiers)
      ensures err.Some? ==> err.value == "notifier does not exist" && notifiers == old(notifiers)
      ensures err.None? ==> notifiers == old(notifiers)[notifier := old(notifiers)[notifier].(
        recipients := old(notifiers)[notifier].recipients + [recipient])]
      ensures server == old(server) && profiles == old(profiles)
    {
      if notifier in notifiers {
        var n := notifiers[notifier];
        n := n.(recipients := n.recipients + [recipient]);
        notifiers := notifiers[notifier := n];
        return None;
      } else {
        return Some("notifier does not exist");
      }
    }

    /** removeNotifyRecipient: the first occurrence of the recipient leaves
        the list; an unknown notifier or recipient changes nothing. */
    method RemoveNotifyRecipient(notifier: string, recipient: string) returns (err: Option<string>)
      modifies this
      ensures notifier !in old(notifiers) ==> err == Some("notifier does not exist")
      ensures notifier in old(notifiers) && recipient !in old(notifiers)[notifier].recipients ==>
        err == Some("recipient not found")
      ensures err.None? <==> notifier in old(notifiers) && recipient in old(notifiers)[notifier].recipients
      ensures err.Some? ==> notifiers == old(notifiers)
      ensures err.None? ==> notifier in old(notifiers) && notifiers == old(notifiers)[notifier :=
        old(notifiers)[notifier].(recipients := RemoveFirst(old(notifiers)[notifier].recipients, recipient))]
      ensures server == old(server) && profiles == old(profiles)
    {
      if notifier !in notifiers {
        return Some("notifier does not exist");
      }
      var n := notifiers[notifier];
      var i := 0;
      while i < |n.recipients|
        invariant 0 <= i <= |n.recipients|
        invariant recipient !in n.recipients[..i]
      {
        if n.recipients[i] == recipient {
          FirstIndexIs(n.recipients, recipient, i);
          n := n.(recipients := n.recipients[..i] + n.recipients[i + 1..]);
          notifiers := notifiers[notifier := n];
          return None;
        }
        assert n.recipients[..i + 1] == n.recipients[..i] + [n.recipients[i]];
        i := i + 1;
      }
      assert n.recipients[..i] == n.recipients;
      return Some("recipient not found");
    }

    /** addModule: the module goes at the end of the profile's list. */
    method AddModule(profile: string, entry: map<string, string>) returns (err: Option<string>)
      modifies this
      ensures err.Some? <==> profile !in old(profiles)
      ensures err.Some? ==> err.value == "profile " + profile + " does not exist" && profiles == old(profiles)
      ensures err.None? ==> profiles == old(profiles)[profile := old(profiles)[profile].(
        modules := old(profiles)[profile].modules + [entry])]
      ensures server == old(server) && notifiers == old(notifiers)
    {
      if !ProfileExists(profile) {
        return Some("profile " + profile + " does not exist");
      }
      var p := profiles[profile];
      p := p.(modules := p.modules + [entry]);
      profiles := profiles[profile := p];
      return None;
    }
  }

  // ---------------------------------------------------------------------------
  // Removing the first occurrence
  // ---------------------------------------------------------------------------

  /** The position of the first `x` in `s`. */
  function FirstIndex(s: seq<string>, x: string): (i: nat)
    requires x in s
    ensures i < |s| && s[i] == x && x !in s[..i]
  {
    if s[0] == x then 0
    else
      var i := FirstIndex(s[1..], x);
      assert s[..i + 1] == [s[0]] + s[1..][..i];
      i + 1
  }

  /** `s` without its first `x`; `s` itself when there is none. */
  function RemoveFirst(s: seq<string>, x: string): (r: seq<string>)
  {
    if x in s then s[..FirstIndex(s, x)] + s[FirstIndex(s, x) + 1..] else s
  }

  /** The one index that holds the first `x`. */
  lemma {:induction false} FirstIndexIs(s: seq<string>, x: string, i: nat)
    requires i < |s| && s[i] == x && x !in s[..i]
    ensures x in s && FirstIndex(s, x) == i
  {
    if i > 0 {
      assert s[0] == s[..i][0];
      assert s[1..][..i - 1] == s[..i][1..];
      FirstIndexIs(s[1..], x, i - 1);
    }
  }

  /** Removing the first occurrence takes exactly one `x` out when there is
      one, keeps the order of the rest, and keeps every later occurrence. */
  lemma RemoveFirstSpec(s: seq<string>, x: string)
    ensures x in s ==> |RemoveFirst(s, x)| == |s| - 1
    ensures x in s ==> multiset(RemoveFirst(s, x)) + multiset{x} == multiset(s)
    ensures x in s ==> RemoveFirst(s, x)[FirstIndex(s, x)..] == s[FirstIndex(s, x) + 1..]
    ensures x !in s ==> RemoveFirst(s, x) == s
  {
    if x in s {
      var i := FirstIndex(s, x);
      Around(s, i);
      assert RemoveFirst(s, x) == s[..i] + s[i + 1..];
    }
  }

  /** A sequence is what lies before `i`, the element at `i`, and what lies after. */
  lemma Around<T>(s: seq<T>, i: nat)
    requires i < |s|
    ensures s == s[..i] + [s[i]] + s[i + 1..]
    ensures multiset(s) == multiset(s[..i] + s[i + 1..]) + multiset{s[i]}
    ensures (s[..i] + s[i + 1..])[i..] == s[i + 1..]
  {
    assert s == s[..i] + [s[i]] + s[i + 1..];
  }

  // ---------------------------------------------------------------------------
  // Defaults (config.go:77-94)
  // ---------------------------------------------------------------------------

  /** logrus's InfoLevel, the level used when none is configured (0). */
  const InfoLevel: nat := 4

  /** The templates directory used when none is configured: the directory
      part of "/opt/ical-relay/templates/". */
  const DefaultTemplateDir: string := "/opt/ical-relay/templates"

  predicate EndsWithSlash(p: string)
  {
    |p| > 0 && p[|p| - 1] == '/'
  }

  function WithSlash(p: string): (r: string)
    ensures EndsWithSlash(r)
    ensures EndsWithSlash(p) ==> r == p
    ensures !EndsWithSlash(p) ==> r == p + "/"
  {
    if EndsWithSlash(p) then p else p + "/"
  }

  /** The server block after the defaults; `configDir` is the directory of
      the configuration file. */
  function Defaulted(s: ServerConfig, configDir: string): (r: ServerConfig)
  {
    s.(addr := if s.addr == "" then ":8080" else s.addr,
       logLevel := if s.logLevel == 0 then InfoLevel else s.logLevel,
       storagePath := WithSlash(if s.storagePath == "" then configDir else s.storagePath),
       templatePath := WithSlash(if s.templatePath == "" then DefaultTemplateDir else s.templatePath))
  }

  /** After the defaults the address and level are set, both paths end in
      "/", a path already ending in "/" is kept, and every other field is
      unchanged; applying the defaults again changes nothing. */
  lemma DefaultsSpec(s: ServerConfig, configDir: string)
    ensures var r := Defaulted(s, configDir);
      r.addr != "" && r.logLevel != 0
      && (s.addr == "" ==> r.addr == ":8080") && (s.addr != "" ==> r.addr == s.addr)
      && (s.logLevel == 0 ==> r.logLevel == InfoLevel) && (s.logLevel != 0 ==> r.logLevel == s.logLevel)
      && (s.storagePath == "" ==> r.storagePath == WithSlash(configDir))
      && (s.templatePath == "" ==> r.templatePath == DefaultTemplateDir + "/")
      && EndsWithSlash(r.storagePath) && EndsWithSlash(r.templatePath)
      && (EndsWithSlash(s.storagePath) ==> r.storagePath == s.storagePath)
      && (EndsWithSlash(s.templatePath) ==> r.templatePath == s.templatePath)
      && r.url == s.url && r.mail == s.mail && r.superTokens == s.superTokens
      && Defaulted(r, configDir) == r
  {
  }

  /** The defaulting block of ParseConfig, one field after another. */
  method ApplyDefaults(server: ServerConfig, configDir: string) returns (s: ServerConfig)
    ensures s == Defaulted(server, configDir)
  {
    s := server;
    if s.addr == "" {
      s := s.(addr := ":8080");
    }
    if s.logLevel == 0 {
      s := s.(logLevel := InfoLevel);
    }
    if s.storagePath == "" {
      s := s.(storagePath := configDir);
    }
    if !EndsWithSlash(s.storagePath) {
      s := s.(storagePath := s.storagePath + "/");
    }
    if s.templatePath == "" {
      s := s.(templatePath := DefaultTemplateDir);
    }
    if !EndsWithSlash(s.templatePath) {
      s := s.(templatePath := s.templatePath + "/");
    }
  }
}
