/**
 The server and database a connection string leads to, where the last setting of a keyword wins,
 and which database names reach the database they name (internal/db/database.go).
 */
module Endpoints {
  import opened Text
  import opened Wrappers
  import opened ConnectionString

  /** What is not set is left to the driver. */
  datatype Endpoint = Endpoint(host: Option<string>, port: Option<string>, database: Option<string>)

  function Last(settings: seq<Setting>, key: string): Option<string> {
    if settings == [] then None
    else
      var later := Last(settings[1..], key);
      if later.Some? then later else if settings[0].0 == key then Some(settings[0].1) else None
  }

  /** None if the string cannot be read at all. */
  function EndpointOf(dsn: string): Option<Endpoint> {
    match ReadSettings(dsn)
    case None => None
    case Some(settings) => Some(Endpoint(Last(settings, "host"), Last(settings, "port"), Last(settings, "dbname")))
  }

  lemma LastStep(first: Setting, more: seq<Setting>, key: string)
    ensures Last([first] + more, key)
         == if Last(more, key).Some? then Last(more, key) else if first.0 == key then Some(first.1) else None
  {
    assert ([first] + more)[1..] == more;
  }

  lemma {:induction false} LastIsAmong(settings: seq<Setting>, key: string)
    ensures Last(settings, key).Some? ==> exists i :: 0 <= i < |settings| && settings[i].1 == Last(settings, key).value
  {
    if settings != [] {
      LastIsAmong(settings[1..], key);
      if Last(settings[1..], key).Some? {
        var i :| 0 <= i < |settings[1..]| && settings[1..][i].1 == Last(settings, key).value;
        assert settings[i + 1].1 == Last(settings, key).value;
      }
    }
  }

  // ----- a value that is the whole name -----

  predicate IsSuffix(x: string, s: string) { |x| <= |s| && x == s[|s| - |x|..] }

  lemma SuffixOfSuffix(x: string, y: string, s: string)
    requires IsSuffix(x, y) && IsSuffix(y, s)
    ensures IsSuffix(x, s)
  {
  }

  lemma {:induction false} SpecialsOfSuffix(x: string, s: string)
    requires IsSuffix(x, s)
    ensures Specials(x) <= Specials(s)
  {
    if |x| < |s| {
      SpecialsOfSuffix(x, s[1..]);
    } else {
      assert x == s;
    }
  }

  lemma {:induction false} UnquotedRest(s: string)
    requires ReadUnquoted(s).Some?
    ensures IsSuffix(ReadUnquoted(s).value.1, s)
  {
    if s != "" {
      UnquotedUnfolds(s);
      if !IsBlank(s[0]) { UnquotedRest(if s[0] != '\\' then s[1..] else s[2..]); }
    }
  }

  lemma {:induction false} QuotedRest(s: string)
    requires ReadQuoted(s).Some?
    ensures IsSuffix(ReadQuoted(s).value.1, s)
  {
    QuotedUnfolds(s);
    if s[0] != '\'' { QuotedRest(if s[0] != '\\' then s[1..] else s[2..]); }
  }

  lemma ValueRest(s: string)
    requires s != "" && !IsBlank(s[0]) && ReadValue(s).Some?
    ensures var (v, rest) := ReadValue(s).value;
            && IsSuffix(rest, s) && |rest| < |s| && |v| <= |s| && (|v| == |s| ==> PlainOrEmpty(v))
  {
    hide ReadUnquoted, ReadQuoted, PlainOrEmpty;
    ValueCost(s);
    if s[0] == '\'' {
      QuotedRest(s[1..]);
      SuffixOfSuffix(ReadQuoted(s[1..]).value.1, s[1..], s);
    } else {
      UnquotedRest(s);
      UnquotedShrinks(s);
    }
  }

  lemma UnquotedShrinks(s: string)
    requires s != "" && ReadUnquoted(s).Some?
    ensures |ReadUnquoted(s).value.1| < |s|
  {
    UnquotedUnfolds(s);
  }

  /** Without white space and backslashes every value is plain. */
  predicate IsSolid(t: string) { forall i | 0 <= i < |t| :: !IsBlank(t[i]) && t[i] != '\\' }

  lemma {:induction false} QuotedOfSolid(t: string)
    requires IsSolid(t) && ReadQuoted(t).Some?
    ensures PlainOrEmpty(ReadQuoted(t).value.0) && IsSolid(ReadQuoted(t).value.1)
    ensures ReadQuoted(t).value.0 != "" ==> ReadQuoted(t).value.0[0] == t[0]
  {
    QuotedUnfolds(t);
    if t[0] != '\'' { QuotedOfSolid(t[1..]); }
  }

  lemma SolidPart(t: string, n: nat)
    requires IsSolid(t) && n <= |t|
    ensures IsSolid(t[n..]) && SkipSpaces(t[n..]) == t[n..]
  {
    hide SkipSpaces, Span;
    var part := t[n..];
    forall i | 0 <= i < |part| ensures !IsBlank(part[i]) && part[i] != '\\' {
      assert part[i] == t[n + i];
    }
    NothingToSkip(part);
  }

  lemma SolidKey(t: string)
    requires IsSolid(t) && ReadKey(t).Some?
    ensures IsSolid(ReadKey(t).value.1) && SkipSpaces(ReadKey(t).value.1) == ReadKey(t).value.1
  {
    var n := Span(t, IsKeyPart);
    SolidPart(t, n);
    SolidPart(t, n + 1);
    assert t[n..][1..] == t[n + 1..];
    hide IsSolid, Span, SkipSpaces;
  }

  lemma SolidValue(text: string)
    requires IsSolid(text) && ReadValue(text).Some?
    ensures PlainOrEmpty(ReadValue(text).value.0) && IsSolid(ReadValue(text).value.1)
  {
    hide ReadQuoted, ReadUnquoted;
    if text != "" && text[0] == '\'' {
      SolidPart(text, 1);
      QuotedOfSolid(text[1..]);
    } else {
      UnquotedRoundTrip(text, text[|text|..]);
      assert text + text[|text|..] == text;
    }
  }

  lemma SolidSetting(t: string)
    requires IsSolid(t) && ReadSetting(t).Some?
    ensures PlainOrEmpty(ReadSetting(t).value.0.1) && IsSolid(ReadSetting(t).value.1)
  {
    hide ReadKey, ReadValue, IsSolid, PlainOrEmpty, SkipSpaces;
    SolidKey(t);
    SolidValue(ReadKey(t).value.1);
  }

  lemma FirstIsRead(t: string)
    requires t != "" && StopsAt(t, IsBlank) && ReadSettings(t).Some?
    ensures ReadSetting(t).Some?
    ensures var (first, rest) := ReadSetting(t).value;
            ReadSettings(rest).Some? && ReadSettings(t).value == [first] + ReadSettings(rest).value
  {
    NothingToSkip(t);
    hide ReadSetting, SkipSpaces;
  }

  lemma {:induction false} SolidSettings(t: string)
    requires IsSolid(t) && ReadSettings(t).Some?
    ensures forall i | 0 <= i < |ReadSettings(t).value| :: PlainOrEmpty(ReadSettings(t).value[i].1)
    decreases |t|
  {
    hide ReadSettings, ReadSetting, PlainOrEmpty, IsSolid;
    if t == "" {
      NothingIsRead(t) by { NothingToSkip(t); }
    } else {
      SolidStart(t);
      FirstIsRead(t);
      SolidSetting(t);
      SolidSettings(ReadSetting(t).value.1);
    }
  }

  lemma SolidStart(t: string)
    requires IsSolid(t)
    ensures StopsAt(t, IsBlank)
  {
  }

  /** A value that crosses into z has another last character than the name, or fewer quotes and backslashes. */
  lemma CrossingIsAnother(w: string, z: string, v: string, rest: string, name: string)
    requires IsTail(z) && Crosses(w, z, v, rest) && IsSuffix(w, name)
    ensures v != name && IsSolid(rest)
  {
    SpecialsOfSuffix(w, name);
    hide Specials;
    assert w[|w| - 1] == name[|name| - 1];
  }

  /**
   No value read from a part of the name is the name itself, unless the name is plain. After the
   value comes a shorter part of the name, or text without white space.
   */
  lemma ValueIsAnother(w: string, z: string, name: string) returns (r: string)
    requires IsTail(z) && w != "" && !IsBlank(w[0]) && IsSuffix(w, name)
    requires ReadValue(w + z).Some?
    ensures ReadValue(w + z).value.0 == name ==> PlainOrEmpty(name)
    ensures var rest := ReadValue(w + z).value.1;
            IsSolid(rest) || (rest == r + z && IsSuffix(r, name) && |r| < |w|)
  {
    var (v, rest) := ReadValue(w + z).value;
    ValueSplits(w, z);
    if EndsBefore(ReadValue(w), v, rest, z) {
      ValueRest(w);
      r := ReadValue(w).value.1;
      hide ReadValue, PlainOrEmpty;
      SuffixOfSuffix(r, w, name);
    } else {
      r := "";
      CrossingIsAnother(w, z, v, rest, name);
    }
  }

  predicate NoneIsOddName(settings: seq<Setting>, name: string) {
    forall i | 0 <= i < |settings| :: settings[i].1 == name ==> PlainOrEmpty(name)
  }

  lemma NoneLater(first: Setting, more: seq<Setting>, name: string)
    requires (first.1 == name ==> PlainOrEmpty(name)) && NoneIsOddName(more, name)
    ensures NoneIsOddName([first] + more, name)
  {
  }

  lemma SolidIsNotOdd(t: string, name: string)
    requires IsSolid(t) && ReadSettings(t).Some?
    ensures NoneIsOddName(ReadSettings(t).value, name)
  {
    SolidSettings(t);
  }

  lemma {:induction false} PartIsNotOdd(x: string, z: string, name: string)
    requires IsTail(z) && IsSuffix(x, name) && ReadSettings(x + z).Some?
    ensures NoneIsOddName(ReadSettings(x + z).value, name)
    decreases |x|, 1
  {
    SkipInto(x, z);
    var start := SkipSpaces(x);
    if start == "" {
      TailIsSolid(z);
      SkippingTwice(x + z, z[1..]) by { NothingToSkip(z[1..]); }
      SolidIsNotOdd(z[1..], name);
    } else {
      SkippingTwice(x + z, start + z) by { NothingToSkip(start + z); }
      SuffixOfSuffix(start, x, name);
      StartIsNotOdd(start, z, name);
    }
  }

  lemma TailIsSolid(z: string)
    requires IsTail(z)
    ensures IsSolid(z[1..]) && PlainOrEmpty(z[1..])
  {
  }

  /** The first setting that starts in a part of the name, and what is left after it. */
  lemma FirstIsAnother(x: string, z: string, name: string) returns (r: string)
    requires IsTail(z) && IsSuffix(x, name) && ReadSetting(x + z).Some?
    ensures ReadSetting(x + z).value.0.1 == name ==> PlainOrEmpty(name)
    ensures var rest := ReadSetting(x + z).value.1;
            IsSolid(rest) || (rest == r + z && IsSuffix(r, name) && |r| < |x|)
  {
    var w := SettingSplits(x, z);
    TailIsSolid(z);
    hide ReadSetting, ReadValue, PlainOrEmpty;
    if w == "" {
      r := "";
    } else {
      SuffixOfSuffix(w, x, name);
      r := ValueIsAnother(w, z, name);
    }
  }

  lemma {:induction false} StartIsNotOdd(x: string, z: string, name: string)
    requires IsTail(z) && x != "" && StopsAt(x, IsBlank)
    requires IsSuffix(x, name) && ReadSettings(x + z).Some?
    ensures NoneIsOddName(ReadSettings(x + z).value, name)
    decreases |x|, 0
  {
    assert StopsAt(x + z, IsBlank);
    hide *;
    FirstIsRead(x + z);
    var (first, rest) := ReadSetting(x + z).value;
    var r := FirstIsAnother(x, z, name);
    if IsSolid(rest) { SolidIsNotOdd(rest, name); } else { PartIsNotOdd(r, z, name); }
    NoneLater(first, ReadSettings(rest).value, name);
  }

  lemma NameIsNotOdd(name: string, z: string)
    requires IsTail(z) && ReadSettings("dbname=" + name + z).Some?
    ensures NoneIsOddName(ReadSettings("dbname=" + name + z).value, name)
  {
    NameIsRead(name, z);
    SkipInto(name, z);
    TailIsSolid(z);
    hide ReadSettings, ReadValue, SkipSpaces, PlainOrEmpty, IsTail, NoneIsOddName;
    var w := SkipSpaces(name);
    if w == "" {
      TailIsOneValue(z);
      SolidIsNotOdd("", name);
      NoneLater(("dbname", z[1..]), ReadSettings("").value, name);
    } else {
      var (v, rest) := ReadValue(w + z).value;
      SkippedIsSuffix(name);
      var r := ValueIsAnother(w, z, name);
      if IsSolid(rest) { SolidIsNotOdd(rest, name); } else { PartIsNotOdd(r, z, name); }
      NoneLater(("dbname", v), ReadSettings(rest).value, name);
    }
  }

  lemma SkippedIsSuffix(s: string)
    ensures IsSuffix(SkipSpaces(s), s) && StopsAt(SkipSpaces(s), IsBlank)
  {
  }

  // ----- main results -----

  lemma EmptyNameIsMissed(name: string, z: string)
    requires IsTail(z) && name == ""
    ensures ReadSettings("dbname=" + name + z) == Some([("dbname", z[1..])])
  {
    NameIsRead(name, z);
    SkipInto(name, z);
    TailIsOneValue(z);
    var none := z[|z|..];
    NothingIsRead(none);
    var only: seq<Setting> := [];
    assert [("dbname", z[1..])] + only == [("dbname", z[1..])];
    hide ReadSettings, ReadValue;
  }

  lemma OnlyPlainNamesItself(name: string, z: string)
    requires IsTail(z) && ReadSettings("dbname=" + name + z).Some?
    requires Last(ReadSettings("dbname=" + name + z).value, "dbname") == Some(name)
    ensures Plain(name)
  {
    hide ReadSettings, PlainOrEmpty;
    var settings := ReadSettings("dbname=" + name + z).value;
    NameIsNotOdd(name, z);
    LastIsAmong(settings, "dbname");
    if name == "" { EmptyNameIsMissed(name, z); }
  }

  lemma LastTwo(name: string, value: string, second: Setting, key: string)
    ensures Last([(name, value)] + [second], key)
         == if second.0 == key then Some(second.1) else if name == key then Some(value) else None
  {
    LastStep((name, value), [second], key);
    assert [second][1..] == [];
  }

  lemma LastAfterFour(a: Setting, b: Setting, c: Setting, d: Setting, more: seq<Setting>, key: string)
    ensures Last([a] + ([b] + ([c] + ([d] + more))), key)
         == if Last(more, key).Some? then Last(more, key)
            else if d.0 == key then Some(d.1)
            else if c.0 == key then Some(c.1)
            else if b.0 == key then Some(b.1)
            else if a.0 == key then Some(a.1)
            else None
  {
    LastStep(d, more, key);
    LastStep(c, [d] + more, key);
    LastStep(b, [c] + ([d] + more), key);
    LastStep(a, [b] + ([c] + ([d] + more)), key);
  }

  /** The endpoint that settings after the first four leave in place. */
  function EndpointWith(c: PostgresConfig, rest: seq<Setting>): Endpoint {
    var host, port := Last(rest, "host"), Last(rest, "port");
    Endpoint(if host.Some? then host else Some(c.host),
             if port.Some? then port else Some(FormatInt(c.port)),
             Last(rest, "dbname"))
  }

  lemma EndpointAfterHead(c: PostgresConfig, name: string)
    requires Plain(c.host) && Plain(c.user) && Plain(c.password)
    requires ReadSettings("dbname=" + name + Tail(c)).Some?
    ensures EndpointOf(Print(c, name)) == Some(EndpointWith(c, ReadSettings("dbname=" + name + Tail(c)).value))
  {
    hide ReadSettings, Print, Plain, FormatInt, Last;
    HeadIsRead(c, name);
    var rest := ReadSettings("dbname=" + name + Tail(c)).value;
    var host, port := ("host", c.host), ("port", FormatInt(c.port));
    var user, password := ("user", c.user), ("password", c.password);
    KeysDiffer();
    LastAfterFour(host, port, user, password, rest, "host");
    LastAfterFour(host, port, user, password, rest, "port");
    LastAfterFour(host, port, user, password, rest, "dbname");
  }

  lemma KeysDiffer()
    ensures "host" != "port" && "host" != "user" && "port" != "user"
    ensures "host" != "sslmode" && "port" != "sslmode" && "dbname" != "sslmode"
    ensures "host" != "password" && "port" != "password" && "dbname" != "password"
    ensures "dbname" != "host" && "dbname" != "port" && "dbname" != "user"
  {
    assert "host"[0] != "port"[0] && "host"[0] != "user"[0] && "port"[0] != "user"[0];
  }

  lemma UnreadableEndpoint(c: PostgresConfig, name: string)
    requires Plain(c.host) && Plain(c.user) && Plain(c.password)
    ensures ReadSettings("dbname=" + name + Tail(c)).None? ==> EndpointOf(Print(c, name)).None?
  {
    HeadIsRead(c, name);
    hide ReadSettings, Print, Plain;
  }

  /**
   A connection for any name at all: if the name is one value it leads to that database on the
   configured server, and it leads to the database of exactly that name only if the name is plain.
   */
  lemma NamedDatabaseIsReached(c: PostgresConfig, name: string)
    requires Connectable(c, c.database)
    ensures IsOneValue(name) ==>
              EndpointOf(Print(c, name)) == Some(Endpoint(Some(c.host), Some(FormatInt(c.port)), Some(TheValue(name))))
    ensures Plain(name) <==>
              EndpointOf(Print(c, name)) == Some(Endpoint(Some(c.host), Some(FormatInt(c.port)), Some(name)))
  {
    hide ReadSettings, Print, Plain, FormatInt, IsTail, IsOneValue, TheValue, EndpointOf, Last;
    var z, last := Tail(c), ("sslmode", c.sslmode);
    TailIsRead(c);
    if Plain(name) { PlainIsOneValue(name); }
    if IsOneValue(name) {
      OneValueIsRead(name, z, last);
      EndpointAfterHead(c, name);
      KeysDiffer();
      LastTwo("dbname", TheValue(name), last, "host");
      LastTwo("dbname", TheValue(name), last, "port");
      LastTwo("dbname", TheValue(name), last, "dbname");
    }
    if EndpointOf(Print(c, name)) == Some(Endpoint(Some(c.host), Some(FormatInt(c.port)), Some(name))) {
      UnreadableEndpoint(c, name);
      EndpointAfterHead(c, name);
      OnlyPlainNamesItself(name, z);
    }
  }

  lemma PlainIsOneValue(name: string)
    requires Plain(name)
    ensures IsOneValue(name) && TheValue(name) == name
  {
    hide ReadUnquoted, SkipSpaces;
    assert name[0] in name;
    NothingToSkip(name);
    var end := name[..0];
    NothingToSkip(end);
    UnquotedRoundTrip(name, end);
    assert name + end == name;
  }

  lemma SettingInName(base: string, key: string, value: string, more: string, tail: Setting)
    requires Plain(base) && Plain(value) && IsKey(key) && ReadSettings(more) == Some([tail])
    ensures ReadSettings("dbname=" + (base + " " + (key + "=" + value)) + (" " + more))
         == Some([("dbname", base)] + ([(key, value)] + [tail]))
  {
    hide ReadSettings, Plain;
    var k := "dbname";
    var inner := key + "=" + value + " " + more;
    SettingThenMore(key, value, more);
    SettingThenMore(k, base, inner);
    assert "dbname=" + (base + " " + (key + "=" + value)) + (" " + more) == k + "=" + base + " " + inner;
  }

  /** A name can carry a setting of its own, which then takes the place of the configured one. */
  lemma NameCanSetTheHost(c: PostgresConfig, base: string, host: string)
    requires Connectable(c, c.database) && Plain(base) && Plain(host)
    ensures var name := base + " " + ("host" + "=" + host);
            && !IsOneValue(name)
            && EndpointOf(Print(c, name)) == Some(Endpoint(Some(host), Some(FormatInt(c.port)), Some(base)))
  {
    hide ReadSettings, Print, Plain, FormatInt, IsTail, Last, IsOneValue, EndpointOf;
    TailIsRead(c);
    var k, h, z, last := "sslmode", "host", Tail(c), ("sslmode", c.sslmode);
    var more := k + "=" + c.sslmode;
    assert z == " " + more;
    SingleIsRead(k, c.sslmode);
    SettingInName(base, h, host, more, last);
    var name := base + " " + (h + "=" + host);
    EndpointAfterHead(c, name);
    if IsOneValue(name) { OneValueIsRead(name, z, last); }
    var rest := [("dbname", base)] + ([("host", host)] + [last]);
    assert |rest| == 3;
    KeysDiffer();
    LastStep(("dbname", base), [("host", host)] + [last], "host");
    LastStep(("dbname", base), [("host", host)] + [last], "port");
    LastStep(("dbname", base), [("host", host)] + [last], "dbname");
    LastTwo("host", host, last, "host");
    LastTwo("host", host, last, "port");
    LastTwo("host", host, last, "dbname");
  }

  // ----- the other settings, where the last one counts -----

  /** The settings that count, apart from the database, are the configured ones. */
  predicate StaysConfigured(settings: seq<Setting>, c: PostgresConfig) {
    && Last(settings, "host") == Some(c.host)
    && Last(settings, "port") == Some(FormatInt(c.port))
    && Last(settings, "user") == Some(c.user)
    && Last(settings, "password") == Some(c.password)
    && Last(settings, "sslmode") == Some(c.sslmode)
  }

  predicate AbsentOr(v: Option<string>, configured: string) { v.Some? ==> v.value == configured }

  /** None of the four settings before the name is set anew to something else. */
  predicate OnlyRepeats(settings: seq<Setting>, c: PostgresConfig) {
    && AbsentOr(Last(settings, "host"), c.host)
    && AbsentOr(Last(settings, "port"), FormatInt(c.port))
    && AbsentOr(Last(settings, "user"), c.user)
    && AbsentOr(Last(settings, "password"), c.password)
  }

  lemma AllKeysDiffer()
    ensures "host" != "port" && "host" != "user" && "host" != "password" && "host" != "sslmode"
    ensures "port" != "user" && "port" != "password" && "port" != "sslmode"
    ensures "user" != "password" && "user" != "sslmode" && "password" != "sslmode"
    ensures "dbname" != "host" && "dbname" != "port" && "dbname" != "user"
    ensures "dbname" != "password" && "dbname" != "sslmode"
  {
    assert "host"[0] != "port"[0] && "host"[0] != "user"[0] && "port"[0] != "user"[0];
  }

  /**
   For any name at all: the configured settings stay in force exactly when the text from the name on can
   be read, sets none of the first four to anything else, and leaves the configured sslmode in force.
   */
  lemma ConfiguredSettingsStay(c: PostgresConfig, name: string)
    requires Connectable(c, c.database)
    ensures var r, rest := ReadSettings(Print(c, name)), ReadSettings("dbname=" + name + Tail(c));
            && (r.Some? <==> rest.Some?)
            && (r.Some? ==> (StaysConfigured(r.value, c) <==>
                               OnlyRepeats(rest.value, c) && Last(rest.value, "sslmode") == Some(c.sslmode)))
  {
    hide ReadSettings, Print, Plain, FormatInt, Last;
    HeadIsRead(c, name);
    var rest := ReadSettings("dbname=" + name + Tail(c));
    if rest.Some? {
      var host, port := ("host", c.host), ("port", FormatInt(c.port));
      var user, password := ("user", c.user), ("password", c.password);
      AllKeysDiffer();
      LastAfterFour(host, port, user, password, rest.value, "host");
      LastAfterFour(host, port, user, password, rest.value, "port");
      LastAfterFour(host, port, user, password, rest.value, "user");
      LastAfterFour(host, port, user, password, rest.value, "password");
      LastAfterFour(host, port, user, password, rest.value, "sslmode");
    }
  }

  // For most names the name alone decides.

  /** The text ends in a value, so that what follows it is read as settings of their own. */
  predicate EndsInValue(t: string) { t != "" && !IsBlank(t[|t| - 1]) && t[|t| - 1] != '=' }

  lemma KeyIsProper(x: string)
    requires ReadKey(x).Some?
    ensures Span(x, IsKeyPart) < |x|
  {
  }

  lemma SplitLeft(x: string, z: string, n: nat)
    requires n <= |x|
    ensures (x + z)[..n] == x[..n] && (x + z)[n..] == x[n..] + z
  {
  }

  lemma KeyExtends(x: string, z: string)
    requires IsTail(z) && ReadKey(x).Some?
    ensures ReadKey(x + z) == Some((ReadKey(x).value.0, ReadKey(x).value.1 + z))
  {
    hide Span, IsKeyPart, IsTail, SkipSpaces;
    var n := Span(x, IsKeyPart);
    var a := SkipSpaces(x[n..]);
    assert n < |x| by { KeyIsProper(x); }
    SpanExtends(x, z, IsKeyPart);
    SplitLeft(x, z, n);
    SkipInto(x[n..], z);
    SplitLeft(a, z, 1);
  }

  lemma KeyText(x: string)
    requires ReadKey(x).Some?
    ensures IsSuffix(ReadKey(x).value.1, x) && |ReadKey(x).value.1| < |x|
    ensures x[|x| - |ReadKey(x).value.1| - 1] == '='
  {
    var n := Span(x, IsKeyPart);
    var a := SkipSpaces(x[n..]);
    assert IsSuffix(a, x) && a[0] == '=' by { SkippedIsSuffix(x[n..]); SuffixOfSuffix(a, x[n..], x); }
    assert a[1..] == x[|x| - |a| + 1..];
  }

  lemma SuffixEndsAlike(x: string, t: string)
    requires IsSuffix(x, t) && x != "" && EndsInValue(t)
    ensures EndsInValue(x)
  {
    assert x[|x| - 1] == t[|t| - 1];
  }

  lemma ValueIsThere(x: string)
    requires ReadKey(x).Some? && EndsInValue(x)
    ensures SkipSpaces(ReadKey(x).value.1) != ""
  {
    KeyText(x);
    var text := ReadKey(x).value.1;
    hide ReadKey, SkipSpaces;
    assert text != "";
    SuffixEndsAlike(text, x);
    NotAllSpaces(text);
  }

  /** A setting that ends in a value reads as before, with the rest of x and z still to be read. */
  lemma SettingExtends(x: string, z: string)
    requires IsTail(z) && ReadSetting(x).Some? && EndsInValue(x)
    ensures ReadSetting(x + z).Some? && ReadSetting(x + z).value.0 == ReadSetting(x).value.0
    ensures var alone, rest := ReadSetting(x).value.1, ReadSetting(x + z).value.1;
            && (rest == alone + z || (alone == "" && rest == z[1..]))
            && |alone| < |x| && (alone != "" ==> EndsInValue(alone))
  {
    hide ReadKey, ReadValue, SkipSpaces, IsTail;
    KeyExtends(x, z);
    KeyText(x);
    ValueIsThere(x);
    var text := ReadKey(x).value.1;
    SkipInto(text, z);
    SkippedIsSuffix(text);
    var w := SkipSpaces(text);
    ValueExtends(w, z);
    ValueRest(w);
    var alone := ReadValue(w).value.1;
    SuffixOfSuffix(w, text, x);
    SuffixOfSuffix(alone, w, x);
    if alone != "" { SuffixEndsAlike(alone, x); }
  }

  lemma StartOf(t: string, z: string) returns (x: string)
    requires IsTail(z) && EndsInValue(t)
    ensures x != "" && |x| <= |t| && EndsInValue(x) && StopsAt(x, IsBlank) && StopsAt(x + z, IsBlank)
    ensures ReadSettings(t) == ReadSettings(x) && ReadSettings(t + z) == ReadSettings(x + z)
  {
    hide ReadSettings, IsTail;
    NotAllSpaces(t);
    SkipInto(t, z);
    SkippedIsSuffix(t);
    x := SkipSpaces(t);
    SuffixEndsAlike(x, t);
    NothingToSkip(x);
    NothingToSkip(x + z);
    SkippingTwice(t, x);
    SkippingTwice(t + z, x + z);
  }

  lemma {:induction false} SettingsExtend(t: string, z: string, last: Setting)
    requires IsTail(z) && ReadSettings(z) == Some([last])
    requires ReadSettings(t).Some? && EndsInValue(t)
    ensures ReadSettings(t + z) == Some(ReadSettings(t).value + [last])
    decreases |t|
  {
    hide *;
    var x := StartOf(t, z);
    FirstIsRead(x);
    SettingExtends(x, z);
    var (first, alone) := ReadSetting(x).value;
    var rest := ReadSetting(x + z).value.1;
    ReadingStep(x + z, first, rest);
    var more := ReadSettings(alone).value;
    if alone == "" {
      EndIsRead(alone, rest, z);
    } else {
      SettingsExtend(alone, z, last);
    }
    Prepended(first, more, last);
  }

  lemma EndIsRead(alone: string, rest: string, z: string)
    requires IsTail(z) && alone == "" && (rest == alone + z || rest == z[1..])
    ensures ReadSettings(alone) == Some([]) && ReadSettings(rest) == ReadSettings(z)
  {
    hide ReadSettings;
    NothingToSkip(alone);
    NothingIsRead(alone);
    TailIsReadAlike(alone, rest, z);
  }

  lemma Prepended(first: Setting, more: seq<Setting>, last: Setting)
    ensures Prepend(first, Some(more + [last])) == Some(([first] + more) + [last])
    ensures more == [] ==> more + [last] == [last]
  {
    assert [first] + (more + [last]) == ([first] + more) + [last];
  }

  /**
   For a name that ends in a value and can be read by itself, the name alone decides: the configured
   settings stay in force exactly when it sets none of the first four to anything else. The database is
   the last one it names.
   */
  lemma NameDecidesSettings(c: PostgresConfig, name: string)
    requires Connectable(c, c.database)
    requires EndsInValue("dbname=" + name) && ReadSettings("dbname=" + name).Some?
    ensures var own, r := ReadSettings("dbname=" + name).value, ReadSettings(Print(c, name));
            && r.Some?
            && (StaysConfigured(r.value, c) <==> OnlyRepeats(own, c))
            && EndpointOf(Print(c, name)).value.database == Last(own, "dbname")
  {
    hide ReadSettings, Print, Plain, FormatInt, Last, IsTail, EndsInValue;
    var own, last := ReadSettings("dbname=" + name).value, ("sslmode", c.sslmode);
    TailIsRead(c);
    SettingsExtend("dbname=" + name, Tail(c), last);
    ConfiguredSettingsStay(c, name);
    EndpointAfterHead(c, name);
    AllKeysDiffer();
    LastAppended(own, last, "host");
    LastAppended(own, last, "port");
    LastAppended(own, last, "user");
    LastAppended(own, last, "password");
    LastAppended(own, last, "dbname");
    LastAppended(own, last, "sslmode");
  }

  lemma {:induction false} LastAppended(settings: seq<Setting>, last: Setting, key: string)
    ensures Last(settings + [last], key) == if last.0 == key then Some(last.1) else Last(settings, key)
  {
    if settings == [] {
      assert settings + [last] == [last] && [last][1..] == [];
    } else {
      assert (settings + [last])[1..] == settings[1..] + [last];
      LastAppended(settings[1..], last, key);
    }
  }

  /** More names keep the settings than are one value: sslmode, for one, can be repeated. */
  lemma SettingsCanBeRepeated(c: PostgresConfig, base: string)
    requires Connectable(c, c.database) && Plain(base) && Plain(c.sslmode)
    ensures var name := base + " " + ("sslmode" + "=" + c.sslmode);
            && !IsOneValue(name)
            && ReadSettings(Print(c, name)).Some? && StaysConfigured(ReadSettings(Print(c, name)).value, c)
            && EndpointOf(Print(c, name)) == Some(Endpoint(Some(c.host), Some(FormatInt(c.port)), Some(base)))
  {
    hide ReadSettings, Print, Plain, FormatInt, IsTail, Last, IsOneValue, EndpointOf;
    TailIsRead(c);
    var k, z, last := "sslmode", Tail(c), ("sslmode", c.sslmode);
    var more := k + "=" + c.sslmode;
    assert z == " " + more;
    SingleIsRead(k, c.sslmode);
    SettingInName(base, k, c.sslmode, more, last);
    var name := base + " " + (k + "=" + c.sslmode);
    EndpointAfterHead(c, name);
    ConfiguredSettingsStay(c, name);
    if IsOneValue(name) { OneValueIsRead(name, z, last); }
    var first, rest := ("dbname", base), [("dbname", base)] + ([last] + [last]);
    assert |rest| == 3;
    AllKeysDiffer();
    RepeatedLast(first, last, "host");
    RepeatedLast(first, last, "port");
    RepeatedLast(first, last, "user");
    RepeatedLast(first, last, "password");
    RepeatedLast(first, last, "dbname");
    RepeatedLast(first, last, "sslmode");
  }

  lemma RepeatedLast(first: Setting, last: Setting, key: string)
    ensures Last([first] + ([last] + [last]), key)
         == if last.0 == key then Some(last.1) else if first.0 == key then Some(first.1) else None
  {
    LastStep(first, [last] + [last], key);
    LastTwo(last.0, last.1, last, key);
  }
}
