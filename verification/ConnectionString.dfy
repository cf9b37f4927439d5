/**
 The connection strings of internal/db/database.go, and a reader for the keyword/value format
 (section 34.1.1.1 of the PostgreSQL 16 documentation): values may be quoted with single quotes,
 a backslash escapes, and white space ends an unquoted value.
 */
module ConnectionString {
  import opened Text
  import opened Wrappers

  datatype PostgresConfig = PostgresConfig(
    enabled: bool, host: string, port: int, user: string, password: string, database: string, sslmode: string)

  type Setting = (string, string)

  // ----- the printer -----

  /** The Sprintf of initPostgres and of GetPostgresConnection, which differ only in the database. */
  function Print(c: PostgresConfig, dbname: string): string {
    "host=" + c.host
    + (" port=" + FormatInt(c.port)
       + (" user=" + c.user
          + (" password=" + c.password
             + (" dbname=" + dbname
                + (" sslmode=" + c.sslmode)))))
  }

  function Settings(c: PostgresConfig, dbname: string): seq<Setting> {
    [("host", c.host), ("port", FormatInt(c.port)), ("user", c.user), ("password", c.password),
     ("dbname", dbname), ("sslmode", c.sslmode)]
  }

  // ----- the reader -----

  predicate IsKeyPart(c: char) { c != '=' && !IsBlank(c) }

  function SkipSpaces(s: string): string { s[Span(s, IsBlank)..] }

  function Extend(c: char, r: Option<(string, string)>): Option<(string, string)> {
    match r
    case None => None
    case Some((value, rest)) => Some(([c] + value, rest))
  }

  /** An unquoted value and what follows the white space that ends it. */
  function ReadUnquoted(s: string): (r: Option<(string, string)>)
    ensures r.Some? ==> |r.value.1| <= |s|
  {
    if s == "" then Some(("", ""))
    else if IsBlank(s[0]) then Some(("", s[1..]))
    else if s[0] != '\\' then Extend(s[0], ReadUnquoted(s[1..]))
    else if |s| == 1 then None
    else Extend(s[1], ReadUnquoted(s[2..]))
  }

  /** A quoted value whose opening quote has been consumed. */
  function ReadQuoted(s: string): (r: Option<(string, string)>)
    ensures r.Some? ==> |r.value.1| < |s| && |r.value.0| + |r.value.1| + 1 <= |s|
  {
    if s == "" then None
    else if s[0] == '\'' then Some(("", s[1..]))
    else if s[0] != '\\' then Extend(s[0], ReadQuoted(s[1..]))
    else if |s| == 1 then None
    else Extend(s[1], ReadQuoted(s[2..]))
  }

  function ReadValue(s: string): (r: Option<(string, string)>)
    ensures r.Some? ==> |r.value.1| <= |s|
  {
    if s != "" && s[0] == '\'' then ReadQuoted(s[1..]) else ReadUnquoted(s)
  }

  /** A keyword, and what follows its equals sign. */
  function ReadKey(s: string): (r: Option<(string, string)>)
    ensures r.Some? ==> |r.value.1| < |s|
  {
    var n := Span(s, IsKeyPart);
    var afterKey := SkipSpaces(s[n..]);
    if n == 0 || afterKey == "" || afterKey[0] != '=' then None else Some((s[..n], afterKey[1..]))
  }

  /** One `keyword = value` and what follows it. */
  function ReadSetting(s: string): (r: Option<(Setting, string)>)
    ensures r.Some? ==> |r.value.1| < |s|
  {
    match ReadKey(s)
    case None => None
    case Some((key, text)) =>
      match ReadValue(SkipSpaces(text))
      case None => None
      case Some((value, rest)) => Some(((key, value), rest))
  }

  function ReadSettings(s: string): Option<seq<Setting>>
    decreases |s|
  {
    var start := SkipSpaces(s);
    if start == "" then Some([])
    else match ReadSetting(start)
      case None => None
      case Some((setting, rest)) => Prepend(setting, ReadSettings(rest))
  }

  function Prepend(setting: Setting, r: Option<seq<Setting>>): Option<seq<Setting>> {
    match r
    case None => None
    case Some(more) => Some([setting] + more)
  }

  // ----- which values survive -----

  predicate HasNoSpaceOrBackslash(v: string) { forall c | c in v :: !IsBlank(c) && c != '\\' }

  /** Read back unchanged as an unquoted value that is not the last one. */
  predicate Plain(v: string) { v != "" && PlainOrEmpty(v) }

  predicate PlainOrEmpty(v: string) { HasNoSpaceOrBackslash(v) && (v != "" ==> v[0] != '\'') }

  predicate IsKey(k: string) { k != "" && forall i | 0 <= i < |k| :: IsKeyPart(k[i]) }

  function PrintSettings(settings: seq<Setting>): string {
    if |settings| == 0 then ""
    else if |settings| == 1 then settings[0].0 + "=" + settings[0].1
    else settings[0].0 + "=" + settings[0].1 + " " + PrintSettings(settings[1..])
  }

  predicate Readable(settings: seq<Setting>) {
    settings != [] ==>
      && (forall i | 0 <= i < |settings| - 1 :: Plain(settings[i].1))
      && PlainOrEmpty(settings[|settings| - 1].1)
  }

  // Reading costs at least the length of what is read; at equality the text is the plain printing.

  function Weight(settings: seq<Setting>): nat {
    if settings == [] then 0 else |settings[0].0| + |settings[0].1| + 2 + Weight(settings[1..])
  }

  lemma {:induction false} WeightOfPrint(settings: seq<Setting>)
    requires settings != []
    ensures |PrintSettings(settings)| + 1 == Weight(settings)
  {
    if |settings| > 1 {
      WeightOfPrint(settings[1..]);
    } else {
      assert Weight(settings[1..]) == 0;
    }
  }

  lemma {:induction false} UnquotedCost(s: string)
    requires ReadUnquoted(s).Some?
    ensures var (v, rest) := ReadUnquoted(s).value;
            && |v| + (if rest == "" then 0 else |rest| + 1) <= |s|
            && (|v| + (if rest == "" then 0 else |rest| + 1) == |s| ==>
                  HasNoSpaceOrBackslash(v) && (v != "" ==> v[0] == s[0]))
  {
    if s != "" && !IsBlank(s[0]) {
      if s[0] == '\\' {
        UnquotedCost(s[2..]);
      } else {
        UnquotedCost(s[1..]);
        var tail := ReadUnquoted(s[1..]).value.0;
        assert forall c :: c in [s[0]] + tail <==> c == s[0] || c in tail;
      }
    }
  }

  lemma ValueCost(s: string)
    requires ReadValue(s).Some? && StopsAt(s, IsBlank)
    ensures var (v, rest) := ReadValue(s).value;
            && |v| + (if rest == "" then 0 else |rest| + 1) <= |s|
            && (|v| + (if rest == "" then 0 else |rest| + 1) == |s| ==>
                  PlainOrEmpty(v) && (rest != "" ==> v != ""))
  {
    if s == "" || s[0] != '\'' {
      UnquotedCost(s);
    }
  }

  lemma SkipCost(s: string)
    ensures |SkipSpaces(s)| <= |s| && StopsAt(SkipSpaces(s), IsBlank)
  {
  }

  lemma KeyCost(s: string)
    requires ReadKey(s).Some?
    ensures |ReadKey(s).value.0| + 1 + |ReadKey(s).value.1| <= |s|
  {
    SkipCost(s[Span(s, IsKeyPart)..]);
  }

  lemma SettingCost(s: string)
    requires ReadSetting(s).Some?
    ensures var ((k, v), rest) := ReadSetting(s).value;
            && |k| + 1 + |v| + (if rest == "" then 0 else |rest| + 1) <= |s|
            && (|k| + 1 + |v| + (if rest == "" then 0 else |rest| + 1) == |s| ==>
                  PlainOrEmpty(v) && (rest != "" ==> v != ""))
  {
    hide ReadKey, ReadValue;
    KeyCost(s);
    var text := ReadKey(s).value.1;
    SkipCost(text);
    ValueCost(SkipSpaces(text));
  }

  lemma {:induction false} ReadingCost(s: string)
    requires ReadSettings(s).Some?
    ensures Weight(ReadSettings(s).value) <= |s| + 1
    ensures Weight(ReadSettings(s).value) == |s| + 1 ==> Readable(ReadSettings(s).value)
    decreases |s|
  {
    hide ReadSetting, PlainOrEmpty, Readable, Weight;
    var start := SkipSpaces(s);
    SkipCost(s);
    if start == "" {
      NoWeight([]);
    } else {
      var (setting, rest) := ReadSetting(start).value;
      SettingCost(start);
      ReadingCost(rest);
      if rest == "" { NothingIsRead(rest); }
      MoreWeight(setting, ReadSettings(rest).value, rest);
    }
  }

  lemma NoWeight(none: seq<Setting>)
    requires none == []
    ensures Weight(none) == 0 && Readable(none)
  {
  }

  lemma MoreWeight(setting: Setting, more: seq<Setting>, rest: string)
    requires Weight(more) <= |rest| + 1
    ensures Weight([setting] + more) == |setting.0| + |setting.1| + 2 + Weight(more)
    ensures more == [] ==> Weight(more) == 0
    ensures more == [] && PlainOrEmpty(setting.1) ==> Readable([setting] + more)
    ensures more != [] && Readable(more) && Plain(setting.1) ==> Readable([setting] + more)
  {
    hide Plain, PlainOrEmpty;
    var all := [setting] + more;
    assert all[1..] == more;
    if more != [] && Readable(more) && Plain(setting.1) {
      forall i | 0 <= i < |all| - 1 ensures Plain(all[i].1) {
        if i > 0 { assert all[i] == more[i - 1]; }
      }
      assert all[|all| - 1] == more[|more| - 1];
    }
  }

  // ----- plain values are read back -----

  lemma {:induction false} UnquotedRoundTrip(v: string, end: string)
    requires HasNoSpaceOrBackslash(v)
    requires end == "" || IsBlank(end[0])
    ensures ReadUnquoted(v + end) == Some((v, if end == "" then "" else end[1..]))
  {
    if v == "" {
      assert v + end == end;
    } else {
      assert (v + end)[1..] == v[1..] + end;
      UnquotedRoundTrip(v[1..], end);
      assert v == [v[0]] + v[1..];
    }
  }

  lemma NothingToSkip(s: string)
    requires StopsAt(s, IsBlank)
    ensures SkipSpaces(s) == s
  {
  }

  /** A keyword is read up to its equals sign, whatever follows. */
  lemma KeySlices(k: string, afterKey: string)
    ensures (k + afterKey)[..|k|] == k && (k + afterKey)[|k|..] == afterKey
  {
  }

  lemma KeyIsRead(k: string, text: string)
    requires IsKey(k)
    ensures ReadKey(k + "=" + text) == Some((k, text))
  {
    hide Span, SkipSpaces;
    var afterKey := "=" + text;
    assert k + "=" + text == k + afterKey;
    assert StopsAt(afterKey, IsKeyPart) && StopsAt(afterKey, IsBlank) && afterKey[1..] == text;
    SpanOfPrefix(k, afterKey, IsKeyPart);
    KeySlices(k, afterKey);
    NothingToSkip(afterKey);
    hide IsKeyPart, IsBlank, IsKey;
  }

  lemma ValueRoundTrip(v: string, end: string)
    requires PlainOrEmpty(v) && (v == "" ==> end == "")
    requires end == "" || IsBlank(end[0])
    ensures ReadValue(SkipSpaces(v + end)) == Some((v, if end == "" then "" else end[1..]))
  {
    hide ReadUnquoted, SkipSpaces;
    assert v != "" ==> (v + end)[0] == v[0] && v[0] in v;
    NothingToSkip(v + end);
    UnquotedRoundTrip(v, end);
  }

  lemma SettingRoundTrip(k: string, v: string, end: string)
    requires IsKey(k) && PlainOrEmpty(v) && (v == "" ==> end == "")
    requires end == "" || IsBlank(end[0])
    ensures ReadSetting(k + "=" + v + end) == Some(((k, v), if end == "" then "" else end[1..]))
  {
    hide ReadKey, ReadValue, PlainOrEmpty, IsKey;
    KeyIsRead(k, v + end);
    ValueRoundTrip(v, end);
    assert k + "=" + v + end == k + "=" + (v + end);
  }

  lemma ReadingStep(s: string, setting: Setting, rest: string)
    requires s != "" && StopsAt(s, IsBlank)
    requires ReadSetting(s) == Some((setting, rest))
    ensures ReadSettings(s) == Prepend(setting, ReadSettings(rest))
  {
    hide ReadSetting;
    NothingToSkip(s);
  }

  /** A plain setting is read first, whatever text follows. */
  lemma SettingThenMore(k: string, v: string, more: string)
    requires IsKey(k) && Plain(v)
    ensures ReadSettings(k + "=" + v + " " + more) == Prepend((k, v), ReadSettings(more))
  {
    var end := " " + more;
    SettingRoundTrip(k, v, end);
    assert end[1..] == more;
    var s := k + "=" + v + " " + more;
    assert s == k + "=" + v + end;
    assert s[0] == k[0] && !IsBlank(k[0]);
    hide *;
    ReadingStep(s, (k, v), more);
  }

  lemma {:induction false} PlainIsRead(settings: seq<Setting>)
    requires forall i | 0 <= i < |settings| :: IsKey(settings[i].0)
    requires Readable(settings)
    ensures ReadSettings(PrintSettings(settings)) == Some(settings)
  {
    if |settings| == 0 {
      assert SkipSpaces("") == "";
    } else {
      var (k, v) := settings[0];
      var more := settings[1..];
      PlainIsRead(more);
      assert settings == [(k, v)] + more;
      if more == [] {
        SingleIsRead(k, v);
      } else {
        SettingThenMore(k, v, PrintSettings(more));
      }
    }
  }

  lemma NothingIsRead(s: string)
    requires SkipSpaces(s) == ""
    ensures ReadSettings(s) == Some([])
  {
    hide ReadSetting;
  }

  lemma SingleIsRead(k: string, v: string)
    requires IsKey(k) && PlainOrEmpty(v)
    ensures ReadSettings(k + "=" + v) == Some([(k, v)])
  {
    var s := k + "=" + v;
    var end := s[|s|..];
    SettingRoundTrip(k, v, end);
    assert s == k + "=" + v + end;
    assert s[0] == k[0] && !IsBlank(k[0]);
    NothingIsRead(end) by { NothingToSkip(end); }
    var none: seq<Setting> := [];
    assert [(k, v)] + none == [(k, v)];
    assert Prepend((k, v), Some(none)) == Some([(k, v)]);
    hide *;
    ReadingStep(s, (k, v), end);
  }

  /** A printed list of settings is read back exactly when every value is plain (the last may be empty). */
  lemma PrintedSettingsAreRead(settings: seq<Setting>)
    requires settings != []
    requires forall i | 0 <= i < |settings| :: IsKey(settings[i].0)
    ensures ReadSettings(PrintSettings(settings)) == Some(settings) <==> Readable(settings)
  {
    if Readable(settings) {
      PlainIsRead(settings);
    }
    if ReadSettings(PrintSettings(settings)) == Some(settings) {
      WeightOfPrint(settings);
      ReadingCost(PrintSettings(settings));
    }
  }

  // ----- the router's connection strings -----

  /** What a caller can check before connecting. */
  predicate Connectable(c: PostgresConfig, dbname: string) {
    Plain(c.host) && Plain(c.user) && Plain(c.password) && Plain(dbname) && PlainOrEmpty(c.sslmode)
  }

  lemma LastSetting(k: string, v: string, text: string)
    requires text == " " + k + "=" + v
    ensures " " + PrintSettings([(k, v)]) == text
  {
  }

  lemma FirstSetting(k: string, v: string, more: seq<Setting>, text: string)
    requires more != [] && " " + PrintSettings(more) == text
    ensures PrintSettings([(k, v)] + more) == k + "=" + v + text
  {
    hide PrintSettings;
    var tail := PrintSettings(more);
    PrintStep(k, v, more);
    assert k + "=" + v + " " + tail == k + "=" + v + (" " + tail);
  }

  lemma PrintStep(k: string, v: string, more: seq<Setting>)
    requires more != []
    ensures PrintSettings([(k, v)] + more) == k + "=" + v + " " + PrintSettings(more)
  {
    assert ([(k, v)] + more)[1..] == more;
  }

  lemma NextSetting(key: string, k: string, v: string, more: seq<Setting>, text: string)
    requires more != [] && " " + PrintSettings(more) == text
    requires key == " " + k + "="
    ensures " " + PrintSettings([(k, v)] + more) == key + v + text
  {
    hide PrintSettings;
    FirstSetting(k, v, more, text);
    assert " " + (k + "=" + v + text) == " " + k + "=" + v + text;
  }

  lemma PrintIsPrintSettings(c: PostgresConfig, dbname: string)
    ensures Print(c, dbname) == PrintSettings(Settings(c, dbname))
  {
    hide PrintSettings, FormatInt;
    var port := FormatInt(c.port);
    var s5 := [("sslmode", c.sslmode)];
    var t5 := " sslmode=" + c.sslmode;
    LastSetting("sslmode", c.sslmode, t5);
    var s4, t4 := [("dbname", dbname)] + s5, " dbname=" + dbname + t5;
    NextSetting(" dbname=", "dbname", dbname, s5, t5);
    var s3, t3 := [("password", c.password)] + s4, " password=" + c.password + t4;
    NextSetting(" password=", "password", c.password, s4, t4);
    var s2, t2 := [("user", c.user)] + s3, " user=" + c.user + t3;
    NextSetting(" user=", "user", c.user, s3, t3);
    var s1, t1 := [("port", port)] + s2, " port=" + port + t2;
    NextSetting(" port=", "port", port, s2, t2);
    FirstSetting("host", c.host, s1, t1);
    assert "host" + "=" == "host=";
    assert [("host", c.host)] + s1 == Settings(c, dbname);
  }

  lemma PortIsPlain(n: int)
    ensures Plain(FormatInt(n))
  {
  }

  lemma ReadableWhenConnectable(c: PostgresConfig, dbname: string)
    ensures Readable(Settings(c, dbname)) <==> Connectable(c, dbname)
  {
    PortIsPlain(c.port);
    var all := Settings(c, dbname);
    hide FormatInt, HasNoSpaceOrBackslash, PlainOrEmpty;
    if Readable(all) {
      assert Plain(all[0].1) && Plain(all[2].1) && Plain(all[3].1) && Plain(all[4].1);
    }
  }

  /** The reader recovers all six fields exactly when each is plain; sslmode alone may be empty. */
  lemma ConnectionStringRoundTrip(c: PostgresConfig, dbname: string)
    ensures ReadSettings(Print(c, dbname)) == Some(Settings(c, dbname)) <==> Connectable(c, dbname)
  {
    hide ReadSettings, Readable, Print, PrintSettings, FormatInt;
    PrintIsPrintSettings(c, dbname);
    ReadableWhenConnectable(c, dbname);
    PrintedSettingsAreRead(Settings(c, dbname));
  }

  // ----- any database name at all -----

  /** The name is one value, quoted and escaped in any way, with at most white space around it. */
  predicate IsOneValue(name: string) {
    var start := SkipSpaces(name);
    && start != ""
    && match ReadValue(start)
       case None => false
       case Some((_, rest)) => SkipSpaces(rest) == ""
  }

  function TheValue(name: string): string
    requires IsOneValue(name)
  {
    ReadValue(SkipSpaces(name)).value.0
  }

  /** What is printed after the name: one space, and then neither white space nor a backslash. */
  predicate IsTail(z: string) {
    && |z| > 1 && z[0] == ' ' && z[1] != '\'' && z[1] != '='
    && forall i | 0 < i < |z| :: !IsBlank(z[i]) && z[i] != '\\'
  }

  lemma SkipInto(x: string, z: string)
    requires IsTail(z)
    ensures SkipSpaces(x + z) == if SkipSpaces(x) == "" then z[1..] else SkipSpaces(x) + z
  {
    var n := Span(x, IsBlank);
    if n == |x| {
      assert x + z == (x + z[..1]) + z[1..];
      SpanOfPrefix(x + z[..1], z[1..], IsBlank);
    } else {
      assert x + z == x[..n] + (x[n..] + z);
      SpanOfPrefix(x[..n], x[n..] + z, IsBlank);
    }
  }

  lemma SkippingTwice(a: string, b: string)
    requires SkipSpaces(a) == SkipSpaces(b)
    ensures ReadSettings(a) == ReadSettings(b)
  {
    hide SkipSpaces, ReadSetting;
  }

  lemma NotAllSpaces(s: string)
    requires s != "" && !IsBlank(s[|s| - 1])
    ensures SkipSpaces(s) != ""
  {
  }

  // Reading a value from w + z: it ends within w, or crosses into z.

  /** The value that w alone has, with the rest of w and z still to be read. */
  predicate EndsBefore(alone: Option<(string, string)>, v: string, rest: string, z: string)
    requires z != ""
  {
    && alone.Some? && alone.value.0 == v
    && (rest == alone.value.1 + z || (alone.value.1 == "" && rest == z[1..]))
  }

  function Specials(s: string): nat {
    if s == "" then 0 else (if s[0] == '\'' || s[0] == '\\' then 1 else 0) + Specials(s[1..])
  }

  /** The value takes all of z up to its rest, and its text in w has more quotes and backslashes, or ends in one. */
  predicate Crosses(w: string, z: string, v: string, rest: string)
    requires z != ""
  {
    && |rest| + 1 < |z| <= |v| + |rest| + 1
    && rest == z[|z| - |rest|..]
    && w != ""
    && ((w[|w| - 1] == '\\' && v != "" && v[|v| - 1] == z[|z| - 1]) || Specials(v) < Specials(w))
  }

  lemma UnquotedUnfolds(t: string)
    requires t != ""
    ensures ReadUnquoted(t)
         == if IsBlank(t[0]) then Some(("", t[1..]))
            else if t[0] != '\\' then Extend(t[0], ReadUnquoted(t[1..]))
            else if |t| == 1 then None
            else Extend(t[1], ReadUnquoted(t[2..]))
  {
  }

  lemma QuotedUnfolds(t: string)
    requires t != ""
    ensures ReadQuoted(t)
         == if t[0] == '\'' then Some(("", t[1..]))
            else if t[0] != '\\' then Extend(t[0], ReadQuoted(t[1..]))
            else if |t| == 1 then None
            else Extend(t[1], ReadQuoted(t[2..]))
  {
  }

  lemma Slices(w: string, z: string)
    requires w != ""
    ensures (w + z)[1..] == w[1..] + z
    ensures |w| == 1 && z != "" ==> (w + z)[2..] == z[1..]
    ensures |w| > 1 ==> (w + z)[2..] == w[2..] + z
  {
  }

  lemma SpecialsStep(c: char, s: string)
    ensures Specials([c] + s) == (if c == '\'' || c == '\\' then 1 else 0) + Specials(s)
  {
    assert ([c] + s)[1..] == s;
  }

  lemma UnquotedOfTail(z: string)
    requires IsTail(z)
    ensures ReadUnquoted(z) == Some(("", z[1..])) && ReadUnquoted(z[1..]) == Some((z[1..], ""))
  {
    UnquotedRoundTrip(z[1..], "");
    assert z[1..] + "" == z[1..];
  }

  lemma EndsLater(c: char, alone: Option<(string, string)>, v: string, rest: string, z: string)
    requires z != "" && EndsBefore(alone, v, rest, z)
    ensures EndsBefore(Extend(c, alone), [c] + v, rest, z)
  {
  }

  /** Only an escaped space lets an unquoted value go on, and then to the end. */
  predicate UnquotedCrosses(w: string, z: string, v: string, rest: string)
    requires z != ""
  {
    rest == "" && |z| <= |v| && v[|v| - 1] == z[|z| - 1] && w != "" && w[|w| - 1] == '\\'
  }

  lemma CrossesLater(c: char, w1: string, w: string, z: string, v: string, rest: string)
    requires z != "" && UnquotedCrosses(w1, z, v, rest)
    requires |w1| < |w| && w[|w| - |w1|..] == w1
    ensures UnquotedCrosses(w, z, [c] + v, rest)
  {
    assert w1[|w1| - 1] == w[|w| - 1];
  }

  lemma EscapedSpaceGoesOn(w: string, z: string)
    requires IsTail(z) && w == ['\\']
    ensures ReadUnquoted(w + z) == Some((z, "")) && UnquotedCrosses(w, z, z, "")
  {
    UnquotedUnfolds(w + z);
    Slices(w, z);
    UnquotedOfTail(z);
    hide ReadUnquoted;
    assert [z[0]] + z[1..] == z;
  }

  lemma {:induction false} UnquotedSplits(w: string, z: string)
    requires IsTail(z) && ReadUnquoted(w + z).Some?
    ensures var (v, rest) := ReadUnquoted(w + z).value;
            EndsBefore(ReadUnquoted(w), v, rest, z) || UnquotedCrosses(w, z, v, rest)
  {
    if w == "" {
      assert w + z == z;
      UnquotedOfTail(z);
    } else if w == ['\\'] {
      EscapedSpaceGoesOn(w, z);
    } else {
      UnquotedUnfolds(w + z);
      UnquotedUnfolds(w);
      Slices(w, z);
      hide ReadUnquoted;
      if !IsBlank(w[0]) {
        hide IsTail, EndsBefore, UnquotedCrosses;
        var c, w1 := if w[0] != '\\' then w[0] else w[1], if w[0] != '\\' then w[1..] else w[2..];
        UnquotedSplits(w1, z);
        var (v, rest) := ReadUnquoted(w1 + z).value;
        if EndsBefore(ReadUnquoted(w1), v, rest, z) {
          EndsLater(c, ReadUnquoted(w1), v, rest, z);
        } else {
          CrossesLater(c, w1, w, z, v, rest);
        }
      }
    }
  }

  lemma {:induction false} QuotedTail(t: string)
    requires forall i | 0 <= i < |t| :: t[i] != '\\'
    requires ReadQuoted(t).Some?
    ensures var (v, rest) := ReadQuoted(t).value;
            |v| + |rest| + 1 == |t| && rest == t[|t| - |rest|..] && Specials(v) == 0
  {
    if t[0] != '\'' {
      QuotedTail(t[1..]);
      SpecialsStep(t[0], ReadQuoted(t[1..]).value.0);
    }
  }

  /** A value that ends beyond w takes all of z up to its rest, and w had to escape its quotes and backslashes. */
  predicate QuotedCrosses(w: string, z: string, v: string, rest: string) {
    |rest| + 1 < |z| <= |v| + |rest| + 1 && rest == z[|z| - |rest|..] && 2 * Specials(v) <= Specials(w)
  }

  lemma QuotedCrossesLater(c: char, w1: string, w: string, z: string, v: string, rest: string)
    requires QuotedCrosses(w1, z, v, rest)
    requires (w == [c] + w1 && c != '\'' && c != '\\') || w == ['\\', c] + w1
    ensures QuotedCrosses(w, z, [c] + v, rest)
  {
    hide Specials;
    SpecialsStep(c, v);
    SpecialsStep(c, w1);
    SpecialsStep('\\', [c] + w1);
    assert ['\\', c] + w1 == ['\\'] + ([c] + w1);
  }

  lemma EscapedSpaceCrosses(w: string, z: string)
    requires IsTail(z) && w == ['\\'] && ReadQuoted(z[1..]).Some?
    ensures var (v, rest) := ReadQuoted(z[1..]).value;
            QuotedCrosses(w, z, [z[0]] + v, rest)
  {
    QuotedTail(z[1..]);
    SpecialsStep(z[0], ReadQuoted(z[1..]).value.0);
  }

  lemma {:induction false} QuotedSplits(w: string, z: string)
    requires IsTail(z) && ReadQuoted(w + z).Some?
    ensures var (v, rest) := ReadQuoted(w + z).value;
            EndsBefore(ReadQuoted(w), v, rest, z) || QuotedCrosses(w, z, v, rest)
  {
    if w == "" {
      assert w + z == z;
      QuotedTail(z);
    } else {
      QuotedUnfolds(w + z);
      QuotedUnfolds(w);
      Slices(w, z);
      hide ReadQuoted;
      if w[0] != '\'' && (w[0] != '\\' || |w| > 1) {
        hide IsTail, EndsBefore, QuotedCrosses;
        var c, w1 := if w[0] != '\\' then w[0] else w[1], if w[0] != '\\' then w[1..] else w[2..];
        QuotedSplits(w1, z);
        var (v, rest) := ReadQuoted(w1 + z).value;
        if EndsBefore(ReadQuoted(w1), v, rest, z) {
          EndsLater(c, ReadQuoted(w1), v, rest, z);
        } else {
          assert w == if w[0] != '\\' then [c] + w1 else ['\\', c] + w1;
          QuotedCrossesLater(c, w1, w, z, v, rest);
        }
      } else if w[0] == '\\' {
        EscapedSpaceCrosses(w, z);
      }
    }
  }

  lemma ValueSplits(w: string, z: string)
    requires IsTail(z) && w != "" && ReadValue(w + z).Some?
    ensures var (v, rest) := ReadValue(w + z).value;
            EndsBefore(ReadValue(w), v, rest, z) || Crosses(w, z, v, rest)
  {
    hide ReadQuoted, ReadUnquoted;
    if w[0] == '\'' {
      assert (w + z)[1..] == w[1..] + z;
      QuotedSplits(w[1..], z);
    } else {
      UnquotedSplits(w, z);
      assert z[|z|..] == "";
    }
  }

  lemma {:induction false} UnquotedExtends(w: string, z: string)
    requires IsTail(z) && ReadUnquoted(w).Some?
    ensures ReadUnquoted(w + z).Some?
    ensures var (v, rest) := ReadUnquoted(w + z).value; EndsBefore(ReadUnquoted(w), v, rest, z)
  {
    if w == "" {
      assert w + z == z;
    } else {
      UnquotedUnfolds(w + z);
      UnquotedUnfolds(w);
      Slices(w, z);
      hide ReadUnquoted;
      if !IsBlank(w[0]) { UnquotedExtends(if w[0] != '\\' then w[1..] else w[2..], z); }
    }
  }

  lemma {:induction false} QuotedExtends(w: string, z: string)
    requires IsTail(z) && ReadQuoted(w).Some?
    ensures ReadQuoted(w + z) == Some((ReadQuoted(w).value.0, ReadQuoted(w).value.1 + z))
  {
    QuotedUnfolds(w + z);
    QuotedUnfolds(w);
    Slices(w, z);
    hide ReadQuoted;
    if w[0] != '\'' { QuotedExtends(if w[0] != '\\' then w[1..] else w[2..], z); }
  }

  lemma ValueExtends(w: string, z: string)
    requires IsTail(z) && w != "" && ReadValue(w).Some?
    ensures ReadValue(w + z).Some?
    ensures var (v, rest) := ReadValue(w + z).value; EndsBefore(ReadValue(w), v, rest, z)
  {
    hide ReadQuoted, ReadUnquoted;
    if w[0] == '\'' {
      assert (w + z)[1..] == w[1..] + z;
      QuotedExtends(w[1..], z);
    } else {
      UnquotedExtends(w, z);
    }
  }

  lemma KeyStaysInFront(x: string, z: string)
    requires IsTail(z)
    ensures Span(x + z, IsKeyPart) <= |x|
  {
    assert (x + z)[|x|] == z[0];
  }

  lemma KeySplits(x: string, z: string) returns (text: string)
    requires IsTail(z) && ReadKey(x + z).Some?
    ensures |text| < |x| && text == x[|x| - |text|..] && ReadKey(x + z).value.1 == text + z
  {
    hide Span, IsKeyPart;
    KeyStaysInFront(x, z);
    var n := Span(x + z, IsKeyPart);
    assert (x + z)[n..] == x[n..] + z;
    SkipInto(x[n..], z);
    var a := SkipSpaces(x[n..]);
    SkippedTail(x, n);
    hide SkipSpaces, IsTail, IsBlank;
    assert a != "" ==> (a + z)[1..] == a[1..] + z;
    text := a[1..];
  }

  lemma SkippedTail(x: string, n: nat)
    requires n <= |x|
    ensures var a := SkipSpaces(x[n..]);
            |a| <= |x| - n && a == x[|x| - |a|..]
  {
  }

  /** A setting that starts in x takes its value from a proper suffix of x, or is all of z but its space. */
  lemma SettingSplits(x: string, z: string) returns (w: string)
    requires IsTail(z) && ReadSetting(x + z).Some?
    ensures |w| < |x| && w == x[|x| - |w|..]
    ensures var ((_, v), rest) := ReadSetting(x + z).value;
            || (w == "" && v == z[1..] && rest == "")
            || (w != "" && !IsBlank(w[0]) && ReadValue(w + z) == Some((v, rest)))
  {
    hide ReadKey, ReadQuoted, ReadUnquoted;
    var text := KeySplits(x, z);
    SkipInto(text, z);
    w := SkipSpaces(text);
    if w == "" {
      UnquotedOfTail(z);
    } else {
      assert w == text[|text| - |w|..];
    }
  }

  // ----- from the name to the six settings -----

  lemma Unprepend(setting: Setting, r: Option<seq<Setting>>, first: Setting, more: seq<Setting>)
    requires Prepend(setting, r) == Some([first] + more)
    ensures setting == first && r == Some(more)
  {
    assert r.Some?;
    assert ([setting] + r.value)[1..] == r.value && ([first] + more)[1..] == more;
    assert ([setting] + r.value)[0] == setting && ([first] + more)[0] == first;
  }

  /** Only white space can stand before a last setting whose value is shorter than z. */
  lemma BlankBefore(x: string, z: string, last: Setting)
    requires IsTail(z) && |last.1| + 1 < |z|
    requires ReadSettings(x + z) == Some([last])
    ensures SkipSpaces(x) == ""
  {
    SkipInto(x, z);
    var start := SkipSpaces(x);
    if start != "" {
      var (setting, rest) := ReadSetting(start + z).value;
      SkipCost(x + z);
      ReadingStep(start + z, setting, rest);
      SkippingTwice(x + z, start + z) by { NothingToSkip(start + z); }
      var none: seq<Setting> := [];
      assert [last] + none == [last];
      Unprepend(setting, ReadSettings(rest), last, none);
      NothingMeansBlank(rest);
      RestIsNotBlank(start, z);
    }
  }

  lemma NothingMeansBlank(s: string)
    ensures ReadSettings(s) == Some([]) ==> SkipSpaces(s) == ""
  {
    hide ReadSetting;
  }

  lemma RestIsNotBlank(x: string, z: string)
    requires IsTail(z) && ReadSetting(x + z).Some?
    requires |ReadSetting(x + z).value.0.1| + 1 < |z|
    ensures SkipSpaces(ReadSetting(x + z).value.1) != ""
  {
    hide ReadSetting, ReadValue, SkipSpaces;
    var w := SettingSplits(x, z);
    var ((_, v), rest) := ReadSetting(x + z).value;
    if w != "" {
      ValueSplits(w, z);
      NotAllSpaces(rest);
    }
  }

  /** How the database name and what follows it are read. */
  lemma NameIsRead(name: string, z: string)
    ensures ReadSettings("dbname=" + name + z)
         == match ReadValue(SkipSpaces(name + z))
            case None => None
            case Some((v, rest)) => Prepend(("dbname", v), ReadSettings(rest))
  {
    var k := "dbname";
    var s := "dbname=" + name + z;
    assert s == k + "=" + (name + z);
    KeyIsRead(k, name + z);
    hide ReadKey, ReadValue;
    assert s[0] == 'd';
    NothingToSkip(s);
    hide SkipSpaces;
  }

  lemma TailIsReadAlike(r: string, rest: string, z: string)
    requires IsTail(z) && SkipSpaces(r) == ""
    requires rest == r + z || rest == z[1..]
    ensures ReadSettings(rest) == ReadSettings(z)
  {
    SkipInto(r, z);
    SkipInto(z[..0], z);
    assert z[..0] + z == z;
    NothingToSkip(z[..0]);
    NothingToSkip(z[1..]);
    hide *;
    SkippingTwice(rest, z);
  }

  lemma OneValueIsRead(name: string, z: string, last: Setting)
    requires IsTail(z) && ReadSettings(z) == Some([last])
    requires IsOneValue(name)
    ensures ReadSettings("dbname=" + name + z) == Some([("dbname", TheValue(name))] + [last])
  {
    hide ReadSettings, ReadValue, SkipSpaces, IsTail;
    var w := SkipSpaces(name);
    NameIsRead(name, z);
    SkipInto(name, z);
    ValueExtends(w, z);
    TailIsReadAlike(ReadValue(w).value.1, ReadValue(w + z).value.1, z);
  }

  lemma OnlyOneValueIsRead(name: string, z: string, v: string, last: Setting)
    requires IsTail(z) && |last.1| + 1 < |z| <= |last.0| + |last.1| + 2
    requires ReadSettings("dbname=" + name + z) == Some([("dbname", v)] + [last])
    ensures IsOneValue(name)
  {
    hide ReadSettings, ReadValue;
    NameIsRead(name, z);
    SkipInto(name, z);
    var w := SkipSpaces(name);
    var (v0, rest) := ReadValue(SkipSpaces(name + z)).value;
    Unprepend(("dbname", v0), ReadSettings(rest), ("dbname", v), [last]);
    ReadingCost(rest);
    WeightOfOne(last);
    if w == "" {
      TailIsOneValue(z);
    } else {
      ValueSplits(w, z);
      var r1 := ReadValue(w).value.1;
      if rest == r1 + z {
        BlankBefore(r1, z, last);
      }
    }
  }

  lemma WeightOfOne(last: Setting)
    ensures Weight([last]) == |last.0| + |last.1| + 2
  {
    assert [last][1..] == [];
  }

  lemma TailIsOneValue(z: string)
    requires IsTail(z)
    ensures ReadValue(z[1..]) == Some((z[1..], ""))
  {
    UnquotedOfTail(z);
  }

  function Tail(c: PostgresConfig): string { " sslmode=" + c.sslmode }

  lemma TailShape(head: string, v: string)
    requires head == " sslmode=" && HasNoSpaceOrBackslash(v)
    ensures IsTail(head + v)
  {
    var z := head + v;
    forall i | 0 < i < |z| ensures !IsBlank(z[i]) && z[i] != '\\' {
      if i >= |head| {
        assert z[i] == v[i - |head|] && v[i - |head|] in v;
      }
    }
  }

  lemma TailIsRead(c: PostgresConfig)
    requires PlainOrEmpty(c.sslmode)
    ensures IsTail(Tail(c)) && ReadSettings(Tail(c)) == Some([("sslmode", c.sslmode)])
  {
    hide ReadSettings, Span, SkipSpaces;
    var k, z := "sslmode", Tail(c);
    var head := " " + k + "=";
    assert head == " sslmode=" && head + c.sslmode == z;
    TailShape(head, c.sslmode);
    SingleIsRead(k, c.sslmode);
    var text := k + "=" + c.sslmode;
    assert z == " " + text && z[1..] == text;
    TailIsReadAlike(z[..0], text, z) by { NothingToSkip(z[..0]); }
  }

  /** The settings before the name are read whatever the name is. */
  lemma HeadIsRead(c: PostgresConfig, name: string)
    requires Plain(c.host) && Plain(c.user) && Plain(c.password)
    ensures ReadSettings(Print(c, name))
         == Prepend(("host", c.host), Prepend(("port", FormatInt(c.port)), Prepend(("user", c.user),
              Prepend(("password", c.password), ReadSettings("dbname=" + name + Tail(c))))))
  {
    hide ReadSettings, Plain, FormatInt, Prepend, IsKey;
    PortIsPlain(c.port);
    var port := FormatInt(c.port);
    var t4 := "dbname=" + name + Tail(c);
    var k0, k1, k2, k3 := "host", "port", "user", "password";
    KeysAreKeys(k0, k1, k2, k3);
    var t3 := k3 + "=" + c.password + " " + t4;
    var t2 := k2 + "=" + c.user + " " + t3;
    var t1 := k1 + "=" + port + " " + t2;
    SettingThenMore(k3, c.password, t4);
    SettingThenMore(k2, c.user, t3);
    SettingThenMore(k1, port, t2);
    SettingThenMore(k0, c.host, t1);
    assert k0 + "=" + c.host + " " + t1 == Print(c, name) by {
      hide *;
      PrintInOrder(c.host, port, c.user, c.password, name, c.sslmode, t4, t3, t2, t1);
    }
  }

  lemma KeysAreKeys(k0: string, k1: string, k2: string, k3: string)
    requires k0 == "host" && k1 == "port" && k2 == "user" && k3 == "password"
    ensures IsKey(k0) && IsKey(k1) && IsKey(k2) && IsKey(k3)
  {
  }

  lemma PrintInOrder(host: string, port: string, user: string, password: string, name: string, ssl: string,
                     t4: string, t3: string, t2: string, t1: string)
    requires t4 == "dbname=" + name + (" sslmode=" + ssl)
    requires t3 == "password" + "=" + password + " " + t4
    requires t2 == "user" + "=" + user + " " + t3
    requires t1 == "port" + "=" + port + " " + t2
    ensures "host" + "=" + host + " " + t1
         == "host=" + host
            + (" port=" + port
               + (" user=" + user
                  + (" password=" + password
                     + (" dbname=" + name
                        + (" sslmode=" + ssl)))))
  {
    assert " dbname=" + name + (" sslmode=" + ssl) == " " + t4;
    assert " password=" + password + (" " + t4) == " " + t3;
    assert " user=" + user + (" " + t3) == " " + t2;
    assert " port=" + port + (" " + t2) == " " + t1;
  }

  lemma SixSettings(c: PostgresConfig, r: Option<seq<Setting>>, v: string)
    ensures Prepend(("host", c.host), Prepend(("port", FormatInt(c.port)), Prepend(("user", c.user),
              Prepend(("password", c.password), r)))) == Some(Settings(c, v))
       <==> r == Some([("dbname", v)] + [("sslmode", c.sslmode)])
  {
    hide FormatInt;
    if r.Some? {
      var all := [("host", c.host)] + ([("port", FormatInt(c.port))] + ([("user", c.user)]
                 + ([("password", c.password)] + r.value)));
      assert all[4..] == r.value;
      assert Settings(c, v)[4..] == [("dbname", v)] + [("sslmode", c.sslmode)];
      if r.value == [("dbname", v)] + [("sslmode", c.sslmode)] {
        assert all == Settings(c, v);
      }
    }
  }

  /**
   For any name at all, a temporary connection differs from the default one in dbname only exactly
   when the name is one value; dbname is then that value.
   */
  lemma TemporaryDiffersInDatabaseOnly(c: PostgresConfig, name: string)
    requires Connectable(c, c.database)
    ensures (exists v :: ReadSettings(Print(c, name)) == Some(Settings(c, v))) <==> IsOneValue(name)
    ensures IsOneValue(name) ==> ReadSettings(Print(c, name)) == Some(Settings(c, TheValue(name)))
  {
    hide ReadSettings, Print, Settings, Prepend, FormatInt, IsTail, IsOneValue, Plain;
    HeadIsRead(c, name);
    TailIsRead(c);
    var last := ("sslmode", c.sslmode);
    if IsOneValue(name) {
      OneValueIsRead(name, Tail(c), last);
      SixSettings(c, ReadSettings("dbname=" + name + Tail(c)), TheValue(name));
    }
    if v :| ReadSettings(Print(c, name)) == Some(Settings(c, v)) {
      SixSettings(c, ReadSettings("dbname=" + name + Tail(c)), v);
      OnlyOneValueIsRead(name, Tail(c), v, last);
    }
  }
}
