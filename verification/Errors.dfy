/**
 The error path: the typed and worded errors of the services, their classification into gRPC
 codes (internal/server/errors.go) and the client's own reading of the status text.
 */
module Errors {
  import opened Text
  import opened Wrappers
  import opened Quoting
  import opened SqlBuilder

  datatype ServiceError = NotEnabled(backend: string) | Worded(message: string)

  datatype Code = InvalidArgument | NotFound | Unavailable | Internal

  datatype Status = Status(code: Code, message: string)

  function Message(e: ServiceError): string {
    match e
    case NotEnabled(backend) => backend + " not enabled"
    case Worded(message) => message
  }

  predicate IsBadInput(msg: string) {
    || Contains(msg, "invalid table name")
    || Contains(msg, "no data to update")
    || Contains(msg, "limit must be")
    || Contains(msg, "invalid ID format")
  }

  /** toGRPCError: the type first, then the wording, in this order. */
  function ToStatus(e: ServiceError): Status {
    var msg := Message(e);
    if e.NotEnabled? then Status(Unavailable, msg)
    else if IsBadInput(msg) then Status(InvalidArgument, msg)
    else if Contains(msg, "not found") then Status(NotFound, msg)
    else Status(Internal, msg)
  }

  /** The message has the phrase somewhere. */
  ghost predicate Says(msg: string, phrase: string) {
    exists before: string, after: string :: msg == before + phrase + after
  }

  lemma ContainsIsSays(msg: string, phrase: string)
    ensures Contains(msg, phrase) <==> Says(msg, phrase)
  {
    if Contains(msg, phrase) {
      var i: nat :| i <= |msg| && OccursAt(msg, phrase, i);
      assert msg == msg[..i] + phrase + msg[i + |phrase|..];
    }
    if before, after :| msg == before + phrase + after {
      ContainsInContext(before, phrase, after);
    }
  }

  /** The status of every error: the whole message is kept, and the first rule that applies gives the code. */
  lemma EveryStatus(e: ServiceError)
    ensures ToStatus(e).message == if e.NotEnabled? then e.backend + " not enabled" else e.message
    ensures ToStatus(e).code
         == if e.NotEnabled? then Unavailable
            else if || Says(e.message, "invalid table name")
                    || Says(e.message, "no data to update")
                    || Says(e.message, "limit must be")
                    || Says(e.message, "invalid ID format")
                 then InvalidArgument
            else if Says(e.message, "not found") then NotFound
            else Internal
  {
    if e.Worded? {
      ContainsIsSays(e.message, "invalid table name");
      ContainsIsSays(e.message, "no data to update");
      ContainsIsSays(e.message, "limit must be");
      ContainsIsSays(e.message, "invalid ID format");
      ContainsIsSays(e.message, "not found");
    }
    hide Contains, Says;
  }

  // ----- Redis reads, from the store to the caller of the client -----

  /** redisService.GetValue: any failure of the underlying Get is worded as a missing key. */
  function ServiceGet(enabled: bool, found: Option<string>): Result<string, ServiceError> {
    if !enabled then Err(NotEnabled("Redis"))
    else match found
      case None => Err(Worded("key not found"))
      case Some(value) => Ok(value)
  }

  function ServerGet(enabled: bool, found: Option<string>): Result<string, Status> {
    match ServiceGet(enabled, found)
    case Ok(value) => Ok(value)
    case Err(e) => Err(ToStatus(e))
  }

  /** The client's test for an absent key. */
  predicate ReadsAsAbsent(st: Status) {
    Contains(ToLower(st.message), "not found")
  }

  /** Client.RedisGet on what the server answered. */
  function ClientGet(answer: Result<string, Status>): Result<string, Status> {
    match answer
    case Ok(value) => Ok(value)
    case Err(st) => if ReadsAsAbsent(st) then Ok("") else Err(st)
  }

  lemma KeyNotFoundStatus(msg: string)
    requires msg == "key not found"
    ensures ToStatus(Worded(msg)) == Status(NotFound, msg)
  {
    assert !IsBadInput(msg) by { KeyNotFoundIsNotBad(msg); }
    var key, part, end := "key ", "not found", "";
    assert key + part + end == msg;
    hide Contains, IsBadInput;
    ContainsInContext(key, part, end);
  }

  lemma KeyNotFoundIsNotBad(msg: string)
    requires msg == "key not found"
    ensures !IsBadInput(msg)
  {
    hide Contains;
    assert 'i' !in msg && 'l' !in msg && 'a' !in msg;
    LacksCharacter(msg, "invalid table name", 0);
    LacksCharacter(msg, "no data to update", 4);
    LacksCharacter(msg, "limit must be", 0);
    LacksCharacter(msg, "invalid ID format", 0);
  }

  /** A server that answers NotFound is always read as absence. */
  lemma NotFoundReadsAsAbsent(e: ServiceError)
    ensures ToStatus(e).code == NotFound ==> ReadsAsAbsent(ToStatus(e))
  {
    if ToStatus(e).code == NotFound {
      var part := "not found";
      assert ToLower(part) == part;
      ContainsLowered(Message(e), part);
    }
  }

  /**
   What the caller of RedisGet sees, for every outcome: on an enabled backend a failed read is the
   empty string without an error, on a disabled one it is an Unavailable error.
   */
  lemma RedisGetOutcome(enabled: bool, found: Option<string>)
    ensures ClientGet(ServerGet(enabled, found))
         == if !enabled then Err(Status(Unavailable, "Redis not enabled"))
            else if found.Some? then Ok(found.value)
            else Ok("")
  {
    if !enabled {
      var msg := "Redis" + " not enabled";
      assert msg == "Redis not enabled";
      assert 'f' !in ToLower(msg);
      LacksCharacter(ToLower(msg), "not found", 4);
    } else if found.None? {
      KeyNotFoundStatus("key not found");
      NotFoundReadsAsAbsent(Worded("key not found"));
    }
  }

  /** The client and the server agree on which failures are absences. */
  predicate ReadingsAgree(st: Status) { ReadsAsAbsent(st) <==> st.code == NotFound }

  lemma NoneAcross(s: string, suffix: string)
    requires suffix == " not enabled"
    ensures Contains(s + suffix, "not found") <==> Contains(s, "not found")
  {
    var part := "not found";
    if Contains(s, part) { ContainsLeft(s, suffix, part); }
    if i: nat :| i <= |s + suffix| && OccursAt(s + suffix, part, i) {
      if i + |part| <= |s| {
        OccursBefore(s, suffix, part, i);
      } else {
        SuffixBreaksOff(s, suffix, part, i);
      }
    }
  }

  lemma SuffixBreaksOff(s: string, suffix: string, part: string, i: nat)
    requires suffix == " not enabled" && part == "not found" && i + |part| > |s|
    ensures !OccursAt(s + suffix, part, i)
  {
    var all := s + suffix;
    assert forall k | 0 <= k < |suffix| :: all[|s| + k] == suffix[k] && suffix[k] != 'f';
    if OccursAt(all, part, i) {
      if i >= |s| {
        OccursHas(all, part, i, 4);
      } else {
        var k := |s| - i;
        OccursHas(all, part, i, k);
        OccursHas(all, part, i, if k < 8 then k + 1 else 0);
      }
    }
  }

  lemma LoweredSuffix(backend: string)
    ensures ToLower(backend + " not enabled") == ToLower(backend) + " not enabled"
  {
  }

  /**
   For every error of the services: the client's reading and the server's code disagree exactly when
   the message says "not found" in some letter case and the server has another reason for its code,
   or says it in another letter case only.
   */
  lemma ReadingsDisagreeExactlyWhen(e: ServiceError)
    ensures ReadingsAgree(ToStatus(e)) <==>
            match e
            case NotEnabled(backend) => !Contains(ToLower(backend), "not found")
            case Worded(msg) =>
              Contains(ToLower(msg), "not found") ==> !IsBadInput(msg) && Contains(msg, "not found")
  {
    hide Contains, IsBadInput;
    match e {
      case NotEnabled(backend) =>
        LoweredSuffix(backend);
        NoneAcross(ToLower(backend), " not enabled");
      case Worded(msg) =>
        NotFoundReadsAsAbsent(e);
        ContainedStaysContained(msg, "not found");
    }
  }

  lemma ContainedStaysContained(msg: string, part: string)
    requires part == "not found"
    ensures Contains(msg, part) ==> Contains(ToLower(msg), part)
  {
    if Contains(msg, part) {
      assert ToLower(part) == part;
      ContainsLowered(msg, part);
    }
  }

  /** On the path of GetValue they never disagree, whatever the read gives and whether Redis is enabled. */
  lemma RedisReadingsAgree(enabled: bool, found: Option<string>)
    ensures ServerGet(enabled, found).Err? ==> ReadingsAgree(ServerGet(enabled, found).error)
  {
    RedisGetOutcome(enabled, found);
    if enabled {
      var msg := "key not found";
      KeyNotFoundStatus(msg);
      NotFoundReadsAsAbsent(Worded(msg));
    }
  }

  // ----- Mongo identifiers -----

  /** fmt.Errorf("invalid ID format: %w", err), whatever err says. */
  lemma InvalidIdIsBadInput(wrapped: string)
    ensures ToStatus(Worded("invalid ID format: " + wrapped)).code == InvalidArgument
  {
    var msg := "invalid ID format: " + wrapped;
    ContainsInContext("", "invalid ID format", ": " + wrapped);
    assert "" + "invalid ID format" + (": " + wrapped) == msg;
  }

  // ----- database names -----

  /** CreateDatabase's refusal, which prints the name with %q. */
  function InvalidDatabaseName(name: string, rune: char -> string): ServiceError {
    Worded("invalid database name: " + Quote(name, rune))
  }

  predicate NameIsBadInput(name: string) {
    || NameHas(name, "invalid table name")
    || NameHas(name, "no data to update")
    || NameHas(name, "limit must be")
    || NameHas(name, "invalid ID format")
  }

  /**
   A refused database name is classified by the words inside the name itself, or inside its quoted
   form, where a line feed before the rest of a phrase gives the phrase its first letter.
   */
  lemma InvalidDatabaseNameStatus(name: string, rune: char -> string)
    requires IsRunePrinter(rune)
    ensures ToStatus(InvalidDatabaseName(name, rune)).code
         == if NameIsBadInput(name) then InvalidArgument
            else if NameHas(name, "not found") then NotFound
            else Internal
  {
    hide NameHas, Contains, QuoteBody;
    var left := "invalid database name: ";
    LeftHasNoPhrase(left);
    MessageHas(left, name, rune, "invalid table name");
    MessageHas(left, name, rune, "no data to update");
    MessageHas(left, name, rune, "limit must be");
    MessageHas(left, name, rune, "invalid ID format");
    MessageHas(left, name, rune, "not found");
  }

  lemma MessageHas(left: string, name: string, rune: char -> string, p: string)
    requires IsRunePrinter(rune) && IsPhrase(p)
    ensures Contains(left + Quote(name, rune), p) <==> Contains(left, p) || NameHas(name, p)
  {
    var body, end := QuoteBody(name, rune), "";
    assert forall i | 0 <= i < |p| :: IsPlainChar(p[i]) && p[i] != '"';
    QuoteBodyHas(name, rune, p);
    assert left + Quote(name, rune) == left + ['"'] + (body + ['"'] + end);
    hide QuoteBody, NameHas;
    ContainsAcross(left, '"', body + ['"'] + end, p);
    ContainsAcross(body, '"', end, p);
    assert !Contains(end, p);
  }

  /** A refused name of each kind: the last two hold no phrase themselves. */
  lemma RefusedNames(rune: char -> string, plain: string, absent: string, empty: string)
    requires IsRunePrinter(rune)
    requires plain == "my-db" && absent == "\not found" && empty == "\no data to update"
    ensures !IsValidIdentifier(plain) && !IsValidIdentifier(absent) && !IsValidIdentifier(empty)
    ensures ToStatus(InvalidDatabaseName(plain, rune)).code == Internal
    ensures ToStatus(InvalidDatabaseName(absent, rune)).code == NotFound && !Contains(absent, "not found")
    ensures ToStatus(InvalidDatabaseName(empty, rune)).code == InvalidArgument && !IsBadInput(empty)
  {
    hide ToStatus, InvalidDatabaseName, NameHas, IsBadInput, Contains;
    assert plain[2] == '-' && absent[0] == '\n' && empty[0] == '\n';
    BadCharacter(plain, 2);
    BadCharacter(absent, 0);
    BadCharacter(empty, 0);
    hide IsValidIdentifier;
    PlainNameHasNothing(plain);
    LineFeedThenNotFound(absent, "not found");
    LineFeedThenNoData(empty, "no data to update");
    InvalidDatabaseNameStatus(plain, rune);
    InvalidDatabaseNameStatus(absent, rune);
    InvalidDatabaseNameStatus(empty, rune);
  }

  lemma BadCharacter(name: string, i: nat)
    requires i < |name| && !IsIdentifierPart(name[i])
    ensures !IsValidIdentifier(name)
  {
    assert name[i] in name;
  }

  /** A name that holds a phrase is never valid, so such a name is always refused. */
  lemma PhrasesAreRefused(name: string, p: string)
    requires p != "" && ' ' in p[1..] && NameHas(name, p)
    ensures !IsValidIdentifier(name)
  {
    var j :| 0 <= j < |p[1..]| && p[1..][j] == ' ';
    if Contains(name, p) {
      var i: nat :| i <= |name| && OccursAt(name, p, i);
      OccursHas(name, p, i, j + 1);
      BadCharacter(name, i + j + 1);
    } else {
      var fed := "\n" + p[1..];
      var i: nat :| i <= |name| && OccursAt(name, fed, i);
      OccursHas(name, fed, i, j + 1);
      BadCharacter(name, i + j + 1);
    }
  }

  lemma PlainNameHasNothing(plain: string)
    requires plain == "my-db"
    ensures !NameIsBadInput(plain) && !NameHas(plain, "not found")
  {
    TooShort(plain, "invalid table name");
    TooShort(plain, "no data to update");
    TooShort(plain, "\n" + "no data to update"[1..]);
    TooShort(plain, "limit must be");
    TooShort(plain, "invalid ID format");
    TooShort(plain, "not found");
    TooShort(plain, "\n" + "not found"[1..]);
  }

  lemma TooShort(s: string, part: string)
    requires |s| < |part|
    ensures !Contains(s, part)
  {
  }

  lemma LineFeedThenNotFound(absent: string, p: string)
    requires absent == "\not found" && p == "not found"
    ensures !NameIsBadInput(absent) && NameHas(absent, p) && !Contains(absent, p)
  {
    assert "\n" + p[1..] == absent && OccursAt(absent, absent, 0);
    LacksPair(absent, p, 0);
    TooShort(absent, "invalid table name");
    TooShort(absent, "no data to update");
    TooShort(absent, "\n" + "no data to update"[1..]);
    TooShort(absent, "limit must be");
    TooShort(absent, "invalid ID format");
  }

  lemma LineFeedThenNoData(empty: string, q: string)
    requires empty == "\no data to update" && q == "no data to update"
    ensures NameHas(empty, q) && !IsBadInput(empty)
  {
    assert "\n" + q[1..] == empty && OccursAt(empty, empty, 0);
    NoDataIsNotBad(empty, q);
    hide IsBadInput;
  }

  lemma NoDataIsNotBad(empty: string, q: string)
    requires q == "no data to update" && empty == "\n" + q[1..]
    ensures !IsBadInput(empty)
  {
    hide Contains;
    assert 'n' !in empty && 'l' !in empty && 'i' !in empty;
    LacksCharacter(empty, q, 0);
    LacksCharacter(empty, "invalid table name", 0);
    LacksCharacter(empty, "limit must be", 0);
    LacksCharacter(empty, "invalid ID format", 0);
  }

  lemma LeftHasNoTableName(left: string)
    requires left == "invalid database name: "
    ensures !Contains(left, "invalid table name")
  {
    LacksPair(left, "invalid table name", 10);
  }

  lemma LeftHasNoPhrase(left: string)
    requires left == "invalid database name: "
    ensures !IsBadInput(left) && !Contains(left, "not found")
  {
    LeftHasNoTableName(left);
    LacksCharacter(left, "no data to update", 12);
    LacksCharacter(left, "limit must be", 7);
    LacksCharacter(left, "invalid ID format", 8);
    LacksCharacter(left, "not found", 1);
  }
}
