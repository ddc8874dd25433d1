/**
 * The three records of the alerts app (Alert, Location, Profile): their
 * field defaults, their `clean` validators, their `__str__` texts and the
 * default order in which listings return them.
 */
module Models {
  import opened Wrappers
  import opened Text

  /** One alert record. `alertType` is free text until `clean` checks it
      against the declared choices; `createdAt` is the creation timestamp
      the database assigns, as a number that grows with time. */
  datatype Alert = Alert(
    id: int,
    title: string,
    message: string,
    alertType: string,
    createdAt: int,
    isActive: bool)

  /** One location record. Coordinates are decimals with six places, held
      exactly as reals; `None` is a NULL column. */
  datatype Location = Location(
    id: int,
    name: string,
    address: string,
    latitude: Option<real>,
    longitude: Option<real>)

  /** A user's profile: the owner's user name and an optional location id. */
  datatype Profile = Profile(username: string, location: Option<int>)

  /** Why `clean` refused a record; one case per `raise` in the source. */
  datatype ValidationError =
    | TitleBlank
    | MessageBlank
    | InvalidAlertType
    | NameBlank
    | LatitudeOutOfRange
    | LongitudeOutOfRange

  /** What `clean` does: return normally, or raise the first failure. */
  datatype Outcome = Pass | Fail(error: ValidationError)

  /** `Alert.ALERT_TYPES`: the (stored value, label) choices. */
  const AlertTypes: seq<(string, string)> :=
    [("info", "Info"), ("warning", "Warning"), ("error", "Error")]

  /** The keys of `dict(choices)`. */
  function ChoiceKeys(choices: seq<(string, string)>): set<string>
  {
    set i | 0 <= i < |choices| :: choices[i].0
  }

  /** The three severities an alert may carry. */
  predicate IsSeverity(t: string)
  {
    t == "info" || t == "warning" || t == "error"
  }

  /** `alert_type in dict(ALERT_TYPES)` holds of exactly the three severities. */
  lemma AlertTypeKeysAreSeverities(t: string)
    ensures t in ChoiceKeys(AlertTypes) <==> IsSeverity(t)
  {
    assert AlertTypes[0].0 == "info";
    assert AlertTypes[1].0 == "warning";
    assert AlertTypes[2].0 == "error";
  }

  /** The text each `ValidationError` is raised with. */
  function ErrorMessage(e: ValidationError): (r: string)
    ensures |r| > 0 && r[|r| - 1] == '.'
  {
    match e
    case TitleBlank => "Title cannot be empty or whitespace only."
    case MessageBlank => "Message cannot be empty or whitespace only."
    case InvalidAlertType => "Invalid alert type."
    case NameBlank => "Location name cannot be empty."
    case LatitudeOutOfRange => "Latitude must be between -90 and 90."
    case LongitudeOutOfRange => "Longitude must be between -180 and 180."
  }

  /** The length of each failure's text; no two are the same. A helper
      that serves only `ErrorMessagesDistinct`. */
  lemma ErrorMessageLength(e: ValidationError)
    ensures |ErrorMessage(e)| == match e
      case TitleBlank => 41
      case MessageBlank => 43
      case InvalidAlertType => 19
      case NameBlank => 30
      case LatitudeOutOfRange => 36
      case LongitudeOutOfRange => 39
  {
  }

  /** Each failure is raised with its own text, so the text tells which
      check failed. */
  lemma ErrorMessagesDistinct(e1: ValidationError, e2: ValidationError)
    requires e1 != e2
    ensures ErrorMessage(e1) != ErrorMessage(e2)
  {
    ErrorMessageLength(e1);
    ErrorMessageLength(e2);
  }

  /** `Alert.clean`: title, then message, then type; the first failing
      check is the one reported. */
  function CleanAlert(a: Alert): (r: Outcome)
    ensures r == Pass <==>
      HasVisibleChar(a.title) && HasVisibleChar(a.message) && IsSeverity(a.alertType)
    ensures r == Fail(TitleBlank) <==> !HasVisibleChar(a.title)
    ensures r == Fail(MessageBlank) <==>
      HasVisibleChar(a.title) && !HasVisibleChar(a.message)
    ensures r == Fail(InvalidAlertType) <==>
      HasVisibleChar(a.title) && HasVisibleChar(a.message) && !IsSeverity(a.alertType)
  {
    BlankIffNoVisibleChar(a.title);
    BlankIffNoVisibleChar(a.message);
    AlertTypeKeysAreSeverities(a.alertType);
    if IsBlank(a.title) then Fail(TitleBlank)
    else if IsBlank(a.message) then Fail(MessageBlank)
    else if a.alertType !in ChoiceKeys(AlertTypes) then Fail(InvalidAlertType)
    else Pass
  }

  /** Python truthiness of a nullable decimal: `None` and zero are false. */
  predicate Truthy(v: Option<real>)
  {
    v.Some? && v.value != 0.0
  }

  /** An absent coordinate, or one within `[-bound, bound]`. */
  predicate WithinBound(v: Option<real>, bound: real)
  {
    v.None? || (-bound <= v.value <= bound)
  }

  /** `Location.clean`: name, then latitude, then longitude. A coordinate
      is range-checked only when it is truthy. */
  function CleanLocation(l: Location): (r: Outcome)
    ensures r == Pass <==>
      HasVisibleChar(l.name) && WithinBound(l.latitude, 90.0) && WithinBound(l.longitude, 180.0)
    ensures r == Fail(NameBlank) <==> !HasVisibleChar(l.name)
    ensures r == Fail(LatitudeOutOfRange) <==>
      HasVisibleChar(l.name) && !WithinBound(l.latitude, 90.0)
    ensures r == Fail(LongitudeOutOfRange) <==>
      HasVisibleChar(l.name) && WithinBound(l.latitude, 90.0) && !WithinBound(l.longitude, 180.0)
  {
    BlankIffNoVisibleChar(l.name);
    if IsBlank(l.name) then Fail(NameBlank)
    else if Truthy(l.latitude) && (l.latitude.value < -90.0 || l.latitude.value > 90.0) then
      Fail(LatitudeOutOfRange)
    else if Truthy(l.longitude) && (l.longitude.value < -180.0 || l.longitude.value > 180.0) then
      Fail(LongitudeOutOfRange)
    else Pass
  }

  /** A coordinate of exactly zero, which the truthiness guard skips, is
      never the reason a location is refused. */
  lemma ZeroCoordinateNeverRejected(l: Location)
    ensures l.latitude == Some(0.0) ==> CleanLocation(l) != Fail(LatitudeOutOfRange)
    ensures l.longitude == Some(0.0) ==> CleanLocation(l) != Fail(LongitudeOutOfRange)
  {
  }

  /** A new alert with the model's field defaults: type `info`, active. */
  function NewAlert(id: int, title: string, message: string, createdAt: int): (a: Alert)
    ensures a.alertType == "info" && a.isActive
    ensures a.id == id && a.title == title && a.message == message && a.createdAt == createdAt
  {
    Alert(id, title, message, "info", createdAt, true)
  }

  /** The default type needs no help: a new alert validates exactly when
      its title and message are not blank. */
  lemma NewAlertValidIff(id: int, title: string, message: string, createdAt: int)
    ensures CleanAlert(NewAlert(id, title, message, createdAt)) == Pass <==>
      HasVisibleChar(title) && HasVisibleChar(message)
  {
  }

  /** A new location with the field defaults: empty address, no coordinates. */
  function NewLocation(id: int, name: string): (l: Location)
    ensures l.address == "" && l.latitude.None? && l.longitude.None?
    ensures l.id == id && l.name == name
  {
    Location(id, name, "", None, None)
  }

  /** `Alert.__str__`: the title, then the type in parentheses. */
  function AlertStr(a: Alert): (r: string)
    ensures |r| == |a.title| + |a.alertType| + 3
    ensures r[..|a.title|] == a.title && EndsWith(r, TypeSuffix(a.alertType))
  {
    EndsWithConcat(a.title, TypeSuffix(a.alertType));
    a.title + " (" + a.alertType + ")"
  }

  /** The ending `AlertStr` gives an alert of type `t`. */
  function TypeSuffix(t: string): string
  {
    " (" + t + ")"
  }

  /** `s` ends with `suffix`. */
  predicate EndsWith(s: string, suffix: string)
  {
    |s| >= |suffix| && s[|s| - |suffix|..] == suffix
  }

  /** A concatenation ends with its second part and starts with its first. */
  lemma EndsWithConcat(a: string, b: string)
    ensures EndsWith(a + b, b) && (a + b)[..|a|] == a
  {
    assert (a + b)[|a|..] == b;
  }

  /** Two strings whose next-to-last characters differ cannot both end a text. */
  lemma EndsWithOne(s: string, suffix: string, other: string)
    requires EndsWith(s, suffix) && |suffix| >= 2 && |other| >= 2
    requires suffix[|suffix| - 2] != other[|other| - 2]
    ensures !EndsWith(s, other)
  {
    assert s[|s| - |suffix|..][|suffix| - 2] == s[|s| - 2];
    if |s| >= |other| {
      assert s[|s| - |other|..][|other| - 2] == s[|s| - 2];
    }
  }

  /** Reads a displayed alert back into its (title, type), for a text that
      ends in one of the three severity endings. */
  function ParseAlertStr(s: string): Option<(string, string)>
  {
    if EndsWith(s, TypeSuffix("info")) then
      Some((s[..|s| - |TypeSuffix("info")|], "info"))
    else if EndsWith(s, TypeSuffix("warning")) then
      Some((s[..|s| - |TypeSuffix("warning")|], "warning"))
    else if EndsWith(s, TypeSuffix("error")) then
      Some((s[..|s| - |TypeSuffix("error")|], "error"))
    else None
  }

  /** Reading back a text that ends in the `info` ending. */
  lemma ParseInfo(title: string)
    ensures ParseAlertStr(title + TypeSuffix("info")) == Some((title, "info"))
  {
    EndsWithConcat(title, TypeSuffix("info"));
  }

  /** Reading back a text that ends in the `warning` ending. */
  lemma ParseWarning(title: string)
    ensures ParseAlertStr(title + TypeSuffix("warning")) == Some((title, "warning"))
  {
    var s := title + TypeSuffix("warning");
    EndsWithConcat(title, TypeSuffix("warning"));
    // The letter before the closing parenthesis tells the endings apart.
    assert TypeSuffix("info")[5] == 'o' && TypeSuffix("warning")[8] == 'g';
    EndsWithOne(s, TypeSuffix("warning"), TypeSuffix("info"));
  }

  /** Reading back a text that ends in the `error` ending. */
  lemma ParseError(title: string)
    ensures ParseAlertStr(title + TypeSuffix("error")) == Some((title, "error"))
  {
    var s := title + TypeSuffix("error");
    EndsWithConcat(title, TypeSuffix("error"));
    assert TypeSuffix("info")[5] == 'o' && TypeSuffix("warning")[8] == 'g';
    assert TypeSuffix("error")[6] == 'r';
    EndsWithOne(s, TypeSuffix("error"), TypeSuffix("info"));
    EndsWithOne(s, TypeSuffix("error"), TypeSuffix("warning"));
  }

  /** The display text of an alert with a valid type determines its title
      and its type. */
  lemma AlertStrRoundTrip(a: Alert)
    requires IsSeverity(a.alertType)
    ensures ParseAlertStr(AlertStr(a)) == Some((a.title, a.alertType))
  {
    assert AlertStr(a) == a.title + TypeSuffix(a.alertType);
    if a.alertType == "info" {
      ParseInfo(a.title);
    } else if a.alertType == "warning" {
      ParseWarning(a.title);
    } else {
      ParseError(a.title);
    }
  }

  /** `Location.__str__`: the name. */
  function LocationStr(l: Location): (r: string)
    ensures r == l.name
  {
    l.name
  }

  /** The suffix `Profile.__str__` appends to the user name. */
  const ProfileSuffix: string := "'s profile"

  /** `Profile.__str__`: the owner's user name followed by "'s profile". */
  function ProfileStr(p: Profile): (r: string)
    ensures |r| == |p.username| + 10
    ensures r[..|p.username|] == p.username && EndsWith(r, ProfileSuffix)
  {
    EndsWithConcat(p.username, ProfileSuffix);
    p.username + ProfileSuffix
  }

  /** Reads the owner's user name back from a profile's display text. */
  function ProfileOwner(s: string): Option<string>
  {
    if EndsWith(s, ProfileSuffix) then
      Some(s[..|s| - |ProfileSuffix|])
    else None
  }

  /** A profile's display text names its owner. */
  lemma ProfileStrRoundTrip(p: Profile)
    ensures ProfileOwner(ProfileStr(p)) == Some(p.username)
  {
    var s := ProfileStr(p);
    assert s[|s| - |ProfileSuffix|..] == ProfileSuffix;
    assert s[..|s| - |ProfileSuffix|] == p.username;
  }

  /** `Alert.Meta.ordering = ['-created_at']`: newest first. */
  predicate NewestFirst(s: seq<Alert>)
  {
    forall i, j :: 0 <= i < j < |s| ==> s[i].createdAt >= s[j].createdAt
  }

  /** No alert of `s` is newer than time `t`. */
  predicate NoneNewerThan(t: int, s: seq<Alert>)
  {
    forall y :: y in s ==> t >= y.createdAt
  }

  /** The head of a newest-first sequence is not older than the rest. */
  lemma NewestFirstHead(s: seq<Alert>)
    requires NewestFirst(s) && s != []
    ensures NoneNewerThan(s[0].createdAt, s[1..])
  {
    forall y | y in s[1..] ensures s[0].createdAt >= y.createdAt {
      var k :| 0 <= k < |s[1..]| && s[1..][k] == y;
      assert s[k + 1] == y;
    }
  }

  /** An alert not older than any of a newest-first sequence may lead it. */
  lemma NewestFirstCons(x: Alert, s: seq<Alert>)
    requires NewestFirst(s) && NoneNewerThan(x.createdAt, s)
    ensures NewestFirst([x] + s)
  {
    var r := [x] + s;
    forall i, j | 0 <= i < j < |r| ensures r[i].createdAt >= r[j].createdAt {
      assert r[j] == s[j - 1] && r[j] in s;
      if i > 0 { assert r[i] == s[i - 1]; }
    }
  }

  /** Puts `x` into a newest-first sequence, ahead of every alert it is not
      older than. */
  function InsertNewest(x: Alert, s: seq<Alert>): (r: seq<Alert>)
    requires NewestFirst(s)
    ensures NewestFirst(r)
    ensures multiset(r) == multiset(s) + multiset{x}
  {
    if s == [] then [x]
    else if x.createdAt >= s[0].createdAt then
      NewestFirstHead(s);
      assert s == [s[0]] + s[1..];
      NewestFirstCons(x, s);
      [x] + s
    else
      var rest := InsertNewest(x, s[1..]);
      NewestFirstHead(s);
      assert s == [s[0]] + s[1..];
      assert forall y :: y in rest ==> y in multiset(s[1..]) + multiset{x};
      NewestFirstCons(s[0], rest);
      [s[0]] + rest
  }

  /** The alerts of `s` in the default listing order. */
  function SortNewestFirst(s: seq<Alert>): (r: seq<Alert>)
    ensures NewestFirst(r)
    ensures multiset(r) == multiset(s)
  {
    if s == [] then []
    else
      assert s == [s[0]] + s[1..];
      InsertNewest(s[0], SortNewestFirst(s[1..]))
  }

  /** `Location.Meta.ordering = ['name']`: names ascending. */
  predicate ByName(s: seq<Location>)
  {
    forall i, j :: 0 <= i < j < |s| ==> LexLe(s[i].name, s[j].name)
  }

  /** Every name in `s` is at least `n`. */
  predicate NoNameBelow(n: string, s: seq<Location>)
  {
    forall y :: y in s ==> LexLe(n, y.name)
  }

  /** The head of a name-ordered sequence is at most the rest. */
  lemma ByNameHead(s: seq<Location>)
    requires ByName(s) && s != []
    ensures NoNameBelow(s[0].name, s[1..])
  {
    forall y | y in s[1..] ensures LexLe(s[0].name, y.name) {
      var k :| 0 <= k < |s[1..]| && s[1..][k] == y;
      assert s[k + 1] == y;
    }
  }

  /** A location whose name is at most every name of a name-ordered
      sequence may lead it. */
  lemma ByNameCons(x: Location, s: seq<Location>)
    requires ByName(s) && NoNameBelow(x.name, s)
    ensures ByName([x] + s)
  {
    var r := [x] + s;
    forall i, j | 0 <= i < j < |r| ensures LexLe(r[i].name, r[j].name) {
      assert r[j] == s[j - 1] && r[j] in s;
      if i > 0 { assert r[i] == s[i - 1]; }
    }
  }

  /** Puts `x` into a name-ordered sequence, ahead of every name it is at
      most. */
  function InsertByName(x: Location, s: seq<Location>): (r: seq<Location>)
    requires ByName(s)
    ensures ByName(r)
    ensures multiset(r) == multiset(s) + multiset{x}
  {
    if s == [] then [x]
    else if LexLe(x.name, s[0].name) then
      ByNameHead(s);
      assert s == [s[0]] + s[1..];
      forall y | y in s ensures LexLe(x.name, y.name) {
        if y != s[0] { LexLeTransitive(x.name, s[0].name, y.name); }
      }
      ByNameCons(x, s);
      [x] + s
    else
      var rest := InsertByName(x, s[1..]);
      ByNameHead(s);
      LexLeTotal(x.name, s[0].name);
      assert s == [s[0]] + s[1..];
      assert forall y :: y in rest ==> y in multiset(s[1..]) + multiset{x};
      ByNameCons(s[0], rest);
      [s[0]] + rest
  }

  /** The locations of `s` in the default listing order. */
  function SortByName(s: seq<Location>): (r: seq<Location>)
    ensures ByName(r)
    ensures multiset(r) == multiset(s)
  {
    if s == [] then []
    else
      assert s == [s[0]] + s[1..];
      InsertByName(s[0], SortByName(s[1..]))
  }
}
