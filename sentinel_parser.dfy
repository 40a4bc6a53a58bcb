/** The parser for the verbose `lsmon` dialect of Sentinel RMS (LicenseParser.cs,
    namespace LicenseParser).

    The output is read line by line. Only lines holding the block marker "|-"
    matter; each is either a header without a colon ("Feature Information",
    "License Information") or a `key : value` field. The loop keeps the dictionary
    and four locals from one line to the next: the current feature name, the last
    user named, the seats read so far for the current license block and whether
    the loop is inside a "License Information" block.

    `Step` is what one pass of the loop body does, `RunFrom` folds it over the
    lines, and `LicenseParser.ParseLicenses` is the loop itself, proved to leave
    the dictionary that `Parse` describes. */
module LicenseParser {
  import opened DotNet
  import opened LicenseManager

  const Marker: string := "|-"
  const MarkerPrefix: string := "|- "
  const HostUnresolvedText: string := "Failed to resolve the server host"

  const FeatureInformation: string := "Feature Information"
  const LicenseInformation: string := "License Information"
  const KeyFeatureName: string := "Feature name"
  const KeyFeatureVersion: string := "Feature version"
  const KeyMaxConcurrentUsers: string := "Maximum concurrent user(s)"
  const KeyExpirationDate: string := "Expiration date"
  const KeyUserName: string := "User name"
  const KeyStatus: string := "Status"
  const NoExpiration: string := "License has no expiration"
  const RunningSince: string := "Running since "

  /** The exceptions that end a pass early. */
  datatype ParseError =
    | HostUnresolved    // the WebException thrown for an unresolvable server host
    | MissingValue      // IndexOutOfRangeException: the value of a field line without a colon
    | BadNumber         // Int32.Parse: FormatException or OverflowException
    | BadDate           // DateTime.ParseExact: FormatException
    | DuplicateLicense  // Dictionary.Add: ArgumentException for a key already present

  /** DateTime.ParseExact(s, "ddd MMM dd HH:mm:ss yyyy", en-GB): the time it
      denotes, or None where the call throws. */
  type DateParser = string -> Option<Time>

  /** The dictionary and the locals the loop carries from line to line. */
  datatype State = State(
    licenseInfo: map<string, License>,
    licenseName: string,
    userName: string,
    noLicenses: Int32,
    licenseLines: bool)

  /** The state just after `licenseInfo.Clear()`. */
  const Initial: State := State(map[], "", "", 0, false)

  datatype StepResult = Next(state: State) | Abort(error: ParseError)

  /** LineMatcher: the text before the first colon with every "|- " removed and
      then trimmed, and, when the line has a colon, everything after it with every
      double quote removed and then trimmed. */
  function LineMatcher(line: string): (fields: seq<string>)
    ensures |fields| == (if ':' in line then 2 else 1)
    ensures ':' !in fields[0] && Trimmed(fields[0])
    ensures |fields| == 2 ==> '"' !in fields[1] && Trimmed(fields[1])
  {
    var parts := SplitFirst(line, ':');
    var key := Trim(Replace(parts[0], MarkerPrefix, ""));
    if |parts| == 1 then [key] else [key, Trim(Replace(parts[1], "\"", ""))]
  }

  /** `(line.IndexOf("|-") - 1) / 2` with C#'s truncating division. */
  function Level(line: string): int {
    Quot(IndexOf(line, Marker) - 1, 2)
  }

  lemma HeadersDiffer()
    ensures FeatureInformation != LicenseInformation
  {
    assert FeatureInformation[0] != LicenseInformation[0];
  }

  /** A header line: no colon at all, and the given title as its key. */
  predicate IsHeader(line: string, title: string) {
    IndexOfChar(line, ':') == -1 && LineMatcher(line)[0] == title
  }

  /** A "Feature Information" header, where a new feature starts. */
  predicate IsFeatureBoundary(line: string) {
    Contains(line, Marker) && IsHeader(line, FeatureInformation)
  }

  /** The start of a feature: the pending seats and the license mode are reset,
      and the previous feature is dropped if it still has no seats. */
  function StartFeature(st: State): (s: State)
    ensures s.noLicenses == 0 && !s.licenseLines
    ensures s.licenseName == st.licenseName && s.userName == st.userName
    ensures st.licenseName !in s.licenseInfo <==>
              st.licenseName !in st.licenseInfo || st.licenseInfo[st.licenseName].licensesAvailable == 0
    ensures forall k :: k != st.licenseName ==> (k in s.licenseInfo <==> k in st.licenseInfo)
    ensures forall k :: k in s.licenseInfo ==> k in st.licenseInfo && s.licenseInfo[k] == st.licenseInfo[k]
  {
    st.(noLicenses := 0, licenseLines := false,
        licenseInfo := if st.licenseName in st.licenseInfo && st.licenseInfo[st.licenseName].licensesAvailable == 0
                       then st.licenseInfo - {st.licenseName}
                       else st.licenseInfo)
  }

  /** The pending seats are added to the current feature and reset to 0; no other
      feature and nothing else about this one changes. */
  function Commit(st: State): (s: State)
    requires st.licenseName in st.licenseInfo
    ensures s.licenseInfo.Keys == st.licenseInfo.Keys && s.noLicenses == 0
    ensures s.licenseName == st.licenseName && s.userName == st.userName && s.licenseLines == st.licenseLines
    ensures var before, after := st.licenseInfo[st.licenseName], s.licenseInfo[st.licenseName];
            after.licensesAvailable == Add32(before.licensesAvailable, st.noLicenses) &&
            after.softwareName == before.softwareName && after.users == before.users
    ensures forall k :: k in st.licenseInfo && k != st.licenseName ==> s.licenseInfo[k] == st.licenseInfo[k]
  {
    var license := st.licenseInfo[st.licenseName];
    st.(licenseInfo := st.licenseInfo[st.licenseName := license.(licensesAvailable := Add32(license.licensesAvailable, st.noLicenses))],
        noLicenses := 0)
  }

  /** A "User name" line: a new holder with one seat, or one more seat for a
      holder already recorded; either way the user becomes the last one named,
      and no other holder, feature or seat count changes. */
  function CheckOut(st: State, user: string): (s: State)
    requires st.licenseName in st.licenseInfo
    ensures s.userName == user
    ensures s.licenseName == st.licenseName && s.noLicenses == st.noLicenses && s.licenseLines == st.licenseLines
    ensures s.licenseInfo.Keys == st.licenseInfo.Keys
    ensures forall k :: k in st.licenseInfo && k != st.licenseName ==> s.licenseInfo[k] == st.licenseInfo[k]
    ensures var before, after := st.licenseInfo[st.licenseName], s.licenseInfo[st.licenseName];
            after.softwareName == before.softwareName && after.licensesAvailable == before.licensesAvailable &&
            after.users.Keys == before.users.Keys + {user} &&
            (forall u :: u in before.users && u != user ==> after.users[u] == before.users[u]) &&
            (user in before.users ==>
               after.users[user] == before.users[user].(licensesInUse := Add32(before.users[user].licensesInUse, 1))) &&
            (user !in before.users ==> after.users[user] == LicenseUser(user, 1, DefaultTime))
  {
    var license := st.licenseInfo[st.licenseName];
    var holder := if user in license.users
                  then license.users[user].(licensesInUse := Add32(license.users[user].licensesInUse, 1))
                  else NewLicenseUser(user);
    st.(userName := user,
        licenseInfo := st.licenseInfo[st.licenseName := license.(users := license.users[user := holder])])
  }

  /** A "Status" line: the checkout time of the last user named, and nothing else. */
  function SetDateOpened(st: State, checkoutTime: Time): (s: State)
    requires st.licenseName in st.licenseInfo && st.userName in st.licenseInfo[st.licenseName].users
    ensures s.licenseName == st.licenseName && s.userName == st.userName
    ensures s.noLicenses == st.noLicenses && s.licenseLines == st.licenseLines
    ensures s.licenseInfo.Keys == st.licenseInfo.Keys
    ensures forall k :: k in st.licenseInfo && k != st.licenseName ==> s.licenseInfo[k] == st.licenseInfo[k]
    ensures var before, after := st.licenseInfo[st.licenseName], s.licenseInfo[st.licenseName];
            after.softwareName == before.softwareName && after.licensesAvailable == before.licensesAvailable &&
            after.users.Keys == before.users.Keys &&
            (forall u :: u in before.users && u != st.userName ==> after.users[u] == before.users[u]) &&
            after.users[st.userName] == before.users[st.userName].(dateOpened := checkoutTime)
  {
    var license := st.licenseInfo[st.licenseName];
    var holder := license.users[st.userName].(dateOpened := checkoutTime);
    st.(licenseInfo := st.licenseInfo[st.licenseName := license.(users := license.users[st.userName := holder])])
  }

  /** The chain of field cases, reached for a field line once a feature name is known. */
  function FieldStep(st: State, fields: seq<string>, today: Time, parseExact: DateParser): StepResult
    requires |fields| >= 1
  {
    var key := fields[0];
    var info := st.licenseInfo;
    var name := st.licenseName;
    if key == KeyFeatureVersion && name !in info then
      if |fields| == 1 then Abort(MissingValue)
      else
        var full := name + " " + fields[1];
        if full in info then Abort(DuplicateLicense)
        else Next(st.(licenseName := full, licenseInfo := info[full := NewLicense(full)]))
    else if key == KeyMaxConcurrentUsers && st.licenseLines then
      if |fields| == 1 then Abort(MissingValue)
      else
        match ParseInt32(fields[1])
        case None => Abort(BadNumber)
        case Some(n) => Next(st.(noLicenses := Add32(st.noLicenses, n)))
    else if key == KeyExpirationDate && name in info && st.licenseLines then
      if |fields| == 1 then Abort(MissingValue)
      else if fields[1] == NoExpiration then Next(Commit(st))
      else
        match parseExact(Trim(fields[1]))
        case None => Abort(BadDate)
        case Some(expiry) => if today > expiry then Next(st.(licenseLines := false)) else Next(Commit(st))
    else if key == KeyUserName && name in info then
      if |fields| == 1 then Abort(MissingValue) else Next(CheckOut(st, fields[1]))
    else if key == KeyStatus && name in info && st.userName in info[name].users then
      if |fields| == 1 then Abort(MissingValue)
      else
        match parseExact(Trim(Replace(fields[1], RunningSince, "")))
        case None => Abort(BadDate)
        case Some(checkoutTime) => Next(SetDateOpened(st, checkoutTime))
    else Next(st)
  }

  /** The license mode ends, and the pending seats are dropped, at a field line of
      level 1 inside a "License Information" block. */
  function Leave(st: State, level: int): State {
    if st.licenseLines && level == 1 then st.(licenseLines := false, noLicenses := 0) else st
  }

  /** A field line, already split into key and value, at the given level. */
  function FieldLineEffect(st: State, fields: seq<string>, level: int, today: Time, parseExact: DateParser): StepResult
    requires |fields| >= 1
  {
    if fields[0] == KeyFeatureName && |fields| == 1 then Abort(MissingValue)
    else
      var name := if fields[0] == KeyFeatureName then fields[1] else st.licenseName;
      var s := Leave(st, level).(licenseName := name);
      if |name| == 0 then Next(s) else FieldStep(s, fields, today, parseExact)
  }

  /** One pass of the loop body for one line. */
  function Step(st: State, line: string, today: Time, parseExact: DateParser): StepResult {
    if !Contains(line, Marker) then
      if Contains(line, HostUnresolvedText) then Abort(HostUnresolved) else Next(st)
    else if IsHeader(line, FeatureInformation) then
      Next(StartFeature(st))
    else if IsHeader(line, LicenseInformation) then
      Next(st.(licenseLines := true))
    else
      FieldLineEffect(st, LineMatcher(line), Level(line), today, parseExact)
  }

  lemma FieldLineIsStep(st: State, line: string, today: Time, parseExact: DateParser)
    requires Contains(line, Marker) && !IsHeader(line, FeatureInformation) && !IsHeader(line, LicenseInformation)
    ensures Step(st, line, today, parseExact) ==
              FieldLineEffect(st, LineMatcher(line), Quot(IndexOf(line, Marker) - 1, 2), today, parseExact)
  {
  }

  /** The loop over the remaining lines, from state st. */
  function RunFrom(st: State, lines: seq<string>, today: Time, parseExact: DateParser): Outcome<ParseError>
    decreases |lines|
  {
    if lines == [] then Done(st.licenseInfo)
    else
      match Step(st, lines[0], today, parseExact)
      case Abort(e) => Failed(e, st.licenseInfo)
      case Next(s) => RunFrom(s, lines[1..], today, parseExact)
  }

  /** A whole pass over the output of the license monitor. */
  function Parse(srvOutput: string, today: Time, parseExact: DateParser): Outcome<ParseError> {
    RunFrom(Initial, ReadLines(srvOutput), today, parseExact)
  }

  lemma RunFromStep(st: State, lines: seq<string>, i: nat, today: Time, parseExact: DateParser)
    requires i < |lines|
    ensures RunFrom(st, lines[i..], today, parseExact) ==
              match Step(st, lines[i], today, parseExact)
              case Abort(e) => Failed(e, st.licenseInfo)
              case Next(s) => RunFrom(s, lines[i + 1..], today, parseExact)
  {
    assert lines[i..][0] == lines[i];
    assert lines[i..][1..] == lines[i + 1..];
  }

  class LicenseParser {
    var licenseInfo: map<string, License>

    constructor ()
      ensures licenseInfo == map[]
    {
      licenseInfo := map[];
    }

    /** Rebuilds licenseInfo from srvOutput, the text the license monitor printed.
        The dictionary is cleared first, so what it holds afterwards depends on
        srvOutput alone; when a pass throws, the method returns the error and
        licenseInfo keeps what the pass had built until then. */
    method ParseLicenses(srvOutput: string, today: Time, parseExact: DateParser) returns (error: Option<ParseError>)
      modifies this
      ensures Parse(srvOutput, today, parseExact) ==
                (if error.None? then Done(licenseInfo) else Failed(error.value, licenseInfo))
    {
      var lines := ReadLines(srvOutput);
      var licenseName := "";
      var userName := "";
      var noLicenses: Int32 := 0;
      var licenseLines := false;

      licenseInfo := map[];

      var i := 0;
      while i < |lines|
        invariant 0 <= i <= |lines|
        invariant RunFrom(Initial, lines, today, parseExact) ==
                    RunFrom(State(licenseInfo, licenseName, userName, noLicenses, licenseLines), lines[i..], today, parseExact)
      {
        ghost var before := State(licenseInfo, licenseName, userName, noLicenses, licenseLines);
        RunFromStep(before, lines, i, today, parseExact);
        var lineError;
        licenseName, userName, noLicenses, licenseLines, lineError :=
          ReadLine(lines[i], licenseName, userName, noLicenses, licenseLines, today, parseExact);
        i := i + 1;
        if lineError.Some? {
          return lineError;
        }
      }
      return None;
    }

    /** The body of the loop for one line; it takes the loop's locals and gives
        them back updated, or the exception the line raises. */
    method ReadLine(line: string, licenseName: string, userName: string, noLicenses: Int32,
                    licenseLines: bool, today: Time, parseExact: DateParser)
      returns (name: string, user: string, pending: Int32, inLicense: bool, error: Option<ParseError>)
      modifies this
      ensures match Step(State(old(licenseInfo), licenseName, userName, noLicenses, licenseLines), line, today, parseExact)
              case Abort(e) => error == Some(e) && licenseInfo == old(licenseInfo)
              case Next(s) => error == None && s == State(licenseInfo, name, user, pending, inLicense)
    {
      name, user, pending, inLicense, error := licenseName, userName, noLicenses, licenseLines, None;
      ghost var st := State(licenseInfo, licenseName, userName, noLicenses, licenseLines);
      if !Contains(line, Marker) {
        if Contains(line, HostUnresolvedText) {
          assert Step(st, line, today, parseExact) == Abort(HostUnresolved);
          error := Some(HostUnresolved);
        } else {
          assert Step(st, line, today, parseExact) == Next(st);
        }
        return;
      }

      var lvl := Quot(IndexOf(line, Marker) - 1, 2);

      if IndexOfChar(line, ':') == -1 && LineMatcher(line)[0] == FeatureInformation {
        assert Step(st, line, today, parseExact) == Next(StartFeature(st));
        pending := 0;
        inLicense := false;
        // Drop the previous feature if none of its licenses was unexpired.
        if name in licenseInfo && licenseInfo[name].licensesAvailable == 0 {
          licenseInfo := licenseInfo - {name};
        }
        assert StartFeature(st) == State(licenseInfo, name, user, pending, inLicense);
      } else if IndexOfChar(line, ':') == -1 && LineMatcher(line)[0] == LicenseInformation {
        HeadersDiffer();
        assert Step(st, line, today, parseExact) == Next(st.(licenseLines := true));
        inLicense := true;
      } else {
        assert !IsHeader(line, FeatureInformation) && !IsHeader(line, LicenseInformation);
        FieldLineIsStep(st, line, today, parseExact);
        name, user, pending, inLicense, error :=
          ReadFieldLine(LineMatcher(line), lvl, name, user, pending, inLicense, today, parseExact);
      }
    }

    /** A field line cut into key and value, at level lvl. */
    method ReadFieldLine(tmpline: seq<string>, lvl: int, licenseName: string, userName: string, noLicenses: Int32,
                         licenseLines: bool, today: Time, parseExact: DateParser)
      returns (name: string, user: string, pending: Int32, inLicense: bool, error: Option<ParseError>)
      requires |tmpline| >= 1
      modifies this
      ensures match FieldLineEffect(State(old(licenseInfo), licenseName, userName, noLicenses, licenseLines),
                                    tmpline, lvl, today, parseExact)
              case Abort(e) => error == Some(e) && licenseInfo == old(licenseInfo)
              case Next(s) => error == None && s == State(licenseInfo, name, user, pending, inLicense)
    {
      name, user, pending, inLicense, error := licenseName, userName, noLicenses, licenseLines, None;
      if tmpline[0] == KeyFeatureName {
        if |tmpline| < 2 {
          error := Some(MissingValue);
          return;
        }
        name := tmpline[1];
      }

      if inLicense && lvl == 1 {
        inLicense := false;
        pending := 0;
      }

      if |name| > 0 {
        name, user, pending, inLicense, error :=
          ReadField(tmpline, name, user, pending, inLicense, today, parseExact);
      }
    }

    /** The chain of field cases of the loop body, for a field line once a feature
        name is known; it takes the loop's locals and gives them back updated. */
    method ReadField(tmpline: seq<string>, licenseName: string, userName: string, noLicenses: Int32,
                     licenseLines: bool, today: Time, parseExact: DateParser)
      returns (name: string, user: string, pending: Int32, inLicense: bool, error: Option<ParseError>)
      requires |tmpline| >= 1
      modifies this
      ensures match FieldStep(State(old(licenseInfo), licenseName, userName, noLicenses, licenseLines), tmpline, today, parseExact)
              case Abort(e) => error == Some(e) && licenseInfo == old(licenseInfo)
              case Next(s) => error == None && s == State(licenseInfo, name, user, pending, inLicense)
    {
      name, user, pending, inLicense, error := licenseName, userName, noLicenses, licenseLines, None;
      if tmpline[0] == KeyFeatureVersion && name !in licenseInfo {
        if |tmpline| < 2 {
          return name, user, pending, inLicense, Some(MissingValue);
        }
        name := name + " " + tmpline[1];
        if name in licenseInfo {
          return name, user, pending, inLicense, Some(DuplicateLicense);
        }
        licenseInfo := licenseInfo[name := NewLicense(name)];
      } else if tmpline[0] == KeyMaxConcurrentUsers && inLicense {
        if |tmpline| < 2 {
          return name, user, pending, inLicense, Some(MissingValue);
        }
        var seats := ParseInt32(tmpline[1]);
        if seats.None? {
          return name, user, pending, inLicense, Some(BadNumber);
        }
        pending := Add32(pending, seats.value);
      } else if tmpline[0] == KeyExpirationDate && name in licenseInfo && inLicense {
        if |tmpline| < 2 {
          return name, user, pending, inLicense, Some(MissingValue);
        }
        if tmpline[1] != NoExpiration {
          var licenseExpiry := parseExact(Trim(tmpline[1]));
          if licenseExpiry.None? {
            return name, user, pending, inLicense, Some(BadDate);
          }
          if today > licenseExpiry.value {
            // An expired license: leave license mode, keep the pending seats.
            inLicense := false;
            return;
          }
        }
        var license := licenseInfo[name];
        licenseInfo := licenseInfo[name := license.(licensesAvailable := Add32(license.licensesAvailable, pending))];
        pending := 0;
      } else if tmpline[0] == KeyUserName && name in licenseInfo {
        if |tmpline| < 2 {
          return name, user, pending, inLicense, Some(MissingValue);
        }
        user := tmpline[1];
        var license := licenseInfo[name];
        if user !in license.users {
          licenseInfo := licenseInfo[name := license.(users := license.users[user := NewLicenseUser(user)])];
        } else {
          var holder := license.users[user];
          licenseInfo := licenseInfo[name := license.(users := license.users[user := holder.(licensesInUse := Add32(holder.licensesInUse, 1))])];
        }
      } else if tmpline[0] == KeyStatus && name in licenseInfo && user in licenseInfo[name].users {
        if |tmpline| < 2 {
          return name, user, pending, inLicense, Some(MissingValue);
        }
        var checkoutTime := parseExact(Trim(Replace(tmpline[1], RunningSince, "")));
        if checkoutTime.None? {
          return name, user, pending, inLicense, Some(BadDate);
        }
        var license := licenseInfo[name];
        var holder := license.users[user].(dateOpened := checkoutTime.value);
        licenseInfo := licenseInfo[name := license.(users := license.users[user := holder])];
      }
    }

    method LicensesInUse(softwareName: string, now: Time) returns (userList: seq<string>, ghost order: seq<string>)
      ensures IsUsageReport(licenseInfo, softwareName, now, userList, order)
      ensures |userList| >= 1
    {
      userList, order := UsageReport(licenseInfo, softwareName, now);
    }
  }

  // ---------------------------------------------------------------------------
  // Lines of the report, and how LineMatcher reads them back

  /** A field name as the report prints it: non-empty, trimmed, and free of the
      characters that delimit the marker and the value. */
  predicate IsKey(key: string) {
    key != [] && Trimmed(key) && ':' !in key && '|' !in key
  }

  /** A field value as the parser hands it on: trimmed and without double quotes
      (it may hold further colons). */
  predicate IsValue(value: string) {
    Trimmed(value) && '"' !in value
  }

  /** `<indent>|- <key><pad>: <value>`, the value optionally in double quotes. */
  function FieldLine(indent: string, key: string, pad: string, value: string, quoted: bool): string {
    indent + MarkerPrefix + key + pad + ": " + (if quoted then "\"" + value + "\"" else value)
  }

  /** `<indent>|- <title>`, a block header. */
  function HeaderLine(indent: string, title: string): string {
    indent + MarkerPrefix + title
  }

  lemma WhiteSpaceIsNoDelimiter(s: string)
    requires AllWhiteSpace(s)
    ensures ':' !in s && '|' !in s && '"' !in s
  {
    assert forall i :: 0 <= i < |s| ==> IsWhiteSpace(s[i]);
  }

  lemma RemovePrefixAbsent(rest: string)
    requires '|' !in rest
    ensures Replace(rest, MarkerPrefix, "") == rest
  {
    ReplaceSkips(rest, [], MarkerPrefix, "");
    assert rest + [] == rest;
  }

  lemma RemovePrefix(indent: string, rest: string)
    requires '|' !in rest && '|' !in indent
    ensures Replace(indent + MarkerPrefix + rest, MarkerPrefix, "") == indent + rest
  {
    RemovePrefixAbsent(rest);
    ReplaceFront(MarkerPrefix, rest, "");
    assert indent + MarkerPrefix + rest == indent + (MarkerPrefix + rest);
    ReplaceSkips(indent, MarkerPrefix + rest, MarkerPrefix, "");
  }

  lemma KeyHasNoColon(indent: string, key: string, pad: string)
    requires AllWhiteSpace(indent) && AllWhiteSpace(pad) && IsKey(key)
    ensures ':' !in indent + MarkerPrefix + key + pad
  {
    WhiteSpaceIsNoDelimiter(indent);
    WhiteSpaceIsNoDelimiter(pad);
  }

  lemma KeyReplaced(indent: string, key: string, pad: string)
    requires AllWhiteSpace(indent) && AllWhiteSpace(pad) && IsKey(key)
    ensures Replace(indent + MarkerPrefix + key + pad, MarkerPrefix, "") == indent + key + pad
  {
    WhiteSpaceIsNoDelimiter(indent);
    WhiteSpaceIsNoDelimiter(pad);
    RemovePrefix(indent, key + pad);
    assert indent + MarkerPrefix + key + pad == indent + MarkerPrefix + (key + pad);
    assert indent + (key + pad) == indent + key + pad;
  }

  /** The key part of a line: removing the marker prefix and trimming gives the key. */
  lemma KeyPart(indent: string, key: string, pad: string)
    requires AllWhiteSpace(indent) && AllWhiteSpace(pad) && IsKey(key)
    ensures ':' !in indent + MarkerPrefix + key + pad
    ensures Trim(Replace(indent + MarkerPrefix + key + pad, MarkerPrefix, "")) == key
  {
    KeyHasNoColon(indent, key, pad);
    KeyReplaced(indent, key, pad);
    TrimPadded(indent, key, pad);
  }

  lemma QuotesRemoved(value: string, quoted: bool)
    requires '"' !in value
    ensures Replace(" " + (if quoted then "\"" + value + "\"" else value), "\"", "") == " " + value
  {
    var q := "\"";
    ReplaceSkips(value, [], q, "");
    assert value + [] == value;
    if quoted {
      ReplaceFront(q, [], "");
      assert q == q + [];
      ReplaceSkips(value, q, q, "");
      ReplaceFront(q, value + q, "");
      assert " " + (q + value + q) == " " + (q + (value + q));
      ReplaceSkips(" ", q + (value + q), q, "");
    } else {
      ReplaceSkips(" ", value, q, "");
    }
  }

  /** The value part of a line: removing the quotes and trimming gives the value. */
  lemma ValuePart(value: string, quoted: bool)
    requires IsValue(value)
    ensures Trim(Replace(" " + (if quoted then "\"" + value + "\"" else value), "\"", "")) == value
  {
    QuotesRemoved(value, quoted);
    assert " " + value == " " + value + [];
    TrimPadded(" ", value, []);
  }

  /** The marker is found right after an indentation that holds no '|'. */
  lemma MarkerAfterIndent(indent: string, rest: string)
    requires '|' !in indent
    ensures IndexOf(indent + MarkerPrefix + rest, Marker) == |indent|
  {
    var line := indent + MarkerPrefix + rest;
    assert line[..|indent|] == indent;
    assert line[|indent|..|indent| + |Marker|] == Marker;
    IndexOfAt(line, Marker, |indent|);
  }

  lemma FieldLineSplits(indent: string, key: string, pad: string, value: string, quoted: bool)
    requires AllWhiteSpace(indent) && AllWhiteSpace(pad) && IsKey(key)
    ensures SplitFirst(FieldLine(indent, key, pad, value, quoted), ':') ==
              [indent + MarkerPrefix + key + pad, " " + (if quoted then "\"" + value + "\"" else value)]
  {
    var a := indent + MarkerPrefix + key + pad;
    var b := " " + (if quoted then "\"" + value + "\"" else value);
    assert FieldLine(indent, key, pad, value, quoted) == a + [':'] + b;
    KeyHasNoColon(indent, key, pad);
    SplitFirstAt(a, ':', b);
  }

  lemma FieldLineMarker(indent: string, key: string, pad: string, value: string, quoted: bool)
    requires AllWhiteSpace(indent)
    ensures IndexOf(FieldLine(indent, key, pad, value, quoted), Marker) == |indent|
  {
    WhiteSpaceIsNoDelimiter(indent);
    var rest := key + pad + ": " + (if quoted then "\"" + value + "\"" else value);
    assert FieldLine(indent, key, pad, value, quoted) == indent + MarkerPrefix + rest;
    MarkerAfterIndent(indent, rest);
  }

  /** LineMatcher reads a field line back as its key and its value, and the marker
      sits right after the indentation. */
  lemma LineMatcherFieldLine(indent: string, key: string, pad: string, value: string, quoted: bool)
    requires AllWhiteSpace(indent) && AllWhiteSpace(pad) && IsKey(key) && IsValue(value)
    ensures var line := FieldLine(indent, key, pad, value, quoted);
            ':' in line && LineMatcher(line) == [key, value] &&
            IndexOf(line, Marker) == |indent| && Contains(line, Marker)
  {
    var line := FieldLine(indent, key, pad, value, quoted);
    FieldLineSplits(indent, key, pad, value, quoted);
    KeyPart(indent, key, pad);
    ValuePart(value, quoted);
    FieldLineMarker(indent, key, pad, value, quoted);
  }

  /** LineMatcher reads a header line back as its title alone. */
  lemma LineMatcherHeaderLine(indent: string, title: string)
    requires AllWhiteSpace(indent) && IsKey(title)
    ensures var line := HeaderLine(indent, title);
            ':' !in line && IndexOfChar(line, ':') == -1 && LineMatcher(line) == [title] &&
            IndexOf(line, Marker) == |indent| && Contains(line, Marker)
  {
    var line := HeaderLine(indent, title);
    assert line == indent + MarkerPrefix + title + [];
    KeyPart(indent, title, []);
    WhiteSpaceIsNoDelimiter(indent);
    MarkerAfterIndent(indent, title);
  }

  // ---------------------------------------------------------------------------
  // What each kind of line does

  /** Step on a field line is FieldLineEffect on its key and value at its level. */
  lemma FieldLineStep(st: State, indent: string, key: string, pad: string, value: string, quoted: bool,
                      today: Time, parseExact: DateParser)
    requires AllWhiteSpace(indent) && AllWhiteSpace(pad) && IsKey(key) && IsValue(value)
    ensures Step(st, FieldLine(indent, key, pad, value, quoted), today, parseExact) ==
              FieldLineEffect(st, [key, value], Quot(|indent| - 1, 2), today, parseExact)
  {
    var line := FieldLine(indent, key, pad, value, quoted);
    LineMatcherFieldLine(indent, key, pad, value, quoted);
    assert !IsHeader(line, FeatureInformation) && !IsHeader(line, LicenseInformation);
  }

  /** A field other than "Feature name", in a state with a feature name and no
      level change, goes straight to the field cases. */
  lemma FieldLineEffectKnown(st: State, key: string, value: string, level: int, today: Time, parseExact: DateParser)
    requires key != KeyFeatureName && st.licenseName != [] && !(st.licenseLines && level == 1)
    ensures FieldLineEffect(st, [key, value], level, today, parseExact) == FieldStep(st, [key, value], today, parseExact)
  {
    assert Leave(st, level).(licenseName := st.licenseName) == st;
  }

  /** A "Feature name" line names the current feature and changes nothing else
      beyond the level check. */
  lemma FeatureNameStep(st: State, indent: string, pad: string, name: string, quoted: bool,
                        today: Time, parseExact: DateParser)
    requires AllWhiteSpace(indent) && AllWhiteSpace(pad) && IsValue(name)
    ensures Step(st, FieldLine(indent, KeyFeatureName, pad, name, quoted), today, parseExact) ==
              Next(Leave(st, Quot(|indent| - 1, 2)).(licenseName := name))
  {
    FieldLineStep(st, indent, KeyFeatureName, pad, name, quoted, today, parseExact);
  }

  /** Neither a level-1 field line inside a "License Information" block, which
      ends it, nor anything else that the level check changes. */
  predicate StaysInBlock(st: State, indent: string) {
    !(st.licenseLines && Quot(|indent| - 1, 2) == 1)
  }

  lemma TrimValue(value: string)
    requires Trimmed(value)
    ensures Trim(value) == value
  {
    assert [] + value + [] == value;
    TrimPadded([], value, []);
  }

  /** "Feature version" under a bare feature name creates the entry
      `name + " " + version` with no seats and no users and makes it the current
      feature, unless that entry exists already, in which case Dictionary.Add
      throws; once the current name is an entry the line does nothing. */
  lemma FeatureVersionStep(st: State, indent: string, pad: string, version: string, quoted: bool,
                           today: Time, parseExact: DateParser)
    requires AllWhiteSpace(indent) && AllWhiteSpace(pad) && IsValue(version)
    requires st.licenseName != [] && StaysInBlock(st, indent)
    ensures var full := st.licenseName + " " + version;
            var r := Step(st, FieldLine(indent, KeyFeatureVersion, pad, version, quoted), today, parseExact);
            (st.licenseName !in st.licenseInfo && full in st.licenseInfo ==> r == Abort(DuplicateLicense)) &&
            (st.licenseName !in st.licenseInfo && full !in st.licenseInfo ==>
               r == Next(st.(licenseName := full, licenseInfo := st.licenseInfo[full := License(full, 0, map[])]))) &&
            (st.licenseName in st.licenseInfo ==> r == Next(st))
  {
    FieldLineStep(st, indent, KeyFeatureVersion, pad, version, quoted, today, parseExact);
    FieldLineEffectKnown(st, KeyFeatureVersion, version, Quot(|indent| - 1, 2), today, parseExact);
  }

  /** "Maximum concurrent user(s)" adds its number to the pending seats inside a
      "License Information" block, aborts when the number does not parse, and is
      ignored outside such a block. */
  lemma MaxUsersStep(st: State, indent: string, pad: string, value: string, quoted: bool,
                     today: Time, parseExact: DateParser)
    requires AllWhiteSpace(indent) && AllWhiteSpace(pad) && IsValue(value)
    requires st.licenseName != [] && StaysInBlock(st, indent)
    ensures var r := Step(st, FieldLine(indent, KeyMaxConcurrentUsers, pad, value, quoted), today, parseExact);
            (st.licenseLines && ParseInt32(value).None? ==> r == Abort(BadNumber)) &&
            (st.licenseLines && ParseInt32(value).Some? ==>
               r == Next(st.(noLicenses := Add32(st.noLicenses, ParseInt32(value).value)))) &&
            (!st.licenseLines ==> r == Next(st))
  {
    FieldLineStep(st, indent, KeyMaxConcurrentUsers, pad, value, quoted, today, parseExact);
    FieldLineEffectKnown(st, KeyMaxConcurrentUsers, value, Quot(|indent| - 1, 2), today, parseExact);
  }

  /** "Expiration date" inside a "License Information" block of a known feature:
      without an expiry, or with one not before today, the pending seats are
      committed; with one before today the license mode ends and nothing is added,
      though the pending seats are kept; a date that does not parse aborts. */
  lemma ExpirationStep(st: State, indent: string, pad: string, value: string, quoted: bool,
                       today: Time, parseExact: DateParser)
    requires AllWhiteSpace(indent) && AllWhiteSpace(pad) && IsValue(value)
    requires st.licenseName != [] && st.licenseName in st.licenseInfo && StaysInBlock(st, indent)
    ensures var r := Step(st, FieldLine(indent, KeyExpirationDate, pad, value, quoted), today, parseExact);
            (st.licenseLines && value == NoExpiration ==> r == Next(Commit(st))) &&
            (st.licenseLines && value != NoExpiration && parseExact(value).None? ==> r == Abort(BadDate)) &&
            (st.licenseLines && value != NoExpiration && parseExact(value).Some? ==>
               r == if today > parseExact(value).value then Next(st.(licenseLines := false)) else Next(Commit(st))) &&
            (!st.licenseLines ==> r == Next(st))
  {
    FieldLineStep(st, indent, KeyExpirationDate, pad, value, quoted, today, parseExact);
    FieldLineEffectKnown(st, KeyExpirationDate, value, Quot(|indent| - 1, 2), today, parseExact);
    var r := FieldStep(st, [KeyExpirationDate, value], today, parseExact);
    TrimValue(value);
    if st.licenseLines && value != NoExpiration {
      assert r == match parseExact(value)
                  case None => Abort(BadDate)
                  case Some(expiry) => if today > expiry then Next(st.(licenseLines := false)) else Next(Commit(st));
    }
  }

  /** "User name" under a known feature checks out one more seat for that user. */
  lemma UserNameStep(st: State, indent: string, pad: string, user: string, quoted: bool,
                     today: Time, parseExact: DateParser)
    requires AllWhiteSpace(indent) && AllWhiteSpace(pad) && IsValue(user)
    requires st.licenseName != [] && st.licenseName in st.licenseInfo && StaysInBlock(st, indent)
    ensures Step(st, FieldLine(indent, KeyUserName, pad, user, quoted), today, parseExact) == Next(CheckOut(st, user))
  {
    FieldLineStep(st, indent, KeyUserName, pad, user, quoted, today, parseExact);
    FieldLineEffectKnown(st, KeyUserName, user, Quot(|indent| - 1, 2), today, parseExact);
  }

  /** A "Status" line sets the checkout time of the last user named, to the time
      its value denotes once "Running since " is removed, when that user is a
      holder of the current feature; it aborts when the time does not parse, and
      does nothing when there is no such holder. */
  lemma StatusStep(st: State, indent: string, pad: string, value: string, quoted: bool,
                   today: Time, parseExact: DateParser)
    requires AllWhiteSpace(indent) && AllWhiteSpace(pad) && IsValue(value)
    requires st.licenseName != [] && st.licenseName in st.licenseInfo && StaysInBlock(st, indent)
    ensures var r := Step(st, FieldLine(indent, KeyStatus, pad, value, quoted), today, parseExact);
            var time := Trim(Replace(value, RunningSince, ""));
            (st.userName in st.licenseInfo[st.licenseName].users && parseExact(time).None? ==> r == Abort(BadDate)) &&
            (st.userName in st.licenseInfo[st.licenseName].users && parseExact(time).Some? ==>
               r == Next(SetDateOpened(st, parseExact(time).value))) &&
            (st.userName !in st.licenseInfo[st.licenseName].users ==> r == Next(st))
  {
    FieldLineStep(st, indent, KeyStatus, pad, value, quoted, today, parseExact);
    FieldLineEffectKnown(st, KeyStatus, value, Quot(|indent| - 1, 2), today, parseExact);
    StatusField(st, value, Trim(Replace(value, RunningSince, "")), today, parseExact);
  }

  lemma StatusField(st: State, value: string, time: string, today: Time, parseExact: DateParser)
    requires st.licenseName in st.licenseInfo
    requires Trim(Replace(value, RunningSince, "")) == time
    ensures var r := FieldStep(st, [KeyStatus, value], today, parseExact);
            (st.userName in st.licenseInfo[st.licenseName].users && parseExact(time).None? ==> r == Abort(BadDate)) &&
            (st.userName in st.licenseInfo[st.licenseName].users && parseExact(time).Some? ==>
               r == Next(SetDateOpened(st, parseExact(time).value))) &&
            (st.userName !in st.licenseInfo[st.licenseName].users ==> r == Next(st))
  {
    var fields := [KeyStatus, value];
    assert fields[0] == KeyStatus && |fields| == 2 && fields[1] == value;
    StatusKeyDiffers();
    var r := FieldStep(st, fields, today, parseExact);
    if st.userName in st.licenseInfo[st.licenseName].users {
      assert r == match parseExact(time)
                  case None => Abort(BadDate)
                  case Some(checkoutTime) => Next(SetDateOpened(st, checkoutTime));
    } else {
      assert r == Next(st);
    }
  }

  lemma StatusKeyDiffers()
    ensures KeyStatus != KeyFeatureVersion && KeyStatus != KeyMaxConcurrentUsers
    ensures KeyStatus != KeyExpirationDate && KeyStatus != KeyUserName
  {
    assert KeyStatus[0] == 'S';
    assert KeyFeatureVersion[0] == 'F' && KeyMaxConcurrentUsers[0] == 'M';
    assert KeyExpirationDate[0] == 'E' && KeyUserName[0] == 'U';
  }

  /** A value "Running since <time>", for a timestamp without an 'R' (none of the
      English day and month abbreviations has one), is read as that timestamp. */
  lemma RunningSinceValue(time: string)
    requires time != [] && Trimmed(time) && '"' !in time && 'R' !in time
    ensures IsValue(RunningSince + time)
    ensures Trim(Replace(RunningSince + time, RunningSince, "")) == time
  {
    RunningSinceIsValue(time);
    RunningSinceRemoved(time);
    TrimValue(time);
  }

  lemma RunningSinceIsValue(time: string)
    requires time != [] && Trimmed(time) && '"' !in time
    ensures IsValue(RunningSince + time)
  {
    var value := RunningSince + time;
    assert value[0] == 'R' && value[|value| - 1] == time[|time| - 1];
    assert forall i :: 0 <= i < |value| ==> value[i] == if i < |RunningSince| then RunningSince[i] else time[i - |RunningSince|];
  }

  lemma RunningSinceRemoved(time: string)
    requires 'R' !in time
    ensures Replace(RunningSince + time, RunningSince, "") == time
  {
    ReplaceFront(RunningSince, time, "");
    ReplaceSkips(time, [], RunningSince, "");
    assert time + [] == time;
  }

  /** A "Feature Information" header starts a new feature. */
  lemma FeatureInformationStep(st: State, indent: string, today: Time, parseExact: DateParser)
    requires AllWhiteSpace(indent)
    ensures IsFeatureBoundary(HeaderLine(indent, FeatureInformation))
    ensures Step(st, HeaderLine(indent, FeatureInformation), today, parseExact) == Next(StartFeature(st))
  {
    LineMatcherHeaderLine(indent, FeatureInformation);
  }

  /** A "License Information" header switches the license mode on, and nothing else. */
  lemma LicenseInformationStep(st: State, indent: string, today: Time, parseExact: DateParser)
    requires AllWhiteSpace(indent)
    ensures Step(st, HeaderLine(indent, LicenseInformation), today, parseExact) == Next(st.(licenseLines := true))
  {
    LineMatcherHeaderLine(indent, LicenseInformation);
    assert !IsHeader(HeaderLine(indent, LicenseInformation), FeatureInformation);
  }

  // ---------------------------------------------------------------------------
  // What a whole pass keeps

  /** An entry filed under its own name, which is not empty, with every holder
      filed under its own user name. */
  predicate GoodEntry(k: string, license: License) {
    k != [] && license.softwareName == k &&
    forall u :: u in license.users ==> license.users[u].userName == u
  }

  predicate WellKeyed(info: map<string, License>) {
    forall k :: k in info ==> GoodEntry(k, info[k])
  }

  lemma WellKeyedUpdate(info: map<string, License>, k: string, license: License)
    requires WellKeyed(info) && GoodEntry(k, license)
    ensures WellKeyed(info[k := license])
  {
  }

  lemma FieldStepKeepsWellKeyed(st: State, fields: seq<string>, today: Time, parseExact: DateParser)
    requires |fields| >= 1 && st.licenseName != [] && WellKeyed(st.licenseInfo)
    ensures FieldStep(st, fields, today, parseExact).Next? ==>
              WellKeyed(FieldStep(st, fields, today, parseExact).state.licenseInfo)
  {
    var info := st.licenseInfo;
    var name := st.licenseName;
    var key := fields[0];
    if key == KeyFeatureVersion && name !in info {
      if |fields| >= 2 {
        var full := name + " " + fields[1];
        WellKeyedUpdate(info, full, NewLicense(full));
      }
    } else if key == KeyMaxConcurrentUsers && st.licenseLines {
    } else if key == KeyExpirationDate && name in info && st.licenseLines {
      CommitKeepsWellKeyed(st);
    } else if key == KeyUserName && name in info {
      if |fields| >= 2 {
        assert FieldStep(st, fields, today, parseExact) == Next(CheckOut(st, fields[1]));
        CheckOutKeepsWellKeyed(st, fields[1]);
      }
    } else if key == KeyStatus && name in info && st.userName in info[name].users {
      if |fields| >= 2 && parseExact(Trim(Replace(fields[1], RunningSince, ""))).Some? {
        var time := parseExact(Trim(Replace(fields[1], RunningSince, "")));
        assert FieldStep(st, fields, today, parseExact) == Next(SetDateOpened(st, time.value));
        SetDateOpenedKeepsWellKeyed(st, time.value);
      }
    }
  }

  lemma CommitKeepsWellKeyed(st: State)
    requires st.licenseName in st.licenseInfo && WellKeyed(st.licenseInfo)
    ensures WellKeyed(Commit(st).licenseInfo)
  {
    assert GoodEntry(st.licenseName, st.licenseInfo[st.licenseName]);
    WellKeyedUpdate(st.licenseInfo, st.licenseName, Commit(st).licenseInfo[st.licenseName]);
    assert Commit(st).licenseInfo == st.licenseInfo[st.licenseName := Commit(st).licenseInfo[st.licenseName]];
  }

  lemma CheckOutKeepsWellKeyed(st: State, user: string)
    requires st.licenseName in st.licenseInfo && WellKeyed(st.licenseInfo)
    ensures WellKeyed(CheckOut(st, user).licenseInfo)
  {
    var name := st.licenseName;
    assert GoodEntry(name, st.licenseInfo[name]);
    var after := CheckOut(st, user).licenseInfo[name];
    assert GoodEntry(name, after);
    WellKeyedUpdate(st.licenseInfo, name, after);
    assert CheckOut(st, user).licenseInfo == st.licenseInfo[name := after];
  }

  lemma SetDateOpenedKeepsWellKeyed(st: State, checkoutTime: Time)
    requires st.licenseName in st.licenseInfo && st.userName in st.licenseInfo[st.licenseName].users
    requires WellKeyed(st.licenseInfo)
    ensures WellKeyed(SetDateOpened(st, checkoutTime).licenseInfo)
  {
    var name := st.licenseName;
    assert GoodEntry(name, st.licenseInfo[name]);
    var after := SetDateOpened(st, checkoutTime).licenseInfo[name];
    assert GoodEntry(name, after);
    WellKeyedUpdate(st.licenseInfo, name, after);
    assert SetDateOpened(st, checkoutTime).licenseInfo == st.licenseInfo[name := after];
  }

  lemma FieldLineEffectKeepsWellKeyed(st: State, fields: seq<string>, level: int, today: Time, parseExact: DateParser)
    requires |fields| >= 1 && WellKeyed(st.licenseInfo)
    ensures var r := FieldLineEffect(st, fields, level, today, parseExact);
            r.Next? ==> WellKeyed(r.state.licenseInfo)
  {
    if !(fields[0] == KeyFeatureName && |fields| == 1) {
      var name := if fields[0] == KeyFeatureName then fields[1] else st.licenseName;
      if |name| > 0 {
        FieldStepKeepsWellKeyed(Leave(st, level).(licenseName := name), fields, today, parseExact);
      }
    }
  }

  /** Every step keeps the entries well keyed. */
  lemma StepKeepsWellKeyed(st: State, line: string, today: Time, parseExact: DateParser)
    requires WellKeyed(st.licenseInfo)
    ensures Step(st, line, today, parseExact).Next? ==> WellKeyed(Step(st, line, today, parseExact).state.licenseInfo)
  {
    if !Contains(line, Marker) {
    } else if IsHeader(line, FeatureInformation) {
      var s := StartFeature(st);
      assert forall k :: k in s.licenseInfo ==> GoodEntry(k, st.licenseInfo[k]);
    } else if IsHeader(line, LicenseInformation) {
    } else {
      FieldLineEffectKeepsWellKeyed(st, LineMatcher(line), Level(line), today, parseExact);
    }
  }

  lemma {:induction false} RunFromKeepsWellKeyed(st: State, lines: seq<string>, today: Time, parseExact: DateParser)
    requires WellKeyed(st.licenseInfo)
    ensures WellKeyed(RunFrom(st, lines, today, parseExact).info)
    decreases |lines|
  {
    if lines != [] {
      StepKeepsWellKeyed(st, lines[0], today, parseExact);
      match Step(st, lines[0], today, parseExact)
      case Abort(e) =>
      case Next(s) => RunFromKeepsWellKeyed(s, lines[1..], today, parseExact);
    }
  }

  /** Whether a pass ends normally or throws, the dictionary it leaves files every
      license under its "<feature> <version>" name, held in its softwareName, and
      every holder under its user name. */
  lemma ParseWellKeyed(srvOutput: string, today: Time, parseExact: DateParser)
    ensures WellKeyed(Parse(srvOutput, today, parseExact).info)
  {
    RunFromKeepsWellKeyed(Initial, ReadLines(srvOutput), today, parseExact);
  }

  lemma FieldStepKeepsKeys(st: State, fields: seq<string>, today: Time, parseExact: DateParser)
    requires |fields| >= 1
    ensures var r := FieldStep(st, fields, today, parseExact);
            r.Next? ==> st.licenseInfo.Keys <= r.state.licenseInfo.Keys
  {
  }

  lemma FieldLineEffectKeepsKeys(st: State, fields: seq<string>, level: int, today: Time, parseExact: DateParser)
    requires |fields| >= 1
    ensures var r := FieldLineEffect(st, fields, level, today, parseExact);
            r.Next? ==> st.licenseInfo.Keys <= r.state.licenseInfo.Keys
  {
    if !(fields[0] == KeyFeatureName && |fields| == 1) {
      var name := if fields[0] == KeyFeatureName then fields[1] else st.licenseName;
      if |name| > 0 {
        FieldStepKeepsKeys(Leave(st, level).(licenseName := name), fields, today, parseExact);
      }
    }
  }

  /** Only a "Feature Information" header removes an entry. */
  lemma StepKeepsKeys(st: State, line: string, today: Time, parseExact: DateParser)
    requires !IsFeatureBoundary(line)
    ensures var r := Step(st, line, today, parseExact);
            r.Next? ==> st.licenseInfo.Keys <= r.state.licenseInfo.Keys
  {
    if Contains(line, Marker) && !IsHeader(line, LicenseInformation) {
      FieldLineEffectKeepsKeys(st, LineMatcher(line), Level(line), today, parseExact);
    }
  }

  /** Without a further "Feature Information" header no entry is removed: in
      particular the last feature of the output is kept even when it ends with no
      seats. */
  lemma {:induction false} EntriesSurviveWithoutBoundary(st: State, lines: seq<string>, today: Time, parseExact: DateParser)
    requires forall i :: 0 <= i < |lines| ==> !IsFeatureBoundary(lines[i])
    ensures st.licenseInfo.Keys <= RunFrom(st, lines, today, parseExact).info.Keys
    decreases |lines|
  {
    if lines != [] {
      StepKeepsKeys(st, lines[0], today, parseExact);
      match Step(st, lines[0], today, parseExact)
      case Abort(e) =>
      case Next(s) => EntriesSurviveWithoutBoundary(s, lines[1..], today, parseExact);
    }
  }

  /** Every entry present after the step had the same seat count before it, or
      is new with none. */
  predicate SeatsKept(before: map<string, License>, after: map<string, License>) {
    forall k :: k in after ==>
      after[k].licensesAvailable == (if k in before then before[k].licensesAvailable else 0)
  }

  /** A commit of the pending seats: an "Expiration date" field of a license that
      has no expiry or does not expire before today. */
  predicate IsCommitLine(line: string, today: Time, parseExact: DateParser) {
    var fields := LineMatcher(line);
    |fields| == 2 && fields[0] == KeyExpirationDate &&
    (fields[1] == NoExpiration || (parseExact(fields[1]).Some? && parseExact(fields[1]).value >= today))
  }

  lemma FieldStepSeats(st: State, fields: seq<string>, today: Time, parseExact: DateParser)
    requires |fields| >= 1
    ensures var r := FieldStep(st, fields, today, parseExact);
            r.Next? ==>
              SeatsKept(st.licenseInfo, r.state.licenseInfo) ||
              (st.licenseName in st.licenseInfo && st.licenseLines && r.state == Commit(st) &&
               |fields| >= 2 && fields[0] == KeyExpirationDate &&
               (fields[1] == NoExpiration ||
                (parseExact(Trim(fields[1])).Some? && parseExact(Trim(fields[1])).value >= today)))
  {
    var info := st.licenseInfo;
    var name := st.licenseName;
    var key := fields[0];
    var r := FieldStep(st, fields, today, parseExact);
    if key == KeyFeatureVersion && name !in info {
      if |fields| >= 2 && r.Next? {
        var full := name + " " + fields[1];
        assert r.state.licenseInfo == info[full := NewLicense(full)];
      }
    } else if key == KeyMaxConcurrentUsers && st.licenseLines {
    } else if key == KeyExpirationDate && name in info && st.licenseLines {
      assert SeatsKept(info, info);
      if |fields| >= 2 && fields[1] != NoExpiration && parseExact(Trim(fields[1])).Some? {
        var expiry := parseExact(Trim(fields[1])).value;
        if today > expiry {
          assert r == Next(st.(licenseLines := false));
          assert r.state.licenseInfo == info;
        } else {
          assert r == Next(Commit(st));
        }
      }
    } else if key == KeyUserName && name in info {
      if |fields| >= 2 {
        CheckOutKeepsSeats(st, fields[1]);
      }
    } else if key == KeyStatus && name in info && st.userName in info[name].users {
      if |fields| >= 2 && r.Next? {
        var t := parseExact(Trim(Replace(fields[1], RunningSince, ""))).value;
        SetDateOpenedKeepsSeats(st, t);
      }
    }
  }

  lemma CheckOutKeepsSeats(st: State, user: string)
    requires st.licenseName in st.licenseInfo
    ensures SeatsKept(st.licenseInfo, CheckOut(st, user).licenseInfo)
  {
    var s := CheckOut(st, user);
    forall k | k in s.licenseInfo
      ensures s.licenseInfo[k].licensesAvailable == st.licenseInfo[k].licensesAvailable
    {
    }
  }

  lemma SetDateOpenedKeepsSeats(st: State, checkoutTime: Time)
    requires st.licenseName in st.licenseInfo && st.userName in st.licenseInfo[st.licenseName].users
    ensures SeatsKept(st.licenseInfo, SetDateOpened(st, checkoutTime).licenseInfo)
  {
    var s := SetDateOpened(st, checkoutTime);
    forall k | k in s.licenseInfo
      ensures s.licenseInfo[k].licensesAvailable == st.licenseInfo[k].licensesAvailable
    {
    }
  }

  lemma FieldLineEffectSeats(st: State, fields: seq<string>, level: int, today: Time, parseExact: DateParser)
    requires |fields| >= 1
    ensures var r := FieldLineEffect(st, fields, level, today, parseExact);
            r.Next? ==>
              SeatsKept(st.licenseInfo, r.state.licenseInfo) ||
              (st.licenseName in st.licenseInfo && st.licenseLines && r.state == Commit(st) &&
               |fields| >= 2 && fields[0] == KeyExpirationDate &&
               (fields[1] == NoExpiration ||
                (parseExact(Trim(fields[1])).Some? && parseExact(Trim(fields[1])).value >= today)))
  {
    if !(fields[0] == KeyFeatureName && |fields| == 1) {
      var name := if fields[0] == KeyFeatureName then fields[1] else st.licenseName;
      var s0 := Leave(st, level).(licenseName := name);
      if |name| > 0 {
        FieldStepSeats(s0, fields, today, parseExact);
        var r := FieldStep(s0, fields, today, parseExact);
        assert s0.licenseInfo == st.licenseInfo;
        if r.Next? && !SeatsKept(st.licenseInfo, r.state.licenseInfo) {
          assert fields[0] == KeyExpirationDate && s0.licenseLines;
          assert s0 == st;
        }
      }
    }
  }

  /** licensesAvailable changes only by adding the pending seats, and only at an
      "Expiration date" line inside a "License Information" block whose license is
      current; the pending seats are 0 afterwards. */
  lemma SeatsChangeOnlyOnCommit(st: State, line: string, today: Time, parseExact: DateParser)
    requires Step(st, line, today, parseExact).Next?
    ensures var s := Step(st, line, today, parseExact).state;
            SeatsKept(st.licenseInfo, s.licenseInfo) ||
            (st.licenseName in st.licenseInfo && st.licenseLines && s == Commit(st) &&
             IsCommitLine(line, today, parseExact))
  {
    if !Contains(line, Marker) {
    } else if IsHeader(line, FeatureInformation) {
      var s := StartFeature(st);
      assert SeatsKept(st.licenseInfo, s.licenseInfo);
    } else if IsHeader(line, LicenseInformation) {
    } else {
      var fields := LineMatcher(line);
      FieldLineEffectSeats(st, fields, Level(line), today, parseExact);
      if |fields| == 2 {
        TrimValue(fields[1]);
      }
    }
  }

  /** A run of "User name" lines naming the same user under a known feature:
      the user's licensesInUse grows by one per line, starting at 1 for a user not
      yet recorded. */
  lemma {:induction false} CheckoutsCounted(st: State, indent: string, pad: string, user: string, quoted: bool,
                                            lines: seq<string>, today: Time, parseExact: DateParser)
    requires AllWhiteSpace(indent) && AllWhiteSpace(pad) && IsValue(user)
    requires st.licenseName != [] && st.licenseName in st.licenseInfo && StaysInBlock(st, indent)
    requires forall i :: 0 <= i < |lines| ==> lines[i] == FieldLine(indent, KeyUserName, pad, user, quoted)
    requires var users := st.licenseInfo[st.licenseName].users;
             (if user in users then users[user].licensesInUse as int else 0) + |lines| <= Int32Max
    ensures var users := st.licenseInfo[st.licenseName].users;
            var r := RunFrom(st, lines, today, parseExact);
            r.Done? && st.licenseName in r.info &&
            (lines == [] ==> r.info == st.licenseInfo) &&
            (lines != [] ==>
               user in r.info[st.licenseName].users &&
               r.info[st.licenseName].users[user].licensesInUse as int ==
                 (if user in users then users[user].licensesInUse as int else 0) + |lines|)
    decreases |lines|
  {
    if lines != [] {
      UserNameStep(st, indent, pad, user, quoted, today, parseExact);
      var s := CheckOut(st, user);
      assert RunFrom(st, lines, today, parseExact) == RunFrom(s, lines[1..], today, parseExact);
      CheckoutsCounted(s, indent, pad, user, quoted, lines[1..], today, parseExact);
    }
  }

  /** The seats a user holds of a license, 0 for a user not recorded. */
  function Held(license: License, user: string): int {
    if user in license.users then license.users[user].licensesInUse as int else 0
  }

  /** A marked "User name" field naming the user. */
  predicate NamesUser(line: string, user: string) {
    Contains(line, Marker) && LineMatcher(line) == [KeyUserName, user]
  }

  /** Split fields of a "User name" line naming the user. */
  predicate FieldNamesUser(fields: seq<string>, user: string) {
    |fields| >= 2 && fields[0] == KeyUserName && fields[1] == user
  }

  /** A line that keeps the current feature: neither a "Feature Information"
      header nor a "Feature name" field. */
  predicate KeepsFeature(line: string) {
    !Contains(line, Marker) || (!IsHeader(line, FeatureInformation) && LineMatcher(line)[0] != KeyFeatureName)
  }

  /** The number of lines that name the user in a "User name" field. */
  function Checkouts(lines: seq<string>, user: string): nat
    decreases |lines|
  {
    if lines == [] then 0 else (if NamesUser(lines[0], user) then 1 else 0) + Checkouts(lines[1..], user)
  }

  /** How one step may change the holding of one user: a naming line adds one
      and records the user, any other line leaves both alone. */
  predicate CheckedOnce(before: License, after: License, user: string, named: bool) {
    (user in after.users <==> user in before.users || named) &&
    Held(after, user) == Held(before, user) + (if named then 1 else 0)
  }

  /** The field cases, for a feature already in the dictionary, change a user's
      holding only through "User name". */
  lemma FieldStepCheckouts(st: State, fields: seq<string>, user: string, today: Time, parseExact: DateParser)
    requires |fields| >= 1 && st.licenseName in st.licenseInfo
    requires FieldNamesUser(fields, user) ==> Held(st.licenseInfo[st.licenseName], user) < Int32Max
    requires FieldStep(st, fields, today, parseExact).Next?
    ensures var s := FieldStep(st, fields, today, parseExact).state;
            s.licenseName == st.licenseName && st.licenseName in s.licenseInfo &&
            CheckedOnce(st.licenseInfo[st.licenseName], s.licenseInfo[st.licenseName], user,
                        FieldNamesUser(fields, user))
  {
    var key := fields[0];
    var before := st.licenseInfo[st.licenseName];
    if key == KeyMaxConcurrentUsers && st.licenseLines {
    } else if key == KeyExpirationDate && st.licenseLines {
    } else if key == KeyUserName {
      var s := CheckOut(st, fields[1]);
      assert FieldStep(st, fields, today, parseExact) == Next(s);
    } else if key == KeyStatus && st.userName in before.users {
    }
  }

  /** One line that keeps the feature changes a user's holding only when it names
      that user in a "User name" field. */
  lemma StepCheckouts(st: State, line: string, user: string, today: Time, parseExact: DateParser)
    requires st.licenseName != [] && st.licenseName in st.licenseInfo && KeepsFeature(line)
    requires NamesUser(line, user) ==> Held(st.licenseInfo[st.licenseName], user) < Int32Max
    requires Step(st, line, today, parseExact).Next?
    ensures var s := Step(st, line, today, parseExact).state;
            s.licenseName == st.licenseName && st.licenseName in s.licenseInfo &&
            CheckedOnce(st.licenseInfo[st.licenseName], s.licenseInfo[st.licenseName], user, NamesUser(line, user))
  {
    if !Contains(line, Marker) {
    } else if IsHeader(line, LicenseInformation) {
    } else {
      var fields := LineMatcher(line);
      var s := Leave(st, Level(line));
      assert Step(st, line, today, parseExact) == FieldStep(s, fields, today, parseExact);
      FieldStepCheckouts(s, fields, user, today, parseExact);
      assert NamesUser(line, user) <==> FieldNamesUser(fields, user);
    }
  }

  /** Every "User name" line naming a user adds one to that user's licensesInUse,
      starting at 1 for a user not recorded, whatever other lines come between
      (host names, status lines, other users, license blocks), as long as the
      feature stays the same and the pass does not throw. */
  lemma {:induction false} CheckoutsCountedAcross(st: State, lines: seq<string>, user: string,
                                                  today: Time, parseExact: DateParser)
    requires st.licenseName != [] && st.licenseName in st.licenseInfo
    requires forall i :: 0 <= i < |lines| ==> KeepsFeature(lines[i])
    requires Held(st.licenseInfo[st.licenseName], user) + Checkouts(lines, user) <= Int32Max
    requires RunFrom(st, lines, today, parseExact).Done?
    ensures var before := st.licenseInfo[st.licenseName];
            var info := RunFrom(st, lines, today, parseExact).info;
            st.licenseName in info &&
            (user in info[st.licenseName].users <==> user in before.users || Checkouts(lines, user) > 0) &&
            Held(info[st.licenseName], user) == Held(before, user) + Checkouts(lines, user)
    decreases |lines|
  {
    if lines != [] {
      assert KeepsFeature(lines[0]);
      StepCheckouts(st, lines[0], user, today, parseExact);
      var s := Step(st, lines[0], today, parseExact).state;
      assert RunFrom(st, lines, today, parseExact) == RunFrom(s, lines[1..], today, parseExact);
      CheckoutsCountedAcross(s, lines[1..], user, today, parseExact);
    }
  }

  /** Lines without the marker and without the host error change nothing. */
  lemma {:induction false} UnmarkedLinesKeepState(st: State, lines: seq<string>, today: Time, parseExact: DateParser)
    requires forall i :: 0 <= i < |lines| ==> !Contains(lines[i], Marker) && !Contains(lines[i], HostUnresolvedText)
    ensures RunFrom(st, lines, today, parseExact) == Done(st.licenseInfo)
    decreases |lines|
  {
    if lines != [] {
      UnmarkedLinesKeepState(st, lines[1..], today, parseExact);
    }
  }

  /** The first line without the marker that reports an unresolvable host ends the
      pass with that error, whatever follows. */
  lemma {:induction false} HostUnresolvedAborts(st: State, before: seq<string>, line: string, after: seq<string>,
                                                today: Time, parseExact: DateParser)
    requires forall i :: 0 <= i < |before| ==> !Contains(before[i], Marker) && !Contains(before[i], HostUnresolvedText)
    requires !Contains(line, Marker) && Contains(line, HostUnresolvedText)
    ensures RunFrom(st, before + [line] + after, today, parseExact) == Failed(HostUnresolved, st.licenseInfo)
    decreases |before|
  {
    var lines := before + [line] + after;
    if before == [] {
      assert lines[0] == line;
    } else {
      assert lines[0] == before[0];
      assert lines[1..] == before[1..] + [line] + after;
      HostUnresolvedAborts(st, before[1..], line, after, today, parseExact);
    }
  }

  // ---------------------------------------------------------------------------
  // Worked examples

  /** A value written by Int32.ToString is a valid field value. */
  lemma IntToStringIsValue(n: int)
    ensures IsValue(IntToString(n))
  {
    var r := IntToString(n);
    var d := NatToString(if n < 0 then -n else n);
    assert forall c :: c in d ==> IsDigit(c);
    assert r[|r| - 1] == d[|d| - 1] && IsDigit(r[|r| - 1]);
    if n < 0 {
      assert r == "-" + d;
      assert forall c :: c in r ==> c == '-' || c in d;
    }
  }

  /** The lines that open a feature: its header at indentation i0 and its name
      and version at level 1 (indentation i1). */
  function FeatureHeadLines(i0: string, i1: string, pad: string, name: string, version: string): seq<string> {
    [HeaderLine(i0, FeatureInformation),
     FieldLine(i1, KeyFeatureName, pad, name, true),
     FieldLine(i1, KeyFeatureVersion, pad, version, true)]
  }

  /** A "License Information" block at level 1 (indentation i1) with n seats that
      never expire, its fields deeper (indentation i2). */
  function LicenseBlockLines(i1: string, i2: string, pad: string, n: Int32): seq<string> {
    [HeaderLine(i1, LicenseInformation),
     FieldLine(i2, KeyMaxConcurrentUsers, pad, IntToString(n), false),
     FieldLine(i2, KeyExpirationDate, pad, NoExpiration, false)]
  }

  predicate FeatureLayout(i0: string, i1: string, i2: string, pad: string) {
    AllWhiteSpace(i0) && AllWhiteSpace(i1) && AllWhiteSpace(i2) && AllWhiteSpace(pad) &&
    Quot(|i2| - 1, 2) != 1
  }

  lemma RunConsNext(st: State, line: string, rest: seq<string>, s: State, today: Time, parseExact: DateParser)
    requires Step(st, line, today, parseExact) == Next(s)
    ensures RunFrom(st, [line] + rest, today, parseExact) == RunFrom(s, rest, today, parseExact)
  {
    assert ([line] + rest)[0] == line && ([line] + rest)[1..] == rest;
  }

  lemma FeatureHead(i0: string, i1: string, pad: string, name: string, version: string, rest: seq<string>,
                    today: Time, parseExact: DateParser)
    requires AllWhiteSpace(i0) && AllWhiteSpace(i1) && AllWhiteSpace(pad)
    requires name != [] && IsValue(name) && IsValue(version)
    ensures var full := name + " " + version;
            RunFrom(Initial, FeatureHeadLines(i0, i1, pad, name, version) + rest, today, parseExact) ==
              RunFrom(State(map[full := License(full, 0, map[])], full, "", 0, false), rest, today, parseExact)
  {
    var full := name + " " + version;
    var l0, l1, l2 := HeaderLine(i0, FeatureInformation), FieldLine(i1, KeyFeatureName, pad, name, true),
                      FieldLine(i1, KeyFeatureVersion, pad, version, true);
    assert FeatureHeadLines(i0, i1, pad, name, version) + rest == [l0] + ([l1] + ([l2] + rest));
    FeatureInformationStep(Initial, i0, today, parseExact);
    RunConsNext(Initial, l0, [l1] + ([l2] + rest), Initial, today, parseExact);
    var s2 := Initial.(licenseName := name);
    FeatureNameStep(Initial, i1, pad, name, true, today, parseExact);
    RunConsNext(Initial, l1, [l2] + rest, s2, today, parseExact);
    FeatureVersionStep(s2, i1, pad, version, true, today, parseExact);
    RunConsNext(s2, l2, rest, State(map[full := License(full, 0, map[])], full, "", 0, false), today, parseExact);
  }

  lemma LicenseSeats(st: State, i1: string, i2: string, pad: string, n: Int32, rest: seq<string>,
                     today: Time, parseExact: DateParser)
    requires AllWhiteSpace(i1) && AllWhiteSpace(i2) && AllWhiteSpace(pad) && Quot(|i2| - 1, 2) != 1
    requires st.licenseName != []
    ensures RunFrom(st, [HeaderLine(i1, LicenseInformation),
                         FieldLine(i2, KeyMaxConcurrentUsers, pad, IntToString(n), false)] + rest, today, parseExact) ==
              RunFrom(st.(licenseLines := true, noLicenses := Add32(st.noLicenses, n)), rest, today, parseExact)
  {
    var l3, l4 := HeaderLine(i1, LicenseInformation), FieldLine(i2, KeyMaxConcurrentUsers, pad, IntToString(n), false);
    assert [l3, l4] + rest == [l3] + ([l4] + rest);
    var s4 := st.(licenseLines := true);
    LicenseInformationStep(st, i1, today, parseExact);
    RunConsNext(st, l3, [l4] + rest, s4, today, parseExact);
    IntToStringIsValue(n);
    ParseIntToString(n);
    MaxUsersStep(s4, i2, pad, IntToString(n), false, today, parseExact);
    RunConsNext(s4, l4, rest, s4.(noLicenses := Add32(st.noLicenses, n)), today, parseExact);
  }

  lemma NoExpirationIsValue()
    ensures IsValue(NoExpiration)
  {
  }

  lemma LicenseNeverExpires(st: State, i2: string, pad: string, today: Time, parseExact: DateParser)
    requires AllWhiteSpace(i2) && AllWhiteSpace(pad) && Quot(|i2| - 1, 2) != 1
    requires st.licenseName != [] && st.licenseName in st.licenseInfo && st.licenseLines
    ensures RunFrom(st, [FieldLine(i2, KeyExpirationDate, pad, NoExpiration, false)], today, parseExact) ==
              Done(Commit(st).licenseInfo)
  {
    var l5 := FieldLine(i2, KeyExpirationDate, pad, NoExpiration, false);
    assert [l5] == [l5] + [];
    NoExpirationIsValue();
    ExpirationStep(st, i2, pad, NoExpiration, false, today, parseExact);
    RunConsNext(st, l5, [], Commit(st), today, parseExact);
  }

  /** A fresh pass over one feature with one license block of n seats that never
      expires yields the single license "<name> <version>" with n seats and no
      users. */
  lemma SingleFeature(i0: string, i1: string, i2: string, pad: string, name: string, version: string, n: Int32,
                      today: Time, parseExact: DateParser)
    requires FeatureLayout(i0, i1, i2, pad)
    requires name != [] && IsValue(name) && IsValue(version)
    ensures var full := name + " " + version;
            RunFrom(Initial, FeatureHeadLines(i0, i1, pad, name, version) + LicenseBlockLines(i1, i2, pad, n),
                    today, parseExact) ==
              Done(map[full := License(full, n, map[])])
  {
    var full := name + " " + version;
    FeatureHead(i0, i1, pad, name, version, LicenseBlockLines(i1, i2, pad, n), today, parseExact);
    var s3 := State(map[full := License(full, 0, map[])], full, "", 0, false);
    ValidBlock(s3, i1, i2, pad, n, today, parseExact);
    CommitFresh(full, 0, n, false);
  }

  /** Committing the pending seats of a feature that is the only key. */
  lemma CommitFresh(full: string, pending: Int32, n: Int32, lines: bool)
    ensures var st := State(map[full := License(full, 0, map[])], full, "", pending, lines);
            Commit(st.(licenseLines := true, noLicenses := Add32(pending, n))).licenseInfo ==
              map[full := License(full, Add32(pending, n), map[])]
  {
    var k := Add32(pending, n);
    var st := State(map[full := License(full, 0, map[])], full, "", k, true);
    assert State(map[full := License(full, 0, map[])], full, "", pending, lines).(licenseLines := true, noLicenses := k) == st;
    AddToZero(k);
    assert Commit(st).licenseInfo == map[full := License(full, 0, map[]).(licensesAvailable := Add32(0, k))];
  }

  lemma AddToZero(k: Int32)
    ensures Add32(0, k) == k
  {
  }

  /** Feature "SAP", version "2023", with 5 seats that never expire, gives the one
      license "SAP 2023" with 5 seats and no users. */
  lemma SapExample(today: Time, parseExact: DateParser)
    ensures RunFrom(Initial, FeatureHeadLines(" ", "   ", " ", "SAP", "2023") + LicenseBlockLines("   ", "     ", " ", 5),
                    today, parseExact) ==
              Done(map["SAP 2023" := License("SAP 2023", 5, map[])])
  {
    assert FeatureLayout(" ", "   ", "     ", " ");
    assert IsValue("SAP") && IsValue("2023");
    assert "SAP" + " " + "2023" == "SAP 2023";
    SingleFeature(" ", "   ", "     ", " ", "SAP", "2023", 5, today, parseExact);
  }

  lemma LicenseExpired(st: State, i2: string, pad: string, date: string, rest: seq<string>,
                       today: Time, parseExact: DateParser)
    requires AllWhiteSpace(i2) && AllWhiteSpace(pad) && Quot(|i2| - 1, 2) != 1
    requires IsValue(date) && date != NoExpiration && parseExact(date).Some? && today > parseExact(date).value
    requires st.licenseName != [] && st.licenseName in st.licenseInfo && st.licenseLines
    ensures RunFrom(st, [FieldLine(i2, KeyExpirationDate, pad, date, false)] + rest, today, parseExact) ==
              RunFrom(st.(licenseLines := false), rest, today, parseExact)
  {
    ExpirationStep(st, i2, pad, date, false, today, parseExact);
    RunConsNext(st, FieldLine(i2, KeyExpirationDate, pad, date, false), rest, st.(licenseLines := false), today, parseExact);
  }

  /** A "License Information" block of n seats whose expiration date is before
      today. */
  function ExpiredBlockLines(i1: string, i2: string, pad: string, n: Int32, date: string): seq<string> {
    [HeaderLine(i1, LicenseInformation),
     FieldLine(i2, KeyMaxConcurrentUsers, pad, IntToString(n), false),
     FieldLine(i2, KeyExpirationDate, pad, date, false)]
  }

  lemma ExpiredBlock(st: State, i1: string, i2: string, pad: string, n: Int32, date: string, rest: seq<string>,
                     today: Time, parseExact: DateParser)
    requires AllWhiteSpace(i1) && AllWhiteSpace(i2) && AllWhiteSpace(pad) && Quot(|i2| - 1, 2) != 1
    requires st.licenseName != [] && st.licenseName in st.licenseInfo
    requires IsValue(date) && date != NoExpiration && parseExact(date).Some? && today > parseExact(date).value
    ensures RunFrom(st, ExpiredBlockLines(i1, i2, pad, n, date) + rest, today, parseExact) ==
              RunFrom(st.(licenseLines := false, noLicenses := Add32(st.noLicenses, n)), rest, today, parseExact)
  {
    var expiry := [FieldLine(i2, KeyExpirationDate, pad, date, false)];
    assert ExpiredBlockLines(i1, i2, pad, n, date) + rest ==
           [HeaderLine(i1, LicenseInformation), FieldLine(i2, KeyMaxConcurrentUsers, pad, IntToString(n), false)] +
           (expiry + rest);
    LicenseSeats(st, i1, i2, pad, n, expiry + rest, today, parseExact);
    var s := st.(licenseLines := true, noLicenses := Add32(st.noLicenses, n));
    LicenseExpired(s, i2, pad, date, rest, today, parseExact);
  }

  lemma ValidBlock(st: State, i1: string, i2: string, pad: string, m: Int32, today: Time, parseExact: DateParser)
    requires AllWhiteSpace(i1) && AllWhiteSpace(i2) && AllWhiteSpace(pad) && Quot(|i2| - 1, 2) != 1
    requires st.licenseName != [] && st.licenseName in st.licenseInfo
    ensures RunFrom(st, LicenseBlockLines(i1, i2, pad, m), today, parseExact) ==
              Done(Commit(st.(licenseLines := true, noLicenses := Add32(st.noLicenses, m))).licenseInfo)
  {
    var last := [FieldLine(i2, KeyExpirationDate, pad, NoExpiration, false)];
    assert LicenseBlockLines(i1, i2, pad, m) ==
           [HeaderLine(i1, LicenseInformation), FieldLine(i2, KeyMaxConcurrentUsers, pad, IntToString(m), false)] + last;
    LicenseSeats(st, i1, i2, pad, m, last, today, parseExact);
    LicenseNeverExpires(st.(licenseLines := true, noLicenses := Add32(st.noLicenses, m)), i2, pad, today, parseExact);
  }

  lemma ExpiredThenValid(i1: string, i2: string, pad: string, full: string, n: Int32, date: string, m: Int32,
                         today: Time, parseExact: DateParser)
    requires AllWhiteSpace(i1) && AllWhiteSpace(i2) && AllWhiteSpace(pad) && Quot(|i2| - 1, 2) != 1
    requires full != []
    requires IsValue(date) && date != NoExpiration && parseExact(date).Some? && today > parseExact(date).value
    ensures RunFrom(State(map[full := License(full, 0, map[])], full, "", 0, false),
                    ExpiredBlockLines(i1, i2, pad, n, date) + LicenseBlockLines(i1, i2, pad, m), today, parseExact) ==
              Done(map[full := License(full, Add32(n, m), map[])])
  {
    var s3 := State(map[full := License(full, 0, map[])], full, "", 0, false);
    ExpiredBlock(s3, i1, i2, pad, n, date, LicenseBlockLines(i1, i2, pad, m), today, parseExact);
    var s5 := s3.(licenseLines := false, noLicenses := Add32(0, n));
    ValidBlock(s5, i1, i2, pad, m, today, parseExact);
    CommitFresh(full, n, m, false);
  }

  /** The seats of an expired license block are not added when it is read, but
      they stay pending and are added with the next block of the same feature
      that is committed: an expired block of n seats followed by a valid block of
      m seats yields n + m seats, not m. */
  lemma ExpiredSeatsCarryOver(i0: string, i1: string, i2: string, pad: string, name: string, version: string,
                              n: Int32, date: string, m: Int32, today: Time, parseExact: DateParser)
    requires FeatureLayout(i0, i1, i2, pad)
    requires name != [] && IsValue(name) && IsValue(version)
    requires IsValue(date) && date != NoExpiration && parseExact(date).Some? && today > parseExact(date).value
    ensures var full := name + " " + version;
            RunFrom(Initial, FeatureHeadLines(i0, i1, pad, name, version) + ExpiredBlockLines(i1, i2, pad, n, date) +
                             LicenseBlockLines(i1, i2, pad, m), today, parseExact) ==
              Done(map[full := License(full, Add32(n, m), map[])])
  {
    var expired := ExpiredBlockLines(i1, i2, pad, n, date);
    var block := LicenseBlockLines(i1, i2, pad, m);
    assert FeatureHeadLines(i0, i1, pad, name, version) + expired + block ==
           FeatureHeadLines(i0, i1, pad, name, version) + (expired + block);
    FeatureHead(i0, i1, pad, name, version, expired + block, today, parseExact);
    ExpiredThenValid(i1, i2, pad, name + " " + version, n, date, m, today, parseExact);
  }
}
