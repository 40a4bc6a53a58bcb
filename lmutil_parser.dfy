/** The parser for the simple dialect printed by lmutil, the FlexLM license
    monitor used for Autodesk products (Interfaces/LMUtilParser.cs, namespace
    LMUtil).

    A line at nesting level 0 that contains "Users of" introduces a product and
    the number of seats issued for it; a line at level 2 under a known product
    names one holder and the time the holder checked the seat out. The regular
    expressions the source applies to a header line are written out by hand
    below; the one applied to user lines is a parameter. */
module LMUtil {
  import opened DotNet
  import opened LicenseManager

  const UsersOf: string := "Users of"
  /** The literal that licenseNameMatcher anchors at the start of the line. */
  const NamePrefix: string := "Users of "
  const IssuedText: string := " licenses issued"
  const VersionTail: string := "_0F"

  /** The AutodeskProducts table: product codes and the names shown for them. */
  const AutodeskProducts: map<string, string> := map[
    "RVT" := "Revit",
    "ACD" := "AutoCAD",
    "ACDLT" := "AutoCAD LT",
    "RSAPRO" := "Robot Structural Analysis",
    "AECCOL_T_F" := "AEC Collection"]

  /** The exceptions that end a pass early. */
  datatype ParseError =
    | BadNumber  // Int32.Parse: FormatException or OverflowException
    | BadDate    // DateTime.ParseExact: FormatException

  /** DateTime.ParseExact(s, "ddd MM/dd HH:mm", en-GB): the time it denotes, or
      None where the call throws. */
  type DateParser = string -> Option<Time>

  /** userLineMatcher.Match(line): on a match, the values of groups 1 (the user)
      and 4 (the text after "start "); None when the line does not match, in which
      case every group's value is the empty string. */
  type UserMatcher = string -> Option<(string, string)>

  /** The dictionary and the locals the loop carries from line to line. */
  datatype State = State(
    licenseInfo: map<string, License>,
    licenseName: string,
    userName: string,
    noLicenses: Int32)

  /** The state just after `licenseInfo.Clear()`. */
  const Initial: State := State(map[], "", "", 0)

  datatype StepResult = Next(state: State) | Abort(error: ParseError)

  // ---------------------------------------------------------------------------
  // The three patterns applied to a header line

  /** The regular expression class `\w`, restricted to ASCII. */
  predicate IsWordChar(c: char) {
    ('A' <= c <= 'Z') || ('a' <= c <= 'z') || ('0' <= c <= '9') || c == '_'
  }

  /** The length of the longest run of characters of a class starting at index i,
      which is what a greedy `[...]+` or `[...]*` consumes there. */
  function RunLength(s: string, i: nat, inClass: char -> bool): (n: nat)
    requires i <= |s|
    ensures i + n <= |s|
    ensures forall j :: i <= j < i + n ==> inClass(s[j])
    ensures i + n == |s| || !inClass(s[i + n])
    decreases |s| - i
  {
    if i < |s| && inClass(s[i]) then 1 + RunLength(s, i + 1, inClass) else 0
  }

  /** A run of characters of a class that ends at the end of s or before one
      outside the class is exactly what RunLength measures. */
  lemma RunLengthExact(s: string, i: nat, n: nat, inClass: char -> bool)
    requires i + n <= |s|
    requires forall j :: i <= j < i + n ==> inClass(s[j])
    requires i + n == |s| || !inClass(s[i + n])
    ensures RunLength(s, i, inClass) == n
  {
  }

  /** `Regex.Match(line, @"^\s+").Length / 2`. The length is never negative, so
      Dafny's division agrees with C#'s. */
  function Level(line: string): (lvl: int)
    ensures lvl >= 0 && 2 * lvl <= |line|
  {
    RunLength(line, 0, IsWhiteSpace) / 2
  }

  /** licenseNameMatcher.Replace(line, "$1") for
      `^Users of [0-9]{5}(\w+)(_[0-9]+_0F)*:.*`. When the pattern matches, the
      match covers the whole line and the line becomes group 1. Every character
      of `_[0-9]+_0F` is a word character, so the greedy `\w+` takes the whole run
      of word characters after the five digits, and the pattern matches exactly
      when that run is non-empty and followed by a colon. Otherwise the line is
      left as it is. */
  function ProductToken(line: string): string {
    var start := |NamePrefix| + 5;
    if |line| >= start && line[..|NamePrefix|] == NamePrefix && AllDigits(line[|NamePrefix|..start]) then
      var n := RunLength(line, start, IsWordChar);
      if n > 0 && start + n < |line| && line[start + n] == ':' then line[start..start + n] else line
    else line
  }

  /** `_[0-9]{4}_0F` occurs at index i of s. */
  predicate VersionSuffixAt(s: string, i: nat) {
    i + 8 <= |s| && s[i] == '_' && AllDigits(s[i + 1..i + 5]) && s[i + 5..i + 8] == VersionTail
  }

  /** Regex.Replace(s, @"_[0-9]{4}_0F", ""): the matches are found from left to
      right, without overlap, and removed. */
  function StripVersionSuffix(s: string): (r: string)
    ensures |r| <= |s|
    decreases |s|
  {
    if |s| < 8 then s
    else if VersionSuffixAt(s, 0) then StripVersionSuffix(s[8..])
    else [s[0]] + StripVersionSuffix(s[1..])
  }

  /** The name shown for a product code: its entry in AutodeskProducts, or the
      code itself. */
  function DisplayName(code: string): string {
    if code in AutodeskProducts then AutodeskProducts[code] else code
  }

  /** The dictionary key a header line introduces. */
  function ProductName(line: string): string {
    DisplayName(StripVersionSuffix(ProductToken(line)))
  }

  /** ` ([0-9]+)` followed by pat matches at index q of s: a space, a maximal
      run of digits (the character after the run is not a digit, so backtracking
      cannot shorten it when pat starts with a space) and pat. */
  predicate CountClauseAt(s: string, q: int, pat: string) {
    0 <= q < |s| && s[q] == ' ' &&
    var n := RunLength(s, q + 1, IsDigit);
    n > 0 && OccursAt(s, pat, q + 1 + n)
  }

  /** The last index below k at which a count clause ending in pat starts. */
  function LastClause(s: string, k: nat, pat: string): (r: Option<nat>)
    requires k <= |s|
    ensures r.None? ==> forall q :: 0 <= q < k ==> !CountClauseAt(s, q, pat)
    ensures r.Some? ==> r.value < k && CountClauseAt(s, r.value, pat) &&
                        forall q :: r.value < q < k ==> !CountClauseAt(s, q, pat)
    decreases k
  {
    if k == 0 then None
    else if CountClauseAt(s, k - 1, pat) then Some(k - 1)
    else LastClause(s, k - 1, pat)
  }

  /** licenseNumberMatcher.Replace(line, "$1") for `.* ([0-9]+) licenses issued.*`.
      A match, if there is one, starts at index 0 and covers the whole line; the
      greedy leading `.*` makes it use the last place where the clause fits, and the
      line becomes that clause's digits. Without a match the line is left as it is. */
  function LicenseCount(line: string): string {
    match LastClause(line, |line|, IssuedText)
    case None => line
    case Some(p) => line[p + 1..p + 1 + RunLength(line, p + 1, IsDigit)]
  }

  // ---------------------------------------------------------------------------
  // One line of the loop

  /** A copy of license with user added as a fresh holder whose checkout time is
      dateOpened, the pair of statements that add a user to the dictionary. */
  function AddUser(license: License, user: string, dateOpened: Time): (l: License)
    ensures l.softwareName == license.softwareName && l.licensesAvailable == license.licensesAvailable
    ensures l.users.Keys == license.users.Keys + {user}
    ensures l.users[user] == LicenseUser(user, 1, dateOpened)
    ensures forall u :: u in license.users && u != user ==> l.users[u] == license.users[u]
  {
    license.(users := license.users[user := NewLicenseUser(user).(dateOpened := dateOpened)])
  }

  /** Group 1 of a user-line match, the empty string without a match. */
  function MatchedUser(matched: Option<(string, string)>): string {
    if matched.Some? then matched.value.0 else ""
  }

  /** Group 4 of a user-line match, the empty string without a match. */
  function MatchedStart(matched: Option<(string, string)>): string {
    if matched.Some? then matched.value.1 else ""
  }

  /** A level-0 "Users of" line whose product is called name and whose seat
      count parsed to count: name becomes licenseName, a failed parse aborts the
      pass, and a License with that many seats is added unless name is already a
      key. */
  function HeaderStep(st: State, name: string, count: Option<Int32>): (r: StepResult)
    ensures r.Abort? <==> count.None?
    ensures r.Abort? ==> r.error == BadNumber
    ensures r.Next? ==>
              r.state.licenseName == name && r.state.noLicenses == count.value && r.state.userName == st.userName &&
              r.state.licenseInfo.Keys == st.licenseInfo.Keys + {name} &&
              (name in st.licenseInfo ==> r.state.licenseInfo == st.licenseInfo) &&
              (name !in st.licenseInfo ==> r.state.licenseInfo == st.licenseInfo[name := License(name, count.value, map[])])
  {
    match count
    case None => Abort(BadNumber)
    case Some(n) =>
      var info := if name in st.licenseInfo then st.licenseInfo
                  else st.licenseInfo[name := NewLicenseWithSeats(name, n)];
      Next(st.(licenseInfo := info, licenseName := name, noLicenses := n))
  }

  /** A level-2 line under a known product, with matched what the user pattern
      found on it: the checkout time is parsed (a failure aborts the pass), and
      the user is added to the product unless the name is empty or already a
      holder. Nothing else changes but userName, which ends up empty. */
  function UserStep(st: State, matched: Option<(string, string)>, parseExact: DateParser): (r: StepResult)
    requires st.licenseName in st.licenseInfo
    ensures r.Abort? <==> parseExact(MatchedStart(matched)).None?
    ensures r.Abort? ==> r.error == BadDate
    ensures r.Next? ==>
              var user := MatchedUser(matched);
              r.state == st.(licenseInfo := r.state.licenseInfo, userName := "") &&
              r.state.licenseInfo.Keys == st.licenseInfo.Keys &&
              var before := st.licenseInfo[st.licenseName];
              var after := r.state.licenseInfo[st.licenseName];
              (forall k :: k in st.licenseInfo && k != st.licenseName ==> r.state.licenseInfo[k] == st.licenseInfo[k]) &&
              (if user != "" && user !in before.users
               then after == AddUser(before, user, parseExact(MatchedStart(matched)).value)
               else after == before)
  {
    var user := MatchedUser(matched);
    match parseExact(MatchedStart(matched))
    case None => Abort(BadDate)
    case Some(d) =>
      var license := st.licenseInfo[st.licenseName];
      if user != "" && user !in license.users then
        Next(st.(licenseInfo := st.licenseInfo[st.licenseName := AddUser(license, user, d)], userName := ""))
      else
        Next(st.(userName := ""))
  }

  /** The two kinds of line the loop acts on. */
  predicate IsHeaderLine(line: string) {
    Level(line) == 0 && Contains(line, UsersOf)
  }

  predicate IsUserLine(st: State, line: string) {
    Level(line) == 2 && st.licenseName in st.licenseInfo
  }

  /** One iteration of the loop in ParseLicenses. */
  function Step(st: State, line: string, userLineMatcher: UserMatcher, parseExact: DateParser): StepResult {
    if IsHeaderLine(line) then HeaderStep(st, ProductName(line), ParseInt32(LicenseCount(line)))
    else if IsUserLine(st, line) then UserStep(st, userLineMatcher(line), parseExact)
    else Next(st)
  }

  /** The loop over the remaining lines, from state st. */
  function RunFrom(st: State, lines: seq<string>, userLineMatcher: UserMatcher, parseExact: DateParser): Outcome<ParseError>
    decreases |lines|
  {
    if lines == [] then Done(st.licenseInfo)
    else
      match Step(st, lines[0], userLineMatcher, parseExact)
      case Abort(e) => Failed(e, st.licenseInfo)
      case Next(s) => RunFrom(s, lines[1..], userLineMatcher, parseExact)
  }

  /** A whole pass over the output of lmutil. */
  function Parse(srvOutput: string, userLineMatcher: UserMatcher, parseExact: DateParser): Outcome<ParseError> {
    RunFrom(Initial, ReadLines(srvOutput), userLineMatcher, parseExact)
  }

  lemma RunFromStep(st: State, lines: seq<string>, i: nat, userLineMatcher: UserMatcher, parseExact: DateParser)
    requires i < |lines|
    ensures RunFrom(st, lines[i..], userLineMatcher, parseExact) ==
              match Step(st, lines[i], userLineMatcher, parseExact)
              case Abort(e) => Failed(e, st.licenseInfo)
              case Next(s) => RunFrom(s, lines[i + 1..], userLineMatcher, parseExact)
  {
    assert lines[i..][0] == lines[i];
    assert lines[i..][1..] == lines[i + 1..];
  }

  // ---------------------------------------------------------------------------
  // The parser object

  class LicenseParser {
    var licenseInfo: map<string, License>

    /** Both constructors of the source; the server address they pass to the
        lmutil interface is not part of this model. */
    constructor ()
      ensures licenseInfo == map[]
    {
      licenseInfo := map[];
    }

    /** Rebuilds licenseInfo from srvOutput, the text lmutil printed. The
        dictionary is cleared first, so what it holds afterwards depends on
        srvOutput alone; when a pass throws, the method returns the error and
        licenseInfo keeps what the pass had built until then. */
    method ParseLicenses(srvOutput: string, userLineMatcher: UserMatcher, parseExact: DateParser)
      returns (error: Option<ParseError>)
      modifies this
      ensures Parse(srvOutput, userLineMatcher, parseExact) ==
                (if error.None? then Done(licenseInfo) else Failed(error.value, licenseInfo))
    {
      var lines := ReadLines(srvOutput);
      var licenseName := "";
      var userName := "";
      var noLicenses: Int32 := 0;

      licenseInfo := map[];

      var i := 0;
      while i < |lines|
        invariant 0 <= i <= |lines|
        invariant RunFrom(Initial, lines, userLineMatcher, parseExact) ==
                    RunFrom(State(licenseInfo, licenseName, userName, noLicenses), lines[i..], userLineMatcher, parseExact)
      {
        var line := lines[i];
        ghost var before := State(licenseInfo, licenseName, userName, noLicenses);
        RunFromStep(before, lines, i, userLineMatcher, parseExact);
        i := i + 1;

        var lvl := RunLength(line, 0, IsWhiteSpace) / 2;

        if lvl == 0 && Contains(line, UsersOf) {
          var headerError;
          licenseName, noLicenses, headerError := ReadHeader(line, licenseName, userName, noLicenses);
          if headerError.Some? {
            return headerError;
          }
        } else if lvl == 2 && licenseName in licenseInfo {
          var userError;
          userName, userError := ReadUser(line, licenseName, userName, noLicenses, userLineMatcher, parseExact);
          if userError.Some? {
            return userError;
          }
        }
      }
      return None;
    }

    /** The branch for a level-0 "Users of" line. */
    method ReadHeader(line: string, licenseName: string, userName: string, noLicenses: Int32)
      returns (name: string, count: Int32, error: Option<ParseError>)
      modifies this
      ensures match HeaderStep(State(old(licenseInfo), licenseName, userName, noLicenses),
                               ProductName(line), ParseInt32(LicenseCount(line)))
              case Abort(e) => error == Some(e) && licenseInfo == old(licenseInfo)
              case Next(s) => error == None && s == State(licenseInfo, name, userName, count)
    {
      name := StripVersionSuffix(ProductToken(line));
      if name in AutodeskProducts {
        name := AutodeskProducts[name];
      }
      var parsed := ParseInt32(LicenseCount(line));
      if parsed.None? {
        return name, noLicenses, Some(BadNumber);
      }
      count := parsed.value;
      if name !in licenseInfo {
        licenseInfo := licenseInfo[name := NewLicenseWithSeats(name, count)];
      }
      error := None;
    }

    /** The branch for a level-2 line under a known product. */
    method ReadUser(line: string, licenseName: string, userName: string, noLicenses: Int32,
                    userLineMatcher: UserMatcher, parseExact: DateParser)
      returns (user: string, error: Option<ParseError>)
      requires licenseName in licenseInfo
      modifies this
      ensures match UserStep(State(old(licenseInfo), licenseName, userName, noLicenses), userLineMatcher(line), parseExact)
              case Abort(e) => error == Some(e) && licenseInfo == old(licenseInfo)
              case Next(s) => error == None && s == State(licenseInfo, licenseName, user, noLicenses)
    {
      var matched := userLineMatcher(line);
      user := if matched.Some? then matched.value.0 else "";
      var licenseExpiry := parseExact(if matched.Some? then matched.value.1 else "");
      if licenseExpiry.None? {
        return user, Some(BadDate);
      }
      if user != "" && user !in licenseInfo[licenseName].users {
        var license := licenseInfo[licenseName];
        license := license.(users := license.users[user := NewLicenseUser(user)]);
        license := license.(users := license.users[user := license.users[user].(dateOpened := licenseExpiry.value)]);
        assert license == AddUser(old(licenseInfo)[licenseName], user, licenseExpiry.value);
        licenseInfo := licenseInfo[licenseName := license];
      }
      user := "";
      error := None;
    }

    /** The holders of softwareName with the time each has held it; the method
        changes no state. */
    method LicensesInUse(softwareName: string, now: Time) returns (userList: seq<string>, ghost order: seq<string>)
      ensures IsUsageReport(licenseInfo, softwareName, now, userList, order)
      ensures |userList| >= 1
    {
      userList, order := UsageReport(licenseInfo, softwareName, now);
    }
  }

  // ---------------------------------------------------------------------------
  // Levels and the header patterns

  /** A line indented by a run of white space is at half that run's length. */
  lemma LevelOf(indent: string, rest: string)
    requires AllWhiteSpace(indent) && (rest == [] || !IsWhiteSpace(rest[0]))
    ensures Level(indent + rest) == |indent| / 2
  {
    var line := indent + rest;
    forall j | 0 <= j < |indent| ensures IsWhiteSpace(line[j]) {
      assert line[j] == indent[j];
    }
    if rest != [] {
      assert line[|indent|] == rest[0];
    }
    RunLengthExact(line, 0, |indent|, IsWhiteSpace);
  }

  /** "Users of ", five digits, a run of word characters and a colon: the
      product token is that run. */
  lemma ProductTokenCapture(code5: string, token: string, rest: string)
    requires |code5| == 5 && AllDigits(code5)
    requires token != [] && forall j :: 0 <= j < |token| ==> IsWordChar(token[j])
    ensures ProductToken(NamePrefix + code5 + token + ":" + rest) == token
  {
    var line := NamePrefix + code5 + token + ":" + rest;
    var start := |NamePrefix| + 5;
    assert line[..|NamePrefix|] == NamePrefix;
    assert line[|NamePrefix|..start] == code5;
    forall j | start <= j < start + |token| ensures IsWordChar(line[j]) {
      assert line[j] == token[j - start];
    }
    assert line[start + |token|] == ':';
    RunLengthExact(line, start, |token|, IsWordChar);
    assert line[start..start + |token|] == token;
  }

  /** A line that does not start with "Users of " keeps its whole text as the
      product token. */
  lemma ProductTokenUnmatched(line: string)
    requires !(|line| >= |NamePrefix| && line[..|NamePrefix|] == NamePrefix)
    ensures ProductToken(line) == line
  {
  }

  lemma VersionSuffixShift(s: string, i: nat)
    requires s != [] && VersionSuffixAt(s[1..], i)
    ensures VersionSuffixAt(s, i + 1)
  {
    assert s[1..][i + 1..i + 5] == s[i + 2..i + 6];
    assert s[1..][i + 5..i + 8] == s[i + 6..i + 9];
  }

  /** A prefix in which no version suffix starts passes through unchanged. */
  lemma {:induction false} StripSkips(a: string, b: string)
    requires forall i :: 0 <= i < |a| ==> !VersionSuffixAt(a + b, i)
    ensures StripVersionSuffix(a + b) == a + StripVersionSuffix(b)
    decreases |a|
  {
    if a == [] {
      assert a + b == b;
    } else {
      var s := a + b;
      assert s[1..] == a[1..] + b;
      forall i | 0 <= i < |a[1..]| ensures !VersionSuffixAt(a[1..] + b, i) {
        if VersionSuffixAt(s[1..], i) {
          VersionSuffixShift(s, i);
        }
      }
      StripSkips(a[1..], b);
      if |s| >= 8 {
        assert !VersionSuffixAt(s, 0);
        assert s == [a[0]] + s[1..];
      } else {
        assert StripVersionSuffix(a[1..] + b) == a[1..] + b;
        assert StripVersionSuffix(b) == b;
      }
    }
  }

  /** No underscore in code is followed by a digit. */
  predicate NoDigitAfterUnderscore(code: string) {
    forall i :: 0 <= i < |code| - 1 && code[i] == '_' ==> !IsDigit(code[i + 1])
  }

  /** One `_<year>_0F` suffix after a product code is removed. */
  lemma StripVersion(code: string, year: string)
    requires NoDigitAfterUnderscore(code)
    requires |year| == 4 && AllDigits(year)
    ensures StripVersionSuffix(code + "_" + year + VersionTail) == code
  {
    var b := "_" + year + VersionTail;
    var s := code + b;
    forall i | 0 <= i < |code| ensures !VersionSuffixAt(s, i) {
      if i + 1 < |code| {
        assert s[i] == code[i] && s[i + 1] == code[i + 1];
      } else {
        assert s[i + 1] == b[0];
      }
      if s[i] == '_' && i + 5 <= |s| {
        assert s[i + 1..i + 5][0] == s[i + 1];
      }
    }
    StripSkips(code, b);
    assert b[1..5] == year && b[5..8] == VersionTail;
    assert VersionSuffixAt(b, 0);
    assert b[8..] == [];
    assert StripVersionSuffix(b) == [];
    assert code + "_" + year + VersionTail == s;
    assert code + [] == code;
  }

  /** Between the chosen clause and the end of the line no other clause starts. */
  lemma NoIssuedAfter(prefix: string, count: string, tail: string, q: int)
    requires AllDigits(count) && !Contains(tail, IssuedText)
    requires var line := prefix + " " + count + IssuedText + tail;
             |prefix| < q < |line|
    ensures !CountClauseAt(prefix + " " + count + IssuedText + tail, q, IssuedText)
  {
    var line := prefix + " " + count + IssuedText + tail;
    var t0 := |prefix| + 1 + |count|;
    if q < t0 {
      NoIssuedInCount(line, prefix, count, tail, q);
    } else if q < t0 + |IssuedText| {
      NoIssuedInText(line, prefix, count, tail, q);
    } else {
      NoIssuedInTail(line, prefix, count, tail, q);
    }
  }

  lemma NoIssuedInCount(line: string, prefix: string, count: string, tail: string, q: int)
    requires AllDigits(count) && line == prefix + " " + count + IssuedText + tail
    requires |prefix| < q < |prefix| + 1 + |count|
    ensures !CountClauseAt(line, q, IssuedText)
  {
    assert line[q] == count[q - |prefix| - 1];
  }

  lemma NoIssuedInText(line: string, prefix: string, count: string, tail: string, q: int)
    requires line == prefix + " " + count + IssuedText + tail
    requires |prefix| + 1 + |count| <= q < |prefix| + 1 + |count| + |IssuedText|
    ensures !CountClauseAt(line, q, IssuedText)
  {
    var t0 := |prefix| + 1 + |count|;
    var j := q - t0;
    assert line[q] == IssuedText[j];
    if j < |IssuedText| - 1 {
      assert line[q + 1] == IssuedText[j + 1];
      assert IssuedText[j] != ' ' || !IsDigit(IssuedText[j + 1]);
    }
  }

  lemma NoIssuedInTail(line: string, prefix: string, count: string, tail: string, q: int)
    requires !Contains(tail, IssuedText) && line == prefix + " " + count + IssuedText + tail
    requires |prefix| + 1 + |count| + |IssuedText| <= q < |line|
    ensures !CountClauseAt(line, q, IssuedText)
  {
    var e := |prefix| + 1 + |count| + |IssuedText|;
    var n := RunLength(line, q + 1, IsDigit);
    var r := q + 1 + n;
    if r + |IssuedText| <= |line| {
      assert line[r..r + |IssuedText|] == tail[r - e..r - e + |IssuedText|];
      assert !OccursAt(tail, IssuedText, r - e);
    }
  }

  /** The clause at index |prefix| matches, with count as its digits. */
  lemma IssuedClause(prefix: string, count: string, tail: string)
    requires count != [] && AllDigits(count)
    ensures var line := prefix + " " + count + IssuedText + tail;
            CountClauseAt(line, |prefix|, IssuedText) && RunLength(line, |prefix| + 1, IsDigit) == |count| &&
            line[|prefix| + 1..|prefix| + 1 + |count|] == count
  {
    assert IssuedText[0] == ' ';
    CountClause(prefix, count, tail, IssuedText);
  }

  lemma CountClause(prefix: string, count: string, tail: string, pat: string)
    requires count != [] && AllDigits(count) && pat != [] && pat[0] == ' '
    ensures var line := prefix + " " + count + pat + tail;
            CountClauseAt(line, |prefix|, pat) && RunLength(line, |prefix| + 1, IsDigit) == |count| &&
            line[|prefix| + 1..|prefix| + 1 + |count|] == count
  {
    var a := prefix + " ";
    var b := pat + tail;
    Regroup(prefix, count, pat, tail);
    assert b[..|pat|] == pat;
    ClauseAt(a, count, b, pat);
    assert b[0] == ' ';
    DigitRunAt(a, count, b);
    MiddleSlice(a, count, b);
  }

  lemma Regroup(prefix: string, count: string, pat: string, tail: string)
    ensures prefix + " " + count + pat + tail == (prefix + " ") + count + (pat + tail)
  {
  }

  lemma MiddleSlice(a: string, count: string, b: string)
    ensures (a + count + b)[|a|..|a| + |count|] == count
  {
  }

  /** A space, digits and then pat form a count clause at the space. */
  lemma ClauseAt(a: string, count: string, b: string, pat: string)
    requires |a| >= 1 && a[|a| - 1] == ' '
    requires count != [] && AllDigits(count)
    requires |b| >= |pat| && b[..|pat|] == pat && pat != [] && pat[0] == ' '
    ensures CountClauseAt(a + count + b, |a| - 1, pat)
  {
    assert b[0] == b[..|pat|][0];
    DigitRunAt(a, count, b);
    FollowedBy(a, count, b, pat);
    var s := a + count + b;
    var q := |a| - 1;
    assert s[q] == ' ';
    assert RunLength(s, q + 1, IsDigit) == |count|;
    assert OccursAt(s, pat, q + 1 + |count|);
  }

  lemma FollowedBy(a: string, count: string, b: string, pat: string)
    requires |b| >= |pat| && b[..|pat|] == pat
    ensures OccursAt(a + count + b, pat, |a| + |count|)
  {
    var s := a + count + b;
    var t0 := |a| + |count|;
    assert s[t0..t0 + |pat|] == b[..|pat|];
  }

  /** Digits followed by a space form a maximal run. */
  lemma DigitRunAt(a: string, count: string, b: string)
    requires AllDigits(count) && b != [] && b[0] == ' '
    ensures RunLength(a + count + b, |a|, IsDigit) == |count|
  {
    var s := a + count + b;
    forall j | |a| <= j < |a| + |count| ensures IsDigit(s[j]) {
      assert s[j] == count[j - |a|];
    }
    assert s[|a| + |count|] == b[0];
    RunLengthExact(s, |a|, |count|, IsDigit);
  }

  /** The greedy `.*` picks the last index at which the clause matches. */
  lemma {:induction false} LastClauseFrom(s: string, k: nat, p: nat, pat: string)
    requires p < k <= |s| && CountClauseAt(s, p, pat)
    requires forall q :: p < q < k ==> !CountClauseAt(s, q, pat)
    ensures LastClause(s, k, pat) == Some(p)
    decreases k
  {
    if k - 1 != p {
      LastClauseFrom(s, k - 1, p, pat);
    }
  }

  /** The seat count of a line with one "<digits> licenses issued" clause after
      any prefix is those digits. */
  lemma IssuedCount(prefix: string, count: string, tail: string)
    requires count != [] && AllDigits(count) && !Contains(tail, IssuedText)
    ensures LicenseCount(prefix + " " + count + IssuedText + tail) == count
  {
    var line := prefix + " " + count + IssuedText + tail;
    IssuedClause(prefix, count, tail);
    forall q | |prefix| < q < |line| ensures !CountClauseAt(line, q, IssuedText) {
      NoIssuedAfter(prefix, count, tail, q);
    }
    LastClauseFrom(line, |line|, |prefix|, IssuedText);
  }

  /** A tail without the letter 'd' cannot hold " licenses issued". */
  lemma NoIssuedWithoutD(tail: string)
    requires 'd' !in tail
    ensures !Contains(tail, IssuedText)
  {
    forall k | 0 <= k ensures !OccursAt(tail, IssuedText, k) {
      if k + |IssuedText| <= |tail| {
        assert tail[k..k + |IssuedText|][15] == tail[k + 15];
      }
    }
  }

  // ---------------------------------------------------------------------------
  // Header lines

  /** A header line as lmutil prints it: the product code after five digits, a
      colon, and later the number of seats issued. */
  function HeaderLine(code5: string, token: string, between: string, count: string, tail: string): string {
    NamePrefix + code5 + token + ":" + between + " " + count + IssuedText + tail
  }

  /** A line starting with "Users of" is at level 0 and is a header. */
  lemma HeaderLineIsHeader(rest: string)
    ensures Level(UsersOf + rest) == 0 && Contains(UsersOf + rest, UsersOf)
  {
    var line := UsersOf + rest;
    assert line[0] == 'U';
    assert line[..|UsersOf|] == UsersOf;
  }

  /** A header with a word-character product code and a "<count> licenses issued"
      clause adds the product under its display name with count seats, unless
      the name is already a key, in which case the dictionary is left as it is;
      a count too large for an `int` aborts the pass. */
  lemma HeaderCreates(st: State, code5: string, token: string, between: string, count: string, tail: string,
                      userLineMatcher: UserMatcher, parseExact: DateParser)
    requires |code5| == 5 && AllDigits(code5)
    requires token != [] && forall j :: 0 <= j < |token| ==> IsWordChar(token[j])
    requires count != [] && AllDigits(count) && !Contains(tail, IssuedText)
    ensures var line := HeaderLine(code5, token, between, count, tail);
            var name := DisplayName(StripVersionSuffix(token));
            var n := DigitsValue(count);
            Step(st, line, userLineMatcher, parseExact) ==
              if n > Int32Max then Abort(BadNumber)
              else Next(st.(licenseInfo := if name in st.licenseInfo then st.licenseInfo
                                           else st.licenseInfo[name := License(name, n, map[])],
                            licenseName := name, noLicenses := n))
  {
    var line := HeaderLine(code5, token, between, count, tail);
    HeaderLineFields(code5, token, between, count, tail);
    ParseDigits(count);
    HeaderLineStep(st, line, userLineMatcher, parseExact);
  }

  /** What the loop reads off a header built by HeaderLine. */
  lemma HeaderLineFields(code5: string, token: string, between: string, count: string, tail: string)
    requires |code5| == 5 && AllDigits(code5)
    requires token != [] && forall j :: 0 <= j < |token| ==> IsWordChar(token[j])
    requires count != [] && AllDigits(count) && !Contains(tail, IssuedText)
    ensures var line := HeaderLine(code5, token, between, count, tail);
            IsHeaderLine(line) && ProductToken(line) == token && LicenseCount(line) == count
  {
    var line := HeaderLine(code5, token, between, count, tail);
    HeaderLineStart(line);
    HeaderLineToken(code5, token, between, count, tail);
    HeaderLineCount(code5, token, between, count, tail);
  }

  lemma HeaderLineStart(line: string)
    requires |line| >= |NamePrefix| && line[..|NamePrefix|] == NamePrefix
    ensures IsHeaderLine(line)
  {
    assert line == UsersOf + line[|UsersOf|..];
    HeaderLineIsHeader(line[|UsersOf|..]);
  }

  lemma HeaderLineToken(code5: string, token: string, between: string, count: string, tail: string)
    requires |code5| == 5 && AllDigits(code5)
    requires token != [] && forall j :: 0 <= j < |token| ==> IsWordChar(token[j])
    ensures ProductToken(HeaderLine(code5, token, between, count, tail)) == token
  {
    var after := between + " " + count + IssuedText + tail;
    assert HeaderLine(code5, token, between, count, tail) == NamePrefix + code5 + token + ":" + after;
    ProductTokenCapture(code5, token, after);
  }

  lemma HeaderLineCount(code5: string, token: string, between: string, count: string, tail: string)
    requires count != [] && AllDigits(count) && !Contains(tail, IssuedText)
    ensures LicenseCount(HeaderLine(code5, token, between, count, tail)) == count
  {
    var prefix := NamePrefix + code5 + token + ":" + between;
    assert HeaderLine(code5, token, between, count, tail) == prefix + " " + count + IssuedText + tail;
    IssuedCount(prefix, count, tail);
  }

  lemma HeaderLineStep(st: State, line: string, userLineMatcher: UserMatcher, parseExact: DateParser)
    requires IsHeaderLine(line)
    ensures Step(st, line, userLineMatcher, parseExact) == HeaderStep(st, ProductName(line), ParseInt32(LicenseCount(line)))
  {
  }

  /** A header without a "<count> licenses issued" clause makes Int32.Parse
      throw: the pass aborts. */
  lemma HeaderWithoutCountAborts(st: State, line: string, userLineMatcher: UserMatcher, parseExact: DateParser)
    requires Level(line) == 0 && Contains(line, UsersOf) && !Contains(line, IssuedText)
    ensures Step(st, line, userLineMatcher, parseExact) == Abort(BadNumber)
  {
    forall q | 0 <= q < |line| ensures !CountClauseAt(line, q, IssuedText) {
      var n := RunLength(line, q + 1, IsDigit);
      assert !OccursAt(line, IssuedText, q + 1 + n);
    }
    assert LicenseCount(line) == line;
    var k := IndexOf(line, UsersOf);
    assert line[k..k + |UsersOf|][0] == line[k];
    assert line[k] == 'U';
    if ParseInt32(line).Some? {
      ParseInt32Chars(line, k);
      assert false;
    }
  }

  // ---------------------------------------------------------------------------
  // User lines

  /** A level-2 line under a known product whose user and checkout time are read
      adds the user with one seat and that time if the user is new and named,
      and otherwise leaves the dictionary exactly as it was. */
  lemma UserLineStep(st: State, line: string, userLineMatcher: UserMatcher, parseExact: DateParser,
                     user: string, start: string, checkout: Time)
    requires Level(line) == 2 && st.licenseName in st.licenseInfo
    requires userLineMatcher(line) == Some((user, start)) && parseExact(start) == Some(checkout)
    ensures Step(st, line, userLineMatcher, parseExact).Next?
    ensures var s := Step(st, line, userLineMatcher, parseExact).state;
            var license := st.licenseInfo[st.licenseName];
            s.licenseName == st.licenseName && s.noLicenses == st.noLicenses && s.userName == "" &&
            (user == "" || user in license.users ==> s.licenseInfo == st.licenseInfo) &&
            (user != "" && user !in license.users ==>
               s.licenseInfo == st.licenseInfo[st.licenseName := license.(users := license.users[user := LicenseUser(user, 1, checkout)])])
  {
    var license := st.licenseInfo[st.licenseName];
    var added := AddUser(license, user, checkout);
    assert added.users == license.users[user := LicenseUser(user, 1, checkout)];
  }

  /** A level-2 line under a known product that the user pattern does not match
      hands the empty string to ParseExact, which throws: the pass aborts. */
  lemma UnmatchedUserLineAborts(st: State, line: string, userLineMatcher: UserMatcher, parseExact: DateParser)
    requires Level(line) == 2 && st.licenseName in st.licenseInfo
    requires userLineMatcher(line).None? && parseExact("").None?
    ensures Step(st, line, userLineMatcher, parseExact) == Abort(BadDate)
  {
  }

  /** The holders of a product change only on a level-2 line while that product
      is the current one; header lines and lines at any other level leave every
      user map as it was. */
  lemma UsersChangeOnlyOnUserLines(st: State, line: string, userLineMatcher: UserMatcher, parseExact: DateParser, k: string)
    requires k in st.licenseInfo
    requires Step(st, line, userLineMatcher, parseExact).Next?
    ensures var s := Step(st, line, userLineMatcher, parseExact).state;
            k in s.licenseInfo &&
            (s.licenseInfo[k].users == st.licenseInfo[k].users || (IsUserLine(st, line) && k == st.licenseName))
  {
    if IsHeaderLine(line) {
      HeaderStepKeepsUsers(st, ProductName(line), ParseInt32(LicenseCount(line)), k);
    } else if IsUserLine(st, line) {
      UserStepKeepsOtherUsers(st, userLineMatcher(line), parseExact, k);
    }
  }

  lemma HeaderStepKeepsUsers(st: State, name: string, count: Option<Int32>, k: string)
    requires k in st.licenseInfo
    ensures var r := HeaderStep(st, name, count);
            r.Next? ==> k in r.state.licenseInfo && r.state.licenseInfo[k].users == st.licenseInfo[k].users
  {
  }

  lemma UserStepKeepsOtherUsers(st: State, matched: Option<(string, string)>, parseExact: DateParser, k: string)
    requires k in st.licenseInfo && st.licenseName in st.licenseInfo
    ensures var r := UserStep(st, matched, parseExact);
            r.Next? ==> k in r.state.licenseInfo && (k != st.licenseName ==> r.state.licenseInfo[k] == st.licenseInfo[k])
  {
  }

  // ---------------------------------------------------------------------------
  // What a pass never undoes

  /** after keeps every product of before with its name and seats, and every
      holder of it with the same record. */
  predicate Extends(before: map<string, License>, after: map<string, License>) {
    forall k :: k in before ==>
      k in after && after[k].softwareName == before[k].softwareName &&
      after[k].licensesAvailable == before[k].licensesAvailable &&
      forall u :: u in before[k].users ==> u in after[k].users && after[k].users[u] == before[k].users[u]
  }

  lemma ExtendsTransitive(a: map<string, License>, b: map<string, License>, c: map<string, License>)
    requires Extends(a, b) && Extends(b, c)
    ensures Extends(a, c)
  {
  }

  /** No line removes a product, changes its seats or changes a holder. */
  lemma StepExtends(st: State, line: string, userLineMatcher: UserMatcher, parseExact: DateParser)
    ensures var r := Step(st, line, userLineMatcher, parseExact);
            r.Next? ==> Extends(st.licenseInfo, r.state.licenseInfo)
  {
    if IsHeaderLine(line) {
      HeaderStepExtends(st, ProductName(line), ParseInt32(LicenseCount(line)));
    } else if IsUserLine(st, line) {
      UserStepExtends(st, userLineMatcher(line), parseExact);
    }
  }

  lemma HeaderStepExtends(st: State, name: string, count: Option<Int32>)
    ensures var r := HeaderStep(st, name, count);
            r.Next? ==> Extends(st.licenseInfo, r.state.licenseInfo)
  {
  }

  lemma UserStepExtends(st: State, matched: Option<(string, string)>, parseExact: DateParser)
    requires st.licenseName in st.licenseInfo
    ensures var r := UserStep(st, matched, parseExact);
            r.Next? ==> Extends(st.licenseInfo, r.state.licenseInfo)
  {
  }

  /** The rest of a pass keeps every product already read with the seats of
      the first header for it, and every holder already read with the time of
      the first line for them, whether the pass ends normally or aborts. */
  lemma {:induction false} RunFromExtends(st: State, lines: seq<string>, userLineMatcher: UserMatcher, parseExact: DateParser)
    ensures Extends(st.licenseInfo, RunFrom(st, lines, userLineMatcher, parseExact).info)
    decreases |lines|
  {
    if lines != [] {
      var r := Step(st, lines[0], userLineMatcher, parseExact);
      StepExtends(st, lines[0], userLineMatcher, parseExact);
      if r.Next? {
        RunFromExtends(r.state, lines[1..], userLineMatcher, parseExact);
        ExtendsTransitive(st.licenseInfo, r.state.licenseInfo, RunFrom(r.state, lines[1..], userLineMatcher, parseExact).info);
      }
    }
  }

  /** Every product is stored under its own name and every holder under theirs. */
  predicate WellKeyed(info: map<string, License>) {
    forall k :: k in info ==>
      info[k].softwareName == k && forall u :: u in info[k].users ==> info[k].users[u].userName == u
  }

  lemma StepKeepsWellKeyed(st: State, line: string, userLineMatcher: UserMatcher, parseExact: DateParser)
    requires WellKeyed(st.licenseInfo)
    ensures var r := Step(st, line, userLineMatcher, parseExact);
            r.Next? ==> WellKeyed(r.state.licenseInfo)
  {
    if IsHeaderLine(line) {
      HeaderStepKeepsWellKeyed(st, ProductName(line), ParseInt32(LicenseCount(line)));
    } else if IsUserLine(st, line) {
      UserStepKeepsWellKeyed(st, userLineMatcher(line), parseExact);
    }
  }

  lemma HeaderStepKeepsWellKeyed(st: State, name: string, count: Option<Int32>)
    requires WellKeyed(st.licenseInfo)
    ensures var r := HeaderStep(st, name, count);
            r.Next? ==> WellKeyed(r.state.licenseInfo)
  {
  }

  lemma UserStepKeepsWellKeyed(st: State, matched: Option<(string, string)>, parseExact: DateParser)
    requires WellKeyed(st.licenseInfo) && st.licenseName in st.licenseInfo
    ensures var r := UserStep(st, matched, parseExact);
            r.Next? ==> WellKeyed(r.state.licenseInfo)
  {
  }

  lemma {:induction false} RunFromKeepsWellKeyed(st: State, lines: seq<string>, userLineMatcher: UserMatcher, parseExact: DateParser)
    requires WellKeyed(st.licenseInfo)
    ensures WellKeyed(RunFrom(st, lines, userLineMatcher, parseExact).info)
    decreases |lines|
  {
    if lines != [] {
      StepKeepsWellKeyed(st, lines[0], userLineMatcher, parseExact);
      var r := Step(st, lines[0], userLineMatcher, parseExact);
      if r.Next? {
        RunFromKeepsWellKeyed(r.state, lines[1..], userLineMatcher, parseExact);
      }
    }
  }

  /** Whatever lmutil printed, every product a pass stores is keyed by its name
      and every holder by the user's name. */
  lemma ParseWellKeyed(srvOutput: string, userLineMatcher: UserMatcher, parseExact: DateParser)
    ensures WellKeyed(Parse(srvOutput, userLineMatcher, parseExact).info)
  {
    RunFromKeepsWellKeyed(Initial, ReadLines(srvOutput), userLineMatcher, parseExact);
  }

  // ---------------------------------------------------------------------------
  // An example

  /** RVT_2024_0F is a run of word characters from which the version suffix is
      stripped, leaving the code RVT, which is shown as Revit. */
  lemma RevitToken()
    ensures forall j :: 0 <= j < |"RVT_2024_0F"| ==> IsWordChar("RVT_2024_0F"[j])
    ensures DisplayName(StripVersionSuffix("RVT_2024_0F")) == "Revit"
  {
    RevitCode();
    assert DisplayName("RVT") == "Revit";
  }

  lemma RevitCode()
    ensures StripVersionSuffix("RVT_2024_0F") == "RVT"
  {
    StripVersion("RVT", "2024");
    assert "RVT" + "_" + "2024" + VersionTail == "RVT_2024_0F";
  }

  /** A Revit header as lmutil prints it, such as
      "Users of 12345RVT_2024_0F:  (Total of 10 licenses issued;  Total of 2 licenses in use)",
      adds Revit with 10 seats. */
  lemma RevitHeaderStep(st: State, code5: string, between: string, tail: string,
                        userLineMatcher: UserMatcher, parseExact: DateParser)
    requires |code5| == 5 && AllDigits(code5) && 'd' !in tail
    requires "Revit" !in st.licenseInfo
    ensures Step(st, HeaderLine(code5, "RVT_2024_0F", between, "10", tail), userLineMatcher, parseExact) ==
              Next(st.(licenseInfo := st.licenseInfo["Revit" := License("Revit", 10, map[])],
                       licenseName := "Revit", noLicenses := 10))
  {
    NoIssuedWithoutD(tail);
    RevitToken();
    assert DigitsValue("10") == 10;
    HeaderCreates(st, code5, "RVT_2024_0F", between, "10", tail, userLineMatcher, parseExact);
  }

  lemma RunFromNext(st: State, lines: seq<string>, s: State, userLineMatcher: UserMatcher, parseExact: DateParser)
    requires lines != [] && Step(st, lines[0], userLineMatcher, parseExact) == Next(s)
    ensures RunFrom(st, lines, userLineMatcher, parseExact) == RunFrom(s, lines[1..], userLineMatcher, parseExact)
  {
  }

  /** Two user lines for the same new holder under the current product: the
      holder is added with the time of the first, and the second changes
      nothing. */
  lemma RepeatedUserLines(st: State, line1: string, line2: string,
                          user: string, start1: string, start2: string, time1: Time, time2: Time,
                          userLineMatcher: UserMatcher, parseExact: DateParser)
    requires Level(line1) == 2 && Level(line2) == 2 && st.licenseName in st.licenseInfo
    requires user != "" && user !in st.licenseInfo[st.licenseName].users
    requires userLineMatcher(line1) == Some((user, start1)) && parseExact(start1) == Some(time1)
    requires userLineMatcher(line2) == Some((user, start2)) && parseExact(start2) == Some(time2)
    ensures RunFrom(st, [line1, line2], userLineMatcher, parseExact) ==
              Done(st.licenseInfo[st.licenseName := AddUser(st.licenseInfo[st.licenseName], user, time1)])
  {
    var license := st.licenseInfo[st.licenseName];
    UserLineStep(st, line1, userLineMatcher, parseExact, user, start1, time1);
    var s := Step(st, line1, userLineMatcher, parseExact).state;
    assert s.licenseInfo == st.licenseInfo[st.licenseName := AddUser(license, user, time1)];
    RunFromNext(st, [line1, line2], s, userLineMatcher, parseExact);
    UserLineStep(s, line2, userLineMatcher, parseExact, user, start2, time2);
    var s' := Step(s, line2, userLineMatcher, parseExact).state;
    assert [line1, line2][1..] == [line2];
    RunFromNext(s, [line2], s', userLineMatcher, parseExact);
    assert [line2][1..] == [];
  }

  /** A Revit header followed by two user lines for the same holder: the
      product has its 10 seats and the holder one seat with the time of the first
      line. */
  lemma FirstCheckoutWins(code5: string, between: string, tail: string, line1: string, line2: string,
                          user: string, start1: string, start2: string, time1: Time, time2: Time,
                          userLineMatcher: UserMatcher, parseExact: DateParser)
    requires |code5| == 5 && AllDigits(code5) && 'd' !in tail
    requires Level(line1) == 2 && Level(line2) == 2 && user != ""
    requires userLineMatcher(line1) == Some((user, start1)) && parseExact(start1) == Some(time1)
    requires userLineMatcher(line2) == Some((user, start2)) && parseExact(start2) == Some(time2)
    ensures RunFrom(Initial, [HeaderLine(code5, "RVT_2024_0F", between, "10", tail), line1, line2],
                    userLineMatcher, parseExact) ==
              Done(map["Revit" := License("Revit", 10, map[user := LicenseUser(user, 1, time1)])])
  {
    var lines := [HeaderLine(code5, "RVT_2024_0F", between, "10", tail), line1, line2];
    RevitHeaderStep(Initial, code5, between, tail, userLineMatcher, parseExact);
    var s1 := State(map["Revit" := License("Revit", 10, map[])], "Revit", "", 10);
    RunFromNext(Initial, lines, s1, userLineMatcher, parseExact);
    assert lines[1..] == [line1, line2];
    RepeatedUserLines(s1, line1, line2, user, start1, start2, time1, time2, userLineMatcher, parseExact);
    FirstHolder(s1.licenseInfo, "Revit", 10, user, time1);
  }

  lemma FirstHolder(info: map<string, License>, name: string, seats: Int32, user: string, time: Time)
    requires info == map[name := License(name, seats, map[])]
    ensures info[name := AddUser(info[name], user, time)] ==
              map[name := License(name, seats, map[user := LicenseUser(user, 1, time)])]
  {
  }
}
