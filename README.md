# License output parsers

This project models the parsing layer of a Windows license monitor for two
license managers. The layer reads the text dump a license-manager utility
prints. It builds a dictionary from product name to `License`: the seats
offered and the users holding them. It then answers "who is using product X,
and for how long".

Three C# files make up the layer, and each is one Dafny module. A fourth
module, `DotNet`, models the .NET library calls they rely on.

- `LicenseManager` (Interfaces/LicenseParser.cs) holds the shared data model:
  - `License` and `LicenseUser`, with their constructors;
  - the base class `LicenseParser`, with its dictionary field and its no-op
    `ParseLicenses`;
  - `LicensesInUse`, which formats one line `"<user> [<h>h <m>m]"` per holder.
- `LicenseParser` (LicenseParser.cs) is the parser for the verbose Sentinel
  RMS dialect. It keeps a state record on a single pass over the lines:
  - the dictionary;
  - the current feature name;
  - the last user named;
  - the seats pending for the current license block;
  - whether the pass is inside a "License Information" block.
- `LMUtil` (Interfaces/LMUtilParser.cs) is the parser for the simple FlexLM
  `lmutil` dialect:
  - "Users of" headers at level 0 create products;
  - user lines at level 2 add holders;
  - the `AutodeskProducts` catalog turns product codes into names.
- `DotNet` holds 32-bit wrap-around `+=`, C#'s truncating `/` and `%`,
  `String.Trim`/`Replace`/`IndexOf`/`Split`, `Int32.Parse`, `StringReader.ReadLine`
  and integer-to-string formatting.

Each parser has three parts:
- a pure `Step` function: what one pass of the loop body does to the state
  record;
- `RunFrom`: `Step` folded over the lines;
- `Parse`: the fold run from the cleared state over `ReadLines` of the text.

An exception is a `Failed(error, info)` outcome. `info` is the dictionary as the
pass left it when the exception was thrown.

`ParseLicenses` is the source's imperative `while` loop. It assigns the class's
`licenseInfo` field and keeps the locals the C# code keeps. Its contract says it
leaves exactly what `Parse` describes for the same text. That text is the only
input, so the old contents of the dictionary never matter.

License and LicenseUser are mutable objects in C#. The model makes them values
held in a `map` field of the per-dialect parser class (see "## Left out").

Some behaviours of the code are easy to misread:
- A malformed number or date aborts the whole pass: `Int32.Parse` and
  `DateTime.ParseExact` throw there, and nothing catches them. The line is not
  skipped.
- An expired license block discards nothing. Its pending seats are not reset,
  so they are added to the next block of the same feature that commits.
  `ExpiredSeatsCarryOver` states this.
- The zero-seat cleanup runs only at the next "Feature Information" header.
  The last feature in the text is therefore never removed, even when it has no
  seats (`EntriesSurviveWithoutBoundary`).
- Only the Sentinel parser recognises a connectivity failure, and only by the
  phrase "Failed to resolve the server host". The LMUtil check is commented out.
  The failed pass leaves the dictionary partly rebuilt rather than unchanged.
- The LMUtil parser infers no year for its year-less timestamps. That is left
  to the date parser that the model takes as a parameter.

## Model

| member | source | states |
|---|---|---|
| DotNet.Add32 | LicenseParser.cs:120 | `+=` on an `int`: the exact sum when it fits in 32 bits, otherwise the sum wrapped by 2^32 |
| DotNet.QuotRem | Interfaces/LicenseParser.cs:40-41 | C# `/` and `%` by a positive divisor: quotient times divisor plus remainder gives back the dividend, and the remainder has the dividend's sign and is smaller than the divisor |
| DotNet.TruncationDiffersFromEuclid | LicenseParser.cs:81 | `(-1) / 2` is 0 in C#, where Euclidean division gives -1; for non-negative dividends the two agree |
| DotNet.Trim | LicenseParser.cs:171 | `String.Trim` returns a string with no white space at either end and no longer than its input |
| DotNet.TrimIsInfix | LicenseParser.cs:171 | the trimmed string is a part of the input with only white space before and after it |
| DotNet.TrimPadded | LicenseParser.cs:174 | trimming white-space padding off an already trimmed string gives that string back |
| DotNet.Replace | LicenseParser.cs:174 | replacing by the empty string adds no character, and removing a one-character pattern leaves none of that character |
| DotNet.ReplaceSkips | LicenseParser.cs:171 | `Replace` leaves a prefix alone when the prefix cannot start an occurrence of the pattern |
| DotNet.ReplaceFront | LicenseParser.cs:171 | an occurrence of the pattern at the front is replaced and the scan continues after it |
| DotNet.IndexFrom | LicenseParser.cs:81 | ordinal `IndexOf`: -1 when the pattern does not occur from `k` on, otherwise the first position where it does |
| DotNet.IndexOfChar | LicenseParser.cs:83 | `IndexOf(':')` is -1 exactly when the line has no colon, otherwise the position of the first colon |
| DotNet.SplitFirst | LicenseParser.cs:170 | `Split(':', 2)`: one part equal to the line when there is no colon, otherwise the text before the first colon and everything after it, which rejoined with the colon give back the line |
| DotNet.SplitFirstAt | LicenseParser.cs:170 | the split happens at the first colon, so later colons stay in the second part |
| DotNet.ParseInt32Chars | LicenseParser.cs:120 | every character of a text `Int32.Parse` accepts is a digit, a sign or white space |
| DotNet.ParseIntToString | Interfaces/LicenseParser.cs:44-45 | parsing the decimal text of any 32-bit integer gives the integer back |
| DotNet.ParseDigits | Interfaces/LMUtilParser.cs:96 | a run of digits parses to its value when that fits in 32 bits and throws otherwise |
| DotNet.NatToString | Interfaces/LicenseParser.cs:44-45 | the decimal text of a number is a non-empty run of digits without a leading zero whose value is that number |
| DotNet.ReadLines | LicenseParser.cs:72 | the lines a `StringReader` yields hold no line break, and there are none exactly when the text is empty |
| DotNet.ReadLinesJoin | LicenseParser.cs:72 | text with `\n` breaks and no trailing break is the lines it yields joined by `\n` |
| DotNet.ReadLinesCrLf | LicenseParser.cs:72 | a line followed by "\r\n" is read as that line; the pair is a single break |
| DotNet.ReadLinesCr | LicenseParser.cs:72 | a line followed by a lone "\r" is read as that line |
| DotNet.ReadMixedBreaks | LicenseParser.cs:72 | a text mixing "\r\n", "\r" and "\n" breaks is read as the lines between them |
| DotNet.ReadJoinedLines | LicenseParser.cs:72 | joining lines without breaks by `\n`, the last one non-empty, and reading them back gives the same lines |
| LicenseManager.NewLicense | Interfaces/LicenseParser.cs:69-72 | `new License(name)` has that name, 0 seats and no users; the copies at LicenseParser.cs:229-232 and Interfaces/LMUtilParser.cs:256-259 are the same |
| LicenseManager.NewLicenseWithSeats | Interfaces/LicenseParser.cs:74-78 | `new License(name, n)` has that name, n seats and no users (also Interfaces/LMUtilParser.cs:261-264) |
| LicenseManager.NewLicenseUser | Interfaces/LicenseParser.cs:93-96 | `new LicenseUser(name)` has that name, one seat in use and the default time (also LicenseParser.cs:247-250, Interfaces/LMUtilParser.cs:279-282) |
| LicenseManager.HoursAndMinutes | Interfaces/LicenseParser.cs:40-41 | the hours and minutes add up to the elapsed minutes; for a non-negative count the minutes lie in 0..59, and for a negative one in -59..0 |
| LicenseManager.UsageEntryShape | Interfaces/LicenseParser.cs:38-47 | each report line is the user key followed by `" [<h>h <m>m]"`, where h*60+m is the truncated elapsed minutes and m lies in 0..59 when they are not negative |
| LicenseManager.UsageReport | Interfaces/LicenseParser.cs:29-51 | the single placeholder "No licenses in use." for an unknown product or one with no holders; otherwise one line per holder, each holder exactly once, so never an empty list |
| LicenseManager.LicenseParser.constructor | Interfaces/LicenseParser.cs:13 | a new parser starts with an empty dictionary |
| LicenseManager.LicenseParser.ParseLicenses | Interfaces/LicenseParser.cs:15-17 | the base parse leaves the dictionary as it was |
| LicenseManager.LicenseParser.LicensesInUse | Interfaces/LicenseParser.cs:29-51 | the report described for `UsageReport`, over the parser's dictionary; the method changes no state |
| LicenseParser.LineMatcher | LicenseParser.cs:168-177 | one field when the line has no colon and two when it has one; the key holds no colon and no surrounding white space; the value holds no double quote and no surrounding white space |
| LicenseParser.KeyPart | LicenseParser.cs:171 | for a marked key (indentation, the marker and a space, the key, padding) the text before the colon, with the marker and its space removed and then trimmed, is the key |
| LicenseParser.QuotesRemoved | LicenseParser.cs:174 | removing double quotes turns a quoted value into the bare value |
| LicenseParser.ValuePart | LicenseParser.cs:174 | the text after the colon, quoted or not, comes out of LineMatcher as the bare value |
| LicenseParser.LineMatcherFieldLine | LicenseParser.cs:168-177 | a field line (indentation, the marker, key, padding, a colon and a value) splits into exactly key and value, and its marker sits right after the indentation |
| LicenseParser.LineMatcherHeaderLine | LicenseParser.cs:83 | a header line (indentation, the marker and a title) has no colon and splits into the title alone |
| LicenseParser.StartFeature | LicenseParser.cs:83-92 | at a feature boundary the pending seats are 0 and license mode is off; the current feature's entry is removed if and only if it exists with 0 seats; every other entry is unchanged |
| LicenseParser.Commit | LicenseParser.cs:135-136 | a commit adds the pending seats (with wrap-around) to the current license, leaves its name and users and every other entry alone, and resets the pending seats to 0 |
| LicenseParser.CheckOut | LicenseParser.cs:138-146 | a "User name" line records the user as the last named; a new user gets one seat and the default time; a known user's seats in use go up by one; nothing else changes |
| LicenseParser.SetDateOpened | LicenseParser.cs:147-150 | a "Status" line sets the last-named user's checkout time and changes nothing else |
| LicenseParser.FeatureInformationStep | LicenseParser.cs:83-92 | a "Feature Information" header is a feature boundary and does exactly what `StartFeature` does |
| LicenseParser.LicenseInformationStep | LicenseParser.cs:93-96 | a "License Information" header switches license mode on and changes nothing else |
| LicenseParser.FeatureNameStep | LicenseParser.cs:100-109 | a "Feature name" line sets the current feature name, after leaving the license block when it stands at level 1 |
| LicenseParser.FeatureVersionStep | LicenseParser.cs:113-117 | a "Feature version" line for a name not yet a key adds `name + " " + version` with 0 seats and no users and makes it current; it throws when that key already exists; for a known name it does nothing |
| LicenseParser.MaxUsersStep | LicenseParser.cs:118-121 | in license mode, "Maximum concurrent user(s)" adds its number to the pending seats or throws on a bad number; outside license mode it does nothing |
| LicenseParser.ExpirationStep | LicenseParser.cs:122-137 | in license mode, "Expiration date" commits when the license does not expire or expires today or later; for an expired license it only switches license mode off; an unparsable date throws; outside license mode it does nothing |
| LicenseParser.UserNameStep | LicenseParser.cs:138-146 | a "User name" line under a known feature is exactly `CheckOut` |
| LicenseParser.StatusStep | LicenseParser.cs:147-150 | a "Status" line sets the checkout time, parsed after removing "Running since ", only when the last-named user holds the current feature; a bad date then throws; otherwise nothing changes |
| LicenseParser.UnmarkedLinesKeepState | LicenseParser.cs:74-79 | lines without the block marker and without the host-failure phrase change nothing |
| LicenseParser.HostUnresolvedAborts | LicenseParser.cs:74-79 | an unmarked line with "Failed to resolve the server host" ends the pass with the connectivity error |
| LicenseParser.SeatsChangeOnlyOnCommit | LicenseParser.cs:118-137 | any line either leaves every seat count as it was (new entries start at 0) or is an "Expiration date" commit line in license mode that performs exactly `Commit` |
| LicenseParser.EntriesSurviveWithoutBoundary | LicenseParser.cs:83-92 | without a "Feature Information" header no entry is removed, so the last feature of the text is never dropped |
| LicenseParser.CheckoutsCounted | LicenseParser.cs:138-146 | n consecutive identical "User name" lines for the same user raise that user's seats in use by n, starting from 1 for a new user |
| LicenseParser.StepCheckouts | LicenseParser.cs:138-150 | a line that keeps the current feature changes a user's seats in use, and records the user, only when it is a "User name" field naming that user, and then adds exactly one |
| LicenseParser.CheckoutsCountedAcross | LicenseParser.cs:138-150 | over any lines without a "Feature Information" header or a "Feature name" field, in a pass that does not throw, a user's seats in use grow by the number of "User name" lines naming the user (host names, status lines, other users and license blocks in between change nothing), starting at 1 for a new user |
| LicenseParser.ParseWellKeyed | LicenseParser.cs:116 | after any pass, complete or not, every license is stored under its own name, every user under that user's name, and no key is empty |
| LicenseParser.SingleFeature | LicenseParser.cs:72-153 | a feature with one unexpiring license block of n seats parses to that single feature with n seats and no users |
| LicenseParser.SapExample | LicenseParser.cs:72-153 | feature "SAP" version "2023" with 5 unexpiring seats parses to "SAP 2023" with 5 seats and no users |
| LicenseParser.LicenseExpired | LicenseParser.cs:128-131 | an expired date leaves license mode without committing and keeps the pending seats |
| LicenseParser.ExpiredSeatsCarryOver | LicenseParser.cs:122-137 | an expired block of n seats followed by a valid block of m seats gives the feature n+m seats |
| LicenseParser.LicenseParser.constructor | LicenseParser.cs:29-33 | a new parser starts with an empty dictionary |
| LicenseParser.LicenseParser.ParseLicenses | LicenseParser.cs:46-155 | the loop leaves the dictionary that `Parse` gives for the text, or the error and the partial dictionary when a line throws; the old contents do not matter |
| LicenseParser.LicenseParser.ReadLine | LicenseParser.cs:74-152 | one pass of the loop body performs `Step` on the field and the locals, and on an error leaves the field untouched |
| LicenseParser.LicenseParser.ReadFieldLine | LicenseParser.cs:99-151 | the field-line part of the body: the name check, leaving the block at level 1, and the field's effect |
| LicenseParser.LicenseParser.ReadField | LicenseParser.cs:111-151 | the branch on the field key performs the field's transition on the dictionary and the locals |
| LicenseParser.LicenseParser.LicensesInUse | LicenseParser.cs:189-211 | the shared report over this parser's dictionary |
| LMUtil.Level | Interfaces/LMUtilParser.cs:85 | the level is never negative, and twice the level is at most the line's length |
| LMUtil.LevelOf | Interfaces/LMUtilParser.cs:85 | the level is the length of the leading white-space run divided by 2 |
| LMUtil.ProductTokenCapture | Interfaces/LMUtilParser.cs:89 | for `Users of <5 digits><word>:...` the name pattern captures the whole word, version suffix included |
| LMUtil.ProductTokenUnmatched | Interfaces/LMUtilParser.cs:89 | a line that does not start with "Users of " is left unchanged by the replacement |
| LMUtil.StripVersionSuffix | Interfaces/LMUtilParser.cs:90 | removing `_####_0F` suffixes never makes the code longer |
| LMUtil.StripSkips | Interfaces/LMUtilParser.cs:90 | text in which no suffix starts is kept as it is |
| LMUtil.StripVersion | Interfaces/LMUtilParser.cs:90 | `<code>_<4 digits>_0F` becomes the bare code when no digit follows an underscore in the code |
| LMUtil.LastClause | Interfaces/LMUtilParser.cs:31 | finds the last position where `" <digits> licenses issued"` starts, or reports that there is none |
| LMUtil.IssuedCount | Interfaces/LMUtilParser.cs:96 | the text handed to `int.Parse` is the digit run before the last " licenses issued" |
| LMUtil.RevitToken | Interfaces/LMUtilParser.cs:232-238 | the catalog turns "RVT_2024_0F", once its suffix is removed, into "Revit" |
| LMUtil.AddUser | Interfaces/LMUtilParser.cs:108-111 | adding a holder gives it one seat and its checkout time and leaves the other holders, the seats and the name alone |
| LMUtil.HeaderStep | Interfaces/LMUtilParser.cs:96-100 | a header throws exactly when the count does not parse; otherwise it makes the name current and adds the entry with the count as seats only if the name is new |
| LMUtil.UserStep | Interfaces/LMUtilParser.cs:102-114 | a user line throws exactly when the start time does not parse; otherwise it adds a non-empty, not yet present user and clears the user name, changing nothing else |
| LMUtil.HeaderCreates | Interfaces/LMUtilParser.cs:88-101 | a level-0 header for a product code with a count creates the catalog name with that many seats when the name is new, keeps an existing entry's seats, and throws when the count overflows |
| LMUtil.HeaderWithoutCountAborts | Interfaces/LMUtilParser.cs:96 | a header without " licenses issued" aborts the pass with a number error |
| LMUtil.UserLineStep | Interfaces/LMUtilParser.cs:102-114 | a matched level-2 line under a known product adds the user with the parsed time when absent and leaves the dictionary unchanged when the user is empty or present |
| LMUtil.UnmatchedUserLineAborts | Interfaces/LMUtilParser.cs:104-106 | a level-2 line that the user pattern does not match hands an empty string to the date parser and throws |
| LMUtil.UsersChangeOnlyOnUserLines | Interfaces/LMUtilParser.cs:88-114 | a product's holders change only on a level-2 user line under that product, and no product is removed |
| LMUtil.RunFromExtends | Interfaces/LMUtilParser.cs:98-111 | over any lines, every entry keeps its name and seats and every holder keeps its record: first sight wins for products and for users |
| LMUtil.ParseWellKeyed | Interfaces/LMUtilParser.cs:98-111 | after any pass every license is stored under its own name and every user under that user's name |
| LMUtil.RevitHeaderStep | Interfaces/LMUtilParser.cs:88-101 | a Revit header with 10 seats creates "Revit" with 10 seats and makes it current |
| LMUtil.RepeatedUserLines | Interfaces/LMUtilParser.cs:108-113 | two user lines for the same new user add it once, with the first line's time |
| LMUtil.FirstCheckoutWins | Interfaces/LMUtilParser.cs:108-111 | a header and two checkouts by one user parse to one holder with one seat in use and the first checkout time |
| LMUtil.LicenseParser.constructor | Interfaces/LMUtilParser.cs:29-36 | a new parser starts with an empty dictionary |
| LMUtil.LicenseParser.ParseLicenses | Interfaces/LMUtilParser.cs:49-174 | the loop, after clearing the dictionary, leaves what `Parse` gives for the text, or the error and the partial dictionary |
| LMUtil.LicenseParser.ReadHeader | Interfaces/LMUtilParser.cs:88-101 | the header branch performs `HeaderStep` on the dictionary and the locals |
| LMUtil.LicenseParser.ReadUser | Interfaces/LMUtilParser.cs:102-114 | the user branch performs `UserStep` on the dictionary and the locals |
| LMUtil.LicenseParser.LicensesInUse | Interfaces/LMUtilParser.cs:208-230 | the shared report over this parser's dictionary |

## Left out

- The user interface, the `SentinelInterface` and `LMUtilInterface` classes and `QueryServer`. They run an external process and capture its output, so the model takes the captured text as a parameter.
- The constructors taking a server address. They only build the query object, which is not part of this model.
- `DateTime.ParseExact` under the en-GB culture is a parameter: a partial function from text to a time in whole seconds. The model infers no year for the year-less LMUtil format, and neither does the code.
- `LMUtil.UnmatchedUserLineAborts`: the model does not force the date parser to reject the empty string, as .NET's `ParseExact` does; the lemma takes that rejection as a requirement.
- `DateTime.Today` and `DateTime.Now` are parameters.
- The LMUtil user-line regular expression is a parameter that returns groups 1 and 4, or nothing when the line does not match.
- The other two regular expressions are written out by hand, with `\w` restricted to ASCII letters, digits and `_`.
- `^\s+` and `String.Trim` use the Unicode white-space set that `Char.IsWhiteSpace` uses. `IndexOf` is modelled as an ordinal search.
- `LicenseManager.MinutesUsed`: `TimeSpan.TotalMinutes` is a double. The model works in whole seconds and truncates toward zero, so it ignores sub-second ticks and the range of the `(int)` cast.
- `LicenseManager.UsageReport`: the order in which a `Dictionary` is enumerated is unspecified. The model returns it only as a ghost enumeration order.
- Objects are values in the model. `License` and `LicenseUser` are datatypes in the parser's `map`, so aliasing of these objects between dictionaries is not modelled. No such aliasing arises in the code.
- The unused counter `id` (LicenseParser.cs:85) changes no observable state.
- The dead second "Feature name" branch (LicenseParser.cs:102-103) can never be taken.
- The commented-out code in Interfaces/LMUtilParser.cs is not modelled, and neither is its unused `LineMatcher` (Interfaces/LMUtilParser.cs:187-196).
- The SentinelInterface error checks are part of the query object, which is left out.
- `LicenseParser.SapExample` and the other worked examples are stated on lines built from their fields. The indentation is white space, and the exact widths are left as parameters where the proof allows.
