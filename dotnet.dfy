/** The pieces of .NET behaviour the license parsers rely on, stated in Dafny's
    terms: C#'s 32-bit `int` with unchecked wrap-around, C#'s truncating `/` and `%`,
    `Char.IsWhiteSpace`, `String.Trim`, `String.Replace`, `String.IndexOf`,
    `String.Split(char[], 2)`, `Int32.Parse`, `Int32.ToString` and the line
    splitting of `StringReader.ReadLine`. */
module DotNet {

  datatype Option<+T> = None | Some(value: T)

  const Int32Min: int := -0x8000_0000
  const Int32Max: int := 0x7FFF_FFFF

  /** C#'s `int`. */
  type Int32 = x: int | -0x8000_0000 <= x <= 0x7FFF_FFFF

  /** The value an unbounded integer takes when it is stored in a C# `int` in an
      unchecked context: two's-complement wrap-around modulo 2^32. */
  function Wrap32(x: int): (r: Int32)
    ensures (x - r) % 0x1_0000_0000 == 0
    ensures Int32Min <= x <= Int32Max ==> r == x
  {
    (x + 0x8000_0000) % 0x1_0000_0000 - 0x8000_0000
  }

  /** `a + b` and `a += b` on C# ints. */
  function Add32(a: Int32, b: Int32): (r: Int32)
    ensures Int32Min <= a + b <= Int32Max ==> r == a + b
    ensures a + b > Int32Max ==> r == a + b - 0x1_0000_0000
    ensures a + b < Int32Min ==> r == a + b + 0x1_0000_0000
  {
    Wrap32(a + b)
  }

  /** C#'s integer `a / b`, which truncates toward zero (Dafny's `/` is Euclidean). */
  function Quot(a: int, b: int): int
    requires b > 0
  {
    if a >= 0 then a / b else -((-a) / b)
  }

  /** C#'s integer `a % b`, whose sign follows the dividend. */
  function Rem(a: int, b: int): int
    requires b > 0
  {
    if a >= 0 then a % b else -((-a) % b)
  }

  /** Truncating division and remainder split the dividend exactly; the remainder
      is in [0, b) for a non-negative dividend and in (-b, 0] for a negative one. */
  lemma QuotRem(a: int, b: int)
    requires b > 0
    ensures Quot(a, b) * b + Rem(a, b) == a
    ensures a >= 0 ==> 0 <= Rem(a, b) < b && 0 <= Quot(a, b)
    ensures a < 0 ==> -b < Rem(a, b) <= 0 && Quot(a, b) <= 0
  {
    var n := if a >= 0 then a else -a;
    var q, r := n / b, n % b;
    DivModNat(n, b);
    if a < 0 {
      assert Quot(a, b) == -q && Rem(a, b) == -r;
      NegatedProduct(q, b);
    } else {
      assert Quot(a, b) == q && Rem(a, b) == r;
    }
  }

  lemma DivModNat(n: int, b: int)
    requires n >= 0 && b > 0
    ensures (n / b) * b + n % b == n && 0 <= n % b < b && 0 <= n / b
  {
  }

  lemma NegatedProduct(q: int, b: int)
    ensures (-q) * b == -(q * b)
  {
  }

  /** Where the two conventions part: in C# `(-1) / 2 == 0`, in Dafny `-1 / 2 == -1`. */
  lemma TruncationDiffersFromEuclid()
    ensures Quot(-1, 2) == 0 && -1 / 2 == -1
    ensures forall a :: a >= 0 ==> Quot(a, 2) == a / 2
  {
  }

  // ---------------------------------------------------------------------------
  // Characters and trimming

  /** Char.IsWhiteSpace, which is also the class `\s` of .NET regular expressions:
      U+0009..U+000D, U+0020, U+0085, U+00A0 and the other Unicode space, line and
      paragraph separators. */
  predicate IsWhiteSpace(c: char) {
    c == ' ' || ('\t' <= c <= '\r') || c == '\U{0085}' || c == '\U{00A0}' ||
    c == '\U{1680}' || ('\U{2000}' <= c <= '\U{200A}') || c == '\U{2028}' ||
    c == '\U{2029}' || c == '\U{202F}' || c == '\U{205F}' || c == '\U{3000}'
  }

  predicate AllWhiteSpace(s: string) {
    forall i :: 0 <= i < |s| ==> IsWhiteSpace(s[i])
  }

  /** No white space at either end. */
  predicate Trimmed(s: string) {
    s == [] || (!IsWhiteSpace(s[0]) && !IsWhiteSpace(s[|s| - 1]))
  }

  /** String.TrimStart(): the longest suffix that does not start with white space. */
  function TrimStart(s: string): (r: string)
    ensures |r| <= |s| && r == s[|s| - |r|..]
    ensures AllWhiteSpace(s[..|s| - |r|])
    ensures r != [] ==> !IsWhiteSpace(r[0])
    decreases |s|
  {
    if s != [] && IsWhiteSpace(s[0]) then
      var r := TrimStart(s[1..]);
      WhiteSpaceCons(s, |s| - |r|);
      r
    else s
  }

  lemma WhiteSpaceCons(s: string, k: nat)
    requires 0 < k <= |s| && IsWhiteSpace(s[0]) && AllWhiteSpace(s[1..][..k - 1])
    ensures AllWhiteSpace(s[..k])
  {
    forall j | 0 <= j < k
      ensures IsWhiteSpace(s[..k][j])
    {
      if j > 0 {
        assert s[..k][j] == s[1..][..k - 1][j - 1];
      }
    }
  }

  lemma WhiteSpaceSnoc(s: string, k: nat)
    requires k < |s| && IsWhiteSpace(s[|s| - 1]) && AllWhiteSpace(s[..|s| - 1][k..])
    ensures AllWhiteSpace(s[k..])
  {
    forall j | 0 <= j < |s| - k
      ensures IsWhiteSpace(s[k..][j])
    {
      if j < |s| - 1 - k {
        assert s[k..][j] == s[..|s| - 1][k..][j];
      }
    }
  }

  /** String.TrimEnd(): the longest prefix that does not end with white space. */
  function TrimEnd(s: string): (r: string)
    ensures |r| <= |s| && r == s[..|r|]
    ensures AllWhiteSpace(s[|r|..])
    ensures r != [] ==> !IsWhiteSpace(r[|r| - 1])
    decreases |s|
  {
    if s != [] && IsWhiteSpace(s[|s| - 1]) then
      var r := TrimEnd(s[..|s| - 1]);
      WhiteSpaceSnoc(s, |r|);
      r
    else s
  }

  lemma TrimInfix(s: string, t: string, r: string)
    requires |t| <= |s| && t == s[|s| - |t|..] && AllWhiteSpace(s[..|s| - |t|])
    requires |r| <= |t| && r == t[..|r|] && AllWhiteSpace(t[|r|..])
    ensures PaddedInfix(s, r)
  {
    var i := |s| - |t|;
    assert s[i..i + |r|] == r;
    assert s[i + |r|..] == t[|r|..];
    PaddedAt(s, r, i);
  }

  /** String.Trim(): white space dropped at both ends. */
  function Trim(s: string): (r: string)
    ensures Trimmed(r) && |r| <= |s|
  {
    var t := TrimStart(s);
    var r := TrimEnd(t);
    assert r != [] ==> r[0] == t[0];
    r
  }

  /** r occurs in s with only white space before and after it. */
  ghost predicate PaddedInfix(s: string, r: string) {
    exists i :: 0 <= i <= |s| - |r| && r == s[i..i + |r|]
                && AllWhiteSpace(s[..i]) && AllWhiteSpace(s[i + |r|..])
  }

  /** What Trim leaves is an infix of s with only white space around it. */
  lemma TrimIsInfix(s: string)
    ensures PaddedInfix(s, Trim(s))
  {
    TrimInfix(s, TrimStart(s), TrimEnd(TrimStart(s)));
  }

  lemma PaddedAt(s: string, r: string, i: int)
    requires 0 <= i <= |s| - |r| && r == s[i..i + |r|]
    requires AllWhiteSpace(s[..i]) && AllWhiteSpace(s[i + |r|..])
    ensures PaddedInfix(s, r)
  {
  }

  lemma {:induction false} TrimStartPadded(p: string, x: string)
    requires AllWhiteSpace(p)
    requires x == [] || !IsWhiteSpace(x[0])
    ensures TrimStart(p + x) == x
    decreases |p|
  {
    if p != [] {
      assert (p + x)[1..] == p[1..] + x;
      TrimStartPadded(p[1..], x);
    } else {
      assert p + x == x;
    }
  }

  lemma {:induction false} TrimEndPadded(x: string, q: string)
    requires AllWhiteSpace(q)
    requires x == [] || !IsWhiteSpace(x[|x| - 1])
    ensures TrimEnd(x + q) == x
    decreases |q|
  {
    if q != [] {
      assert (x + q)[..|x + q| - 1] == x + q[..|q| - 1];
      TrimEndPadded(x, q[..|q| - 1]);
    } else {
      assert x + q == x;
    }
  }

  /** Trim takes back exactly the white space padded around a trimmed string. */
  lemma {:induction false} TrimPadded(p: string, x: string, q: string)
    requires AllWhiteSpace(p) && AllWhiteSpace(q) && Trimmed(x)
    ensures Trim(p + x + q) == x
  {
    if x == [] {
      assert p + x + q == p + q;
      assert AllWhiteSpace(p + q);
      TrimStartPadded(p + q, []);
      assert p + q + [] == p + q;
      TrimEndPadded([], []);
    } else {
      assert p + x + q == p + (x + q);
      TrimStartPadded(p, x + q);
      TrimEndPadded(x, q);
    }
  }

  // ---------------------------------------------------------------------------
  // Searching, replacing and splitting

  /** String.Replace(pat, rep) with a non-empty pattern: the occurrences of pat are
      found from left to right, without overlap, and each is replaced by rep. */
  function Replace(s: string, pat: string, rep: string): (r: string)
    requires pat != []
    ensures rep == [] ==> |r| <= |s| && forall c :: c in r ==> c in s
    ensures rep == [] && |pat| == 1 ==> pat[0] !in r
    decreases |s|
  {
    if |s| < |pat| then s
    else if s[..|pat|] == pat then rep + Replace(s[|pat|..], pat, rep)
    else [s[0]] + Replace(s[1..], pat, rep)
  }

  /** A prefix that cannot start an occurrence of pat passes through Replace unchanged. */
  lemma {:induction false} ReplaceSkips(a: string, b: string, pat: string, rep: string)
    requires pat != [] && pat[0] !in a
    ensures Replace(a + b, pat, rep) == a + Replace(b, pat, rep)
    decreases |a|
  {
    if a != [] {
      var s := a + b;
      if |s| < |pat| {
        ReplaceSkips(a[1..], b, pat, rep);
        assert s[1..] == a[1..] + b;
        assert Replace(a[1..] + b, pat, rep) == a[1..] + b;
      } else {
        assert s[..|pat|][0] == a[0];
        assert s[1..] == a[1..] + b;
        ReplaceSkips(a[1..], b, pat, rep);
      }
    } else {
      assert a + b == b;
    }
  }

  /** An occurrence of pat at the front is replaced, and the scan resumes after it. */
  lemma ReplaceFront(pat: string, b: string, rep: string)
    requires pat != []
    ensures Replace(pat + b, pat, rep) == rep + Replace(b, pat, rep)
  {
    assert (pat + b)[..|pat|] == pat;
    assert (pat + b)[|pat|..] == b;
  }

  /** pat occurs in s starting at index j. */
  predicate OccursAt(s: string, pat: string, j: int) {
    0 <= j && j + |pat| <= |s| && s[j..j + |pat|] == pat
  }

  /** The first index at or after k at which pat occurs in s, or -1. */
  function IndexFrom(s: string, pat: string, k: nat): (r: int)
    requires k <= |s|
    ensures r == -1 || (k <= r && OccursAt(s, pat, r))
    ensures forall j :: k <= j && (r == -1 || j < r) ==> !OccursAt(s, pat, j)
    decreases |s| - k
  {
    if k + |pat| > |s| then -1
    else if s[k..k + |pat|] == pat then k
    else IndexFrom(s, pat, k + 1)
  }

  /** String.IndexOf(string): the first index at which pat occurs in s, or -1. */
  function IndexOf(s: string, pat: string): int {
    IndexFrom(s, pat, 0)
  }

  /** String.Contains(string). */
  predicate Contains(s: string, pat: string) {
    IndexOf(s, pat) >= 0
  }

  /** The first occurrence of pat is at k when pat occurs there and its first
      character does not occur before k. */
  lemma IndexOfAt(s: string, pat: string, k: nat)
    requires pat != [] && OccursAt(s, pat, k) && pat[0] !in s[..k]
    ensures IndexOf(s, pat) == k
  {
    assert forall i :: 0 <= i < k ==> s[i] == s[..k][i];
  }

  /** String.IndexOf(char): the first index of c in s, or -1. */
  function IndexOfChar(s: string, c: char): (r: int)
    ensures r == -1 <==> c !in s
    ensures r != -1 ==> 0 <= r < |s| && s[r] == c && c !in s[..r]
    decreases |s|
  {
    if s == [] then -1
    else if s[0] == c then 0
    else
      var k := IndexOfChar(s[1..], c);
      if k == -1 then -1 else assert s[..k + 1] == [s[0]] + s[1..][..k]; k + 1
  }

  /** String.Split(new[] { c }, 2): the text before the first c and everything
      after it, or the whole string alone when c does not occur in it. */
  function SplitFirst(s: string, c: char): (parts: seq<string>)
    ensures |parts| == (if c in s then 2 else 1)
    ensures c !in parts[0]
    ensures |parts| == 1 ==> parts[0] == s
    ensures |parts| == 2 ==> s == parts[0] + [c] + parts[1]
  {
    var k := IndexOfChar(s, c);
    if k == -1 then [s]
    else
      assert s == s[..k] + [c] + s[k + 1..];
      [s[..k], s[k + 1..]]
  }

  /** Splitting at the first c of a + [c] + b, where a has no c, gives back a and b. */
  lemma SplitFirstAt(a: string, c: char, b: string)
    requires c !in a
    ensures SplitFirst(a + [c] + b, c) == [a, b]
  {
    var s := a + [c] + b;
    assert s[|a|] == c;
    assert forall i :: 0 <= i < |a| ==> s[i] == a[i];
    assert IndexOfChar(s, c) == |a|;
    assert s[..|a|] == a && s[|a| + 1..] == b;
  }

  // ---------------------------------------------------------------------------
  // Int32.Parse and Int32.ToString

  predicate IsDigit(c: char) {
    '0' <= c <= '9'
  }

  predicate AllDigits(s: string) {
    forall i :: 0 <= i < |s| ==> IsDigit(s[i])
  }

  /** The number a string of decimal digits denotes. */
  function DigitsValue(s: string): nat
    requires AllDigits(s)
    decreases |s|
  {
    if s == [] then 0 else 10 * DigitsValue(s[..|s| - 1]) + (s[|s| - 1] - '0') as int
  }

  /** The white space NumberStyles.Integer lets surround a number: U+0009..U+000D and U+0020. */
  predicate IsNumberWhiteSpace(c: char) {
    c == ' ' || ('\t' <= c <= '\r')
  }

  function SkipNumberWhiteSpace(s: string): (r: string)
    ensures |r| <= |s| && r == s[|s| - |r|..]
    ensures r != [] ==> !IsNumberWhiteSpace(r[0])
    decreases |s|
  {
    if s != [] && IsNumberWhiteSpace(s[0]) then SkipNumberWhiteSpace(s[1..]) else s
  }

  function DropNumberWhiteSpace(s: string): (r: string)
    ensures |r| <= |s| && r == s[..|r|]
    decreases |s|
  {
    if s != [] && IsNumberWhiteSpace(s[|s| - 1]) then DropNumberWhiteSpace(s[..|s| - 1]) else s
  }

  /** Int32.Parse(s) with NumberStyles.Integer and ASCII sign symbols: optional
      surrounding white space, an optional '+' or '-', then one or more decimal
      digits whose value fits in an `int`. None stands for the FormatException or
      OverflowException the parse throws. */
  function ParseInt32(s: string): (r: Option<Int32>)
  {
    var t := DropNumberWhiteSpace(SkipNumberWhiteSpace(s));
    if t == [] then None
    else
      var digits := if t[0] == '-' || t[0] == '+' then t[1..] else t;
      if digits == [] || !AllDigits(digits) then None
      else
        var v: int := if t[0] == '-' then -(DigitsValue(digits) as int) else DigitsValue(digits);
        if Int32Min <= v <= Int32Max then Some(v) else None
  }

  /** Every character Int32.Parse accepts is a digit, a sign or number white space. */
  lemma ParseInt32Chars(s: string, i: nat)
    requires i < |s| && ParseInt32(s).Some?
    ensures IsDigit(s[i]) || s[i] == '-' || s[i] == '+' || IsNumberWhiteSpace(s[i])
  {
    var u := SkipNumberWhiteSpace(s);
    var t := DropNumberWhiteSpace(u);
    var lead := |s| - |u|;
    SkippedIsNumberWhiteSpace(s);
    if i < lead {
    } else if i - lead < |t| {
      assert s[i] == t[i - lead];
      if i - lead > 0 {
        assert t[1..][i - lead - 1] == t[i - lead];
      }
    } else {
      DroppedIsNumberWhiteSpace(u);
      assert s[i] == u[i - lead];
    }
  }

  lemma {:induction false} SkippedIsNumberWhiteSpace(s: string)
    ensures forall j :: 0 <= j < |s| - |SkipNumberWhiteSpace(s)| ==> IsNumberWhiteSpace(s[j])
    decreases |s|
  {
    if s != [] && IsNumberWhiteSpace(s[0]) {
      SkippedIsNumberWhiteSpace(s[1..]);
      forall j | 0 <= j < |s| - |SkipNumberWhiteSpace(s)| ensures IsNumberWhiteSpace(s[j]) {
        if j > 0 { assert s[j] == s[1..][j - 1]; }
      }
    }
  }

  lemma {:induction false} DroppedIsNumberWhiteSpace(s: string)
    ensures forall j :: |DropNumberWhiteSpace(s)| <= j < |s| ==> IsNumberWhiteSpace(s[j])
    decreases |s|
  {
    if s != [] && IsNumberWhiteSpace(s[|s| - 1]) {
      DroppedIsNumberWhiteSpace(s[..|s| - 1]);
    }
  }

  function DigitChar(d: nat): (c: char)
    requires d < 10
    ensures IsDigit(c) && (c - '0') as int == d
  {
    ('0' as int + d) as char
  }

  /** The decimal digits of n, most significant first, without leading zeros. */
  function NatToString(n: nat): (r: string)
    ensures r != [] && AllDigits(r) && DigitsValue(r) == n
    ensures n > 0 ==> r[0] != '0'
    decreases n
  {
    if n < 10 then [DigitChar(n)]
    else
      var r := NatToString(n / 10) + [DigitChar(n % 10)];
      assert r[..|r| - 1] == NatToString(n / 10);
      r
  }

  /** Int32.ToString() under a culture whose negative sign is "-". */
  function IntToString(x: int): string {
    if x < 0 then "-" + NatToString(-(x as int)) else NatToString(x)
  }

  lemma {:induction false} DigitsAreNotWhiteSpace(s: string)
    requires s != [] && AllDigits(s)
    ensures SkipNumberWhiteSpace(s) == s && DropNumberWhiteSpace(s) == s
  {
  }

  /** Int32.Parse reads back what Int32.ToString writes. */
  lemma ParseIntToString(x: Int32)
    ensures ParseInt32(IntToString(x)) == Some(x)
  {
    var s := IntToString(x);
    if x < 0 {
      var d := NatToString(-(x as int));
      assert s == "-" + d && s[0] == '-' && s[1..] == d;
      assert SkipNumberWhiteSpace(s) == s;
      assert s[|s| - 1] == d[|d| - 1];
      assert DropNumberWhiteSpace(s) == s;
    } else {
      DigitsAreNotWhiteSpace(s);
    }
  }

  /** Int32.Parse of a bare run of digits gives its value, or throws when the
      value does not fit in an `int`. */
  lemma ParseDigits(digits: string)
    requires digits != [] && AllDigits(digits)
    ensures ParseInt32(digits) == if DigitsValue(digits) <= Int32Max then Some(DigitsValue(digits)) else None
  {
    DigitsAreNotWhiteSpace(digits);
    assert IsDigit(digits[0]);
  }

  // ---------------------------------------------------------------------------
  // StringReader.ReadLine

  predicate IsLineBreak(c: char) {
    c == '\n' || c == '\r'
  }

  predicate NoLineBreak(s: string) {
    forall j :: 0 <= j < |s| ==> !IsLineBreak(s[j])
  }

  /** The index of the first '\r' or '\n' in s, or |s|. */
  function LineEnd(s: string): (k: nat)
    ensures k <= |s| && NoLineBreak(s[..k]) && (k < |s| ==> IsLineBreak(s[k]))
    decreases |s|
  {
    if s == [] || IsLineBreak(s[0]) then 0
    else
      var k := 1 + LineEnd(s[1..]);
      assert s[..k] == [s[0]] + s[1..][..k - 1];
      k
  }

  /** The lines that repeated calls of StringReader.ReadLine return before it
      returns null: a line ends at "\r\n", '\r' or '\n', and a line break at the
      very end does not start another line. */
  function ReadLines(s: string): (lines: seq<string>)
    ensures forall i :: 0 <= i < |lines| ==> NoLineBreak(lines[i])
    ensures s != [] <==> lines != []
    decreases |s|
  {
    if s == [] then []
    else
      var k := LineEnd(s);
      if k == |s| then [s]
      else
        var next := if s[k] == '\r' && k + 1 < |s| && s[k + 1] == '\n' then k + 2 else k + 1;
        [s[..k]] + ReadLines(s[next..])
  }

  /** The lines joined back with '\n' between them. */
  function JoinLines(lines: seq<string>): string
    decreases |lines|
  {
    if lines == [] then ""
    else if |lines| == 1 then lines[0]
    else lines[0] + "\n" + JoinLines(lines[1..])
  }

  /** For text that uses '\n' alone as the separator and does not end with one,
      splitting into lines and joining them again gives back the text. */
  lemma {:induction false} ReadLinesJoin(s: string)
    requires '\r' !in s
    requires s == [] || s[|s| - 1] != '\n'
    ensures JoinLines(ReadLines(s)) == s
    decreases |s|
  {
    if s != [] {
      var k := LineEnd(s);
      if k < |s| {
        var rest := s[k + 1..];
        SplitAtBreak(s, k);
        ReadLinesJoin(rest);
        assert ReadLines(s) == [s[..k]] + ReadLines(rest);
        JoinCons(s[..k], ReadLines(rest));
      }
    }
  }

  /** Cutting '\n'-separated text after its first break leaves text of the same kind. */
  lemma SplitAtBreak(s: string, k: nat)
    requires '\r' !in s && s != [] && s[|s| - 1] != '\n'
    requires k < |s| && IsLineBreak(s[k])
    ensures s[k] == '\n' && '\r' !in s[k + 1..] && s[k + 1..] != []
    ensures s[k + 1..][|s[k + 1..]| - 1] != '\n'
    ensures s == s[..k] + "\n" + s[k + 1..]
  {
    assert s[k] in s;
    var rest := s[k + 1..];
    assert forall c :: c in rest ==> c in s;
    assert rest[|rest| - 1] == s[|s| - 1];
  }

  lemma JoinCons(line: string, lines: seq<string>)
    requires lines != []
    ensures JoinLines([line] + lines) == line + "\n" + JoinLines(lines)
  {
    assert ([line] + lines)[1..] == lines;
  }

  /** A line without breaks ends where the next break, or the text, begins. */
  lemma {:induction false} LineEndAfter(line: string, rest: string)
    requires NoLineBreak(line)
    requires rest == [] || IsLineBreak(rest[0])
    ensures LineEnd(line + rest) == |line|
    decreases |line|
  {
    if line != [] {
      assert (line + rest)[0] == line[0];
      assert (line + rest)[1..] == line[1..] + rest;
      LineEndAfter(line[1..], rest);
    } else {
      assert line + rest == rest;
    }
  }

  /** Lines without breaks, joined with '\n', are read back as the same lines,
      provided the last one is not empty (a break at the very end adds no line). */
  lemma {:induction false} ReadJoinedLines(lines: seq<string>)
    requires forall i :: 0 <= i < |lines| ==> NoLineBreak(lines[i])
    requires lines == [] || lines[|lines| - 1] != []
    ensures ReadLines(JoinLines(lines)) == lines
    decreases |lines|
  {
    if |lines| == 1 {
      assert lines[0] + [] == lines[0];
      LineEndAfter(lines[0], []);
    } else if |lines| > 1 {
      assert JoinLines(lines) == lines[0] + "\n" + JoinLines(lines[1..]);
      ReadLinesCons(lines[0], JoinLines(lines[1..]));
      ReadJoinedLines(lines[1..]);
      assert lines == [lines[0]] + lines[1..];
    }
  }

  /** A line followed by '\n' is read as that line, then the rest is read on. */
  lemma ReadLinesCons(line: string, rest: string)
    requires NoLineBreak(line)
    ensures ReadLines(line + "\n" + rest) == [line] + ReadLines(rest)
  {
    var s := line + ("\n" + rest);
    assert line + "\n" + rest == s;
    LineEndAfter(line, "\n" + rest);
    assert s[|line|] == '\n';
    assert s[|line| + 1..] == rest;
    assert s[..|line|] == line;
  }

  /** A line followed by "\r\n" is read as that line: the pair is one break. */
  lemma ReadLinesCrLf(line: string, rest: string)
    requires NoLineBreak(line)
    ensures ReadLines(line + "\r\n" + rest) == [line] + ReadLines(rest)
  {
    var s := line + ("\r\n" + rest);
    assert line + "\r\n" + rest == s;
    LineEndAfter(line, "\r\n" + rest);
    assert s[|line|] == '\r' && s[|line| + 1] == '\n';
    assert s[|line| + 2..] == rest;
    assert s[..|line|] == line;
  }

  /** A line followed by a lone '\r' is read as that line. */
  lemma ReadLinesCr(line: string, rest: string)
    requires NoLineBreak(line)
    requires rest == [] || rest[0] != '\n'
    ensures ReadLines(line + "\r" + rest) == [line] + ReadLines(rest)
  {
    var s := line + ("\r" + rest);
    assert line + "\r" + rest == s;
    LineEndAfter(line, "\r" + rest);
    assert s[|line|] == '\r';
    assert s[|line| + 1..] == rest;
    assert s[..|line|] == line;
  }

  /** A non-empty text without breaks is one line. */
  lemma ReadSingleLine(d: string)
    requires NoLineBreak(d) && d != []
    ensures ReadLines(d) == [d]
  {
    LineEndAfter(d, []);
    assert d + [] == d;
  }

  /** The three kinds of break a StringReader knows, in one text. */
  lemma ReadMixedBreaks(a: string, b: string, c: string, d: string)
    requires NoLineBreak(a) && NoLineBreak(b) && NoLineBreak(c) && NoLineBreak(d)
    requires c != [] && d != []
    ensures ReadLines(a + "\r\n" + (b + "\r" + (c + "\n" + d))) == [a, b, c, d]
  {
    ReadLinesCrLf(a, b + "\r" + (c + "\n" + d));
    ReadBreaksAfterCr(b, c, d);
  }

  lemma ReadBreaksAfterCr(b: string, c: string, d: string)
    requires NoLineBreak(b) && NoLineBreak(c) && NoLineBreak(d)
    requires c != [] && d != []
    ensures ReadLines(b + "\r" + (c + "\n" + d)) == [b, c, d]
  {
    var cd := c + "\n" + d;
    assert cd[0] == c[0];
    ReadLinesCr(b, cd);
    ReadLinesCons(c, d);
    ReadSingleLine(d);
  }
}
