/**
 * The string operations of the JavaScript runtime that the application relies on:
 * `trim`, `toLowerCase`, `includes`, `<` on strings, `String(n)`, `parseInt`, `join`,
 * `split('/').pop()`, `replace` and `padStart`, and the e-mail pattern the forms test.
 */
module Text {
  import opened Common

  // ----- whitespace and trim -----

  /** The characters that `String.prototype.trim` and the regular-expression class `\s` treat as white space. */
  predicate IsSpace(c: char) {
    c == ' ' || c == '\t' || c == '\n' || c == '\U{B}' || c == '\U{C}' || c == '\r'
    || c == '\U{A0}' || c == '\U{1680}' || ('\U{2000}' <= c <= '\U{200A}')
    || c == '\U{2028}' || c == '\U{2029}' || c == '\U{202F}' || c == '\U{205F}'
    || c == '\U{3000}' || c == '\U{FEFF}'
  }

  /** The number of white-space characters `s` starts with. */
  function LeadingSpaces(s: string): (k: nat)
    ensures k <= |s| && (k == |s| || !IsSpace(s[k]))
    ensures forall i :: 0 <= i < k ==> IsSpace(s[i])
  {
    if s != [] && IsSpace(s[0]) then 1 + LeadingSpaces(s[1..]) else 0
  }

  /** The number of white-space characters `s` ends with. */
  function TrailingSpaces(s: string): (k: nat)
    ensures k <= |s| && (k == |s| || !IsSpace(s[|s| - 1 - k]))
    ensures forall i :: |s| - k <= i < |s| ==> IsSpace(s[i])
  {
    if s != [] && IsSpace(s[|s| - 1]) then 1 + TrailingSpaces(s[..|s| - 1]) else 0
  }

  /** `s` with its leading white space removed. */
  function TrimStart(s: string): (r: string)
  {
    s[LeadingSpaces(s)..]
  }

  /** `s` with its trailing white space removed. */
  function TrimEnd(s: string): (r: string)
  {
    s[..|s| - TrailingSpaces(s)]
  }

  /** `s.trim()`. */
  function Trim(s: string): (r: string)
  {
    TrimEnd(TrimStart(s))
  }

  /** The trimmed text is the piece of `s` after its leading white space, with white space at neither end. */
  lemma TrimShape(s: string)
    ensures var r := Trim(s);
      |r| <= |s| && r == s[LeadingSpaces(s)..LeadingSpaces(s) + |r|]
      && (r == [] || (!IsSpace(r[0]) && !IsSpace(r[|r| - 1])))
  {
    var k := LeadingSpaces(s);
    var u := TrimStart(s);
    assert u == s[k..];
    var t := TrailingSpaces(u);
    var r := TrimEnd(u);
    assert r == u[..|u| - t];
    assert r == s[k..k + |r|];
    if r != [] {
      assert r[0] == u[0] && r[|r| - 1] == u[|u| - 1 - t];
    }
  }

  /** A text without white space at either end is its own trim. */
  lemma TrimKeepsTrimmed(s: string)
    requires s == [] || (!IsSpace(s[0]) && !IsSpace(s[|s| - 1]))
    ensures Trim(s) == s
  {
    assert LeadingSpaces(s) == 0 && TrimStart(s) == s;
    assert TrailingSpaces(s) == 0;
  }

  /** A form value that is empty once trimmed: every character of it is white space. */
  predicate IsBlank(s: string) {
    forall i :: 0 <= i < |s| ==> IsSpace(s[i])
  }

  /** Blank is what `!v || v.trim() === ''` rejects: trimming leaves nothing exactly for blank text. */
  lemma BlankIffTrimEmpty(s: string)
    ensures IsBlank(s) <==> Trim(s) == ""
  {
  }

  /** The trimmed string has no white space at either end, and trimming twice changes nothing. */
  lemma TrimIdempotent(s: string)
    ensures Trim(Trim(s)) == Trim(s)
  {
    var t := Trim(s);
    if t != [] {
      assert TrimStart(TrimEnd(TrimStart(s))) == t by {
        var u := TrimStart(s);
        assert TrimEnd(u) == u[..|t|];
        assert !IsSpace(u[0]);
      }
    }
  }

  // ----- case -----

  /** `toLowerCase` on one character, for the ASCII and Latin-1 letters. */
  function LowerChar(c: char): (r: char)
    ensures r == c || ('A' <= c <= 'Z' || '\U{C0}' <= c <= '\U{DE}')
    ensures !('A' <= r <= 'Z') && !('\U{C0}' <= r <= '\U{DE}' && r != '\U{D7}')
  {
    if 'A' <= c <= 'Z' || ('\U{C0}' <= c <= '\U{DE}' && c != '\U{D7}') then (c as int + 32) as char else c
  }

  /** `s.toLowerCase()`. */
  function ToLower(s: string): (r: string)
    ensures |r| == |s|
    ensures forall i :: 0 <= i < |s| ==> r[i] == LowerChar(s[i])
  {
    seq(|s|, i requires 0 <= i < |s| => LowerChar(s[i]))
  }

  /** Lower-casing an already lower-cased string changes nothing. */
  lemma ToLowerIdempotent(s: string)
    ensures ToLower(ToLower(s)) == ToLower(s)
  {
    var t := ToLower(s);
    assert forall i :: 0 <= i < |t| ==> LowerChar(t[i]) == t[i];
  }

  /** `a.toLowerCase() === b.toLowerCase()`. */
  predicate EqualsIgnoreCase(a: string, b: string) {
    ToLower(a) == ToLower(b)
  }

  // ----- substring and order -----

  /** `s.includes(sub)`: `sub` occurs in `s` at some position. */
  predicate Contains(s: string, sub: string) {
    exists i :: 0 <= i <= |s| && OccursAt(s, sub, i)
  }

  /** `sub` occurs in `s` starting at position `i`. */
  predicate OccursAt(s: string, sub: string, i: nat) {
    i + |sub| <= |s| && s[i..i + |sub|] == sub
  }

  lemma OccursAtTail(s: string, sub: string, i: nat)
    requires 1 <= i && s != []
    ensures OccursAt(s, sub, i) <==> OccursAt(s[1..], sub, i - 1)
  {
    if i + |sub| <= |s| {
      var x, y := s[i..i + |sub|], s[1..][i - 1..i - 1 + |sub|];
      forall j | 0 <= j < |sub|
        ensures x[j] == y[j]
      {
        assert x[j] == s[i + j];
      }
      assert x == y;
    }
  }

  /** Every string contains the empty string, so an empty search keeps everything. */
  lemma ContainsEmpty(s: string)
    ensures Contains(s, "")
  {
    assert OccursAt(s, "", 0);
  }

  /** JavaScript's `a < b` on strings: lexicographic order on characters. */
  predicate LexLess(a: string, b: string)
    decreases |a|
  {
    if a == [] then b != []
    else if b == [] then false
    else if a[0] != b[0] then a[0] < b[0]
    else LexLess(a[1..], b[1..])
  }

  lemma {:induction false} LexLessIrreflexive(a: string)
    ensures !LexLess(a, a)
    decreases |a|
  {
    if a != [] { LexLessIrreflexive(a[1..]); }
  }

  lemma {:induction false} LexLessTransitive(a: string, b: string, c: string)
    requires LexLess(a, b) && LexLess(b, c)
    ensures LexLess(a, c)
    decreases |a|
  {
    if a != [] && b != [] && c != [] && a[0] == b[0] && b[0] == c[0] {
      LexLessTransitive(a[1..], b[1..], c[1..]);
    }
  }

  lemma {:induction false} LexLessTotal(a: string, b: string)
    ensures a == b || LexLess(a, b) || LexLess(b, a)
    decreases |a|
  {
    if a != [] && b != [] && a[0] == b[0] {
      LexLessTotal(a[1..], b[1..]);
      if a[1..] == b[1..] {
        assert a == [a[0]] + a[1..] && b == [b[0]] + b[1..];
      }
    }
  }

  /** `a <= b` on strings. */
  predicate LexLeq(a: string, b: string) {
    a == b || LexLess(a, b)
  }

  /** `!(a < b)` is `b <= a`. */
  lemma NotLexLessIff(a: string, b: string)
    ensures !LexLess(a, b) <==> LexLeq(b, a)
  {
    LexLessTotal(a, b);
    LexLessIrreflexive(a);
    if LexLess(a, b) && LexLess(b, a) { LexLessTransitive(a, b, a); }
  }

  // ----- numbers as text -----

  function DigitChar(d: nat): (c: char)
    requires d < 10
    ensures '0' <= c <= '9'
  {
    ("0123456789")[d]
  }

  predicate IsDigit(c: char) {
    '0' <= c <= '9'
  }

  function DigitValue(c: char): (d: nat)
    requires IsDigit(c)
    ensures d < 10 && DigitChar(d) == c
  {
    c as int - '0' as int
  }

  /** `String(n)` for a natural number: its decimal digits, without leading zeros. */
  function NatToString(n: nat): (r: string)
    ensures |r| >= 1 && forall i :: 0 <= i < |r| ==> IsDigit(r[i])
    ensures r[0] != '0' || n == 0
    decreases n
  {
    if n < 10 then [DigitChar(n)] else NatToString(n / 10) + [DigitChar(n % 10)]
  }

  /** `String(n)` for an integer. */
  function IntToString(n: int): (r: string)
    ensures |r| >= 1
    ensures (r[0] == '-') <==> n < 0
  {
    if n < 0 then "-" + NatToString(-n) else NatToString(n)
  }

  /** The value of a non-empty run of decimal digits. */
  function DigitsValue(s: string): (n: nat)
    requires forall i :: 0 <= i < |s| ==> IsDigit(s[i])
    decreases |s|
  {
    if s == [] then 0 else DigitsValue(s[..|s| - 1]) * 10 + DigitValue(s[|s| - 1])
  }

  /** The length of the longest prefix of `s` made of digits. */
  function DigitPrefixLength(s: string): (k: nat)
    ensures k <= |s|
    ensures forall i :: 0 <= i < k ==> IsDigit(s[i])
    ensures k == |s| || !IsDigit(s[k])
  {
    if s != [] && IsDigit(s[0]) then 1 + DigitPrefixLength(s[1..]) else 0
  }

  /**
   * `parseInt(s, 10)`: leading white space is skipped, then an optional sign and the longest run of
   * digits is read; anything after it is ignored. `None` stands for `NaN` (no digit at all).
   */
  function ParseInt(s: string): (r: Option<int>)
  {
    ParseSigned(TrimStart(s))
  }

  /** `parseInt` gives a number exactly when, after the leading white space, a digit comes first or right after a sign. */
  lemma ParseIntIsNumber(s: string)
    ensures var t := TrimStart(s);
      ParseInt(s).Some? <==> t != [] && (IsDigit(t[0]) || ((t[0] == '-' || t[0] == '+') && |t| > 1 && IsDigit(t[1])))
  {
    var t := TrimStart(s);
    if t != [] && (t[0] == '-' || t[0] == '+') {
      assert ParseDigits(t[1..]).None? <==> (t[1..] == [] || !IsDigit(t[1..][0]));
    }
  }

  /** An optional sign followed by `ParseDigits`. */
  function ParseSigned(t: string): (r: Option<int>)
  {
    if t != [] && t[0] == '-' then
      match ParseDigits(t[1..])
      case None => None
      case Some(v) => Some(-(v as int))
    else if t != [] && t[0] == '+' then
      match ParseDigits(t[1..])
      case None => None
      case Some(v) => Some(v)
    else
      match ParseDigits(t)
      case None => None
      case Some(v) => Some(v)
  }

  /** The value of the leading digits of `b`, or `None` when `b` does not start with a digit. */
  function ParseDigits(b: string): (r: Option<nat>)
    ensures r.None? <==> (b == [] || !IsDigit(b[0]))
  {
    var k := DigitPrefixLength(b);
    if k == 0 then None else Some(DigitsValue(b[..k]))
  }

  lemma ParseDigitsOfDigits(d: string)
    requires d != [] && forall i :: 0 <= i < |d| ==> IsDigit(d[i])
    ensures ParseDigits(d) == Some(DigitsValue(d))
  {
    assert DigitPrefixLength(d) == |d|;
    assert d[..|d|] == d;
  }

  lemma {:induction false} DigitsOfNat(n: nat)
    ensures DigitsValue(NatToString(n)) == n
    decreases n
  {
    if n >= 10 {
      DigitsOfNat(n / 10);
      var r := NatToString(n);
      assert r[..|r| - 1] == NatToString(n / 10);
    }
  }

  lemma NoLeadingSpace(s: string)
    requires s != [] && !IsSpace(s[0])
    ensures TrimStart(s) == s
  {
    assert LeadingSpaces(s) == 0;
  }

  lemma ParseIntOfNat(m: nat)
    ensures ParseInt(NatToString(m)) == Some(m)
  {
    var d := NatToString(m);
    DigitsOfNat(m);
    ParseDigitsOfDigits(d);
    NoLeadingSpace(d);
  }

  lemma ParseIntOfNegative(m: nat)
    requires m > 0
    ensures ParseInt("-" + NatToString(m)) == Some(-(m as int))
  {
    var d := NatToString(m);
    var s := "-" + d;
    DigitsOfNat(m);
    ParseDigitsOfDigits(d);
    NoLeadingSpace(s);
    assert s[1..] == d;
  }

  /** Reading back a printed integer gives the integer: `parseInt(String(n)) === n`. */
  lemma ParseIntOfIntToString(n: int)
    ensures ParseInt(IntToString(n)) == Some(n)
  {
    if n < 0 {
      ParseIntOfNegative(-n);
    } else {
      ParseIntOfNat(n);
    }
  }

  // ----- assembling and cutting strings -----

  /** `parts.join(sep)`. */
  function Join(parts: seq<string>, sep: string): (r: string)
    ensures parts == [] ==> r == ""
  {
    if parts == [] then ""
    else if |parts| == 1 then parts[0]
    else parts[0] + sep + Join(parts[1..], sep)
  }

  /** The number of times `c` occurs in `s`. */
  function CountChar(s: string, c: char): (n: nat)
  {
    if s == [] then 0 else (if s[0] == c then 1 else 0) + CountChar(s[1..], c)
  }

  lemma {:induction false} CountCharAppend(a: string, b: string, c: char)
    ensures CountChar(a + b, c) == CountChar(a, c) + CountChar(b, c)
  {
    if a == [] {
      assert a + b == b;
    } else {
      assert (a + b)[1..] == a[1..] + b;
      CountCharAppend(a[1..], b, c);
    }
  }

  lemma {:induction false} CountCharAbsent(s: string, c: char)
    requires c !in s
    ensures CountChar(s, c) == 0
  {
    if s != [] {
      assert c !in s[1..];
      CountCharAbsent(s[1..], c);
    }
  }

  /** Joining `n` parts that do not contain `sep` yields exactly `n - 1` separators. */
  lemma {:induction false} JoinCountsSeparators(parts: seq<string>, sep: char)
    requires parts != []
    requires forall i :: 0 <= i < |parts| ==> CountChar(parts[i], sep) == 0
    ensures CountChar(Join(parts, [sep]), sep) == |parts| - 1
  {
    if |parts| > 1 {
      JoinCountsSeparators(parts[1..], sep);
      CountCharAppend(parts[0], [sep], sep);
      CountCharAppend(parts[0] + [sep], Join(parts[1..], [sep]), sep);
      assert CountChar([sep], sep) == 1;
    }
  }

  /** `s.split(sep).pop()`: the part of `s` after its last `sep` (all of `s` when there is none). */
  function LastSegment(s: string, sep: char): (r: string)
    ensures |r| <= |s| && r == s[|s| - |r|..]
    ensures forall i :: 0 <= i < |r| ==> r[i] != sep
    ensures |r| == |s| || s[|s| - |r| - 1] == sep
  {
    if s == [] then ""
    else if s[|s| - 1] == sep then ""
    else LastSegment(s[..|s| - 1], sep) + [s[|s| - 1]]
  }

  /** The first position at which `pat` occurs in `s`, if any (`s.indexOf(pat)`). */
  function IndexOf(s: string, pat: string): (r: Option<nat>)
    ensures r.Some? ==> r.value + |pat| <= |s| && s[r.value..r.value + |pat|] == pat
    ensures r.Some? ==> forall j: nat :: j < r.value ==> !OccursAt(s, pat, j)
    ensures r.None? ==> !Contains(s, pat)
  {
    if |pat| > |s| then None
    else if s[..|pat|] == pat then Some(0)
    else match IndexOf(s[1..], pat)
      case None =>
        TailOccurrences(s, pat);
        assert !OccursAt(s, pat, 0);
        None
      case Some(k) =>
        TailOccurrences(s, pat);
        Some(k + 1)
  }

  /** The first position where `pat` occurs is the one `indexOf` finds. */
  lemma FirstOccurrence(s: string, pat: string, k: nat)
    requires OccursAt(s, pat, k)
    requires forall j: nat :: j < k ==> !OccursAt(s, pat, j)
    ensures IndexOf(s, pat) == Some(k)
  {
    assert Contains(s, pat);
    var r := IndexOf(s, pat);
    assert OccursAt(s, pat, r.value);
  }

  lemma TailOccurrences(s: string, pat: string)
    requires s != []
    ensures forall i: nat :: 1 <= i ==> (OccursAt(s, pat, i) <==> OccursAt(s[1..], pat, i - 1))
  {
    forall i: nat | 1 <= i
      ensures OccursAt(s, pat, i) <==> OccursAt(s[1..], pat, i - 1)
    {
      OccursAtTail(s, pat, i);
    }
  }

  /** `s.replace(pat, rep)` with a string pattern: only the first occurrence is replaced. */
  function ReplaceFirst(s: string, pat: string, rep: string): string
  {
    match IndexOf(s, pat)
    case None => s
    case Some(i) => s[..i] + rep + s[i + |pat|..]
  }

  /** `s` between double quotes, as a CSV column is written. */
  function Quote(s: string): (r: string)
    ensures r == ['"'] + s + ['"']
  {
    "\"" + s + "\""
  }

  /** `s.replace(/c/g, rep)`: every occurrence of the character `c` becomes `rep`. */
  function ReplaceChar(s: string, c: char, rep: string): (r: string)
    ensures c !in s ==> r == s
  {
    if s == [] then "" else (if s[0] == c then rep else [s[0]]) + ReplaceChar(s[1..], c, rep)
  }

  /** `s.padStart(2, '0')`. */
  function PadStart2(s: string): (r: string)
    ensures |s| >= 2 ==> r == s
    ensures |s| < 2 ==> |r| == 2 && r[2 - |s|..] == s
  {
    if |s| >= 2 then s else if |s| == 1 then "0" + s else "00"
  }

  // ----- e-mail pattern -----

  /** One run of the e-mail pattern: at least one character, none of them `@` or white space. */
  predicate Plain(s: string) {
    s != [] && forall i :: 0 <= i < |s| ==> s[i] != '@' && !IsSpace(s[i])
  }

  /** The domain holds a dot with at least one character before and after it. */
  predicate InnerDot(d: string) {
    exists p :: 0 < p < |d| - 1 && d[p] == '.'
  }

  /**
   * The e-mail pattern of the user form and of `validateField`, read off: a plain run, the
   * only `@`, then a plain domain that has a dot strictly inside it.
   */
  predicate IsValidEmail(e: string) {
    var k := FindIndex(e, (c: char) => c == '@');
    k.Some? && Plain(e[..k.value]) && Plain(e[k.value + 1..]) && InnerDot(e[k.value + 1..])
  }

  /** The pattern as written: three plain runs joined by `@` and `.`. */
  ghost predicate EmailShape(e: string) {
    exists a: string, b: string, c: string ::
      Plain(a) && Plain(b) && Plain(c) && e == a + ['@'] + b + ['.'] + c
  }

  lemma PlainSlice(s: string, i: nat, j: nat)
    requires Plain(s) && i < j <= |s|
    ensures Plain(s[i..j])
  {
    assert forall t :: 0 <= t < j - i ==> s[i..j][t] == s[i + t];
  }

  lemma PlainJoin(b: string, c: string)
    requires Plain(b) && Plain(c)
    ensures Plain(b + ['.'] + c)
  {
    var d := b + ['.'] + c;
    forall t | 0 <= t < |d|
      ensures d[t] != '@' && !IsSpace(d[t])
    {
      if t < |b| {
        assert d[t] == b[t];
      } else if t > |b| {
        assert d[t] == c[t - |b| - 1];
      }
    }
  }

  /** A text the test accepts is a plain run, `@` and a plain domain with an inner dot. */
  lemma SplitAtSign(e: string) returns (a: string, d: string)
    requires IsValidEmail(e)
    ensures Plain(a) && Plain(d) && InnerDot(d) && e == a + ['@'] + d
  {
    var k := FindIndex(e, (c: char) => c == '@').value;
    a, d := e[..k], e[k + 1..];
    SplitAround(e, k);
  }

  /** A plain domain with an inner dot is two plain runs joined by that dot. */
  lemma SplitDomain(d: string) returns (b: string, c: string)
    requires Plain(d) && InnerDot(d)
    ensures Plain(b) && Plain(c) && d == b + ['.'] + c
  {
    var p :| 0 < p < |d| - 1 && d[p] == '.';
    b, c := d[..p], d[p + 1..];
    PlainSlice(d, 0, p);
    PlainSlice(d, p + 1, |d|);
    SplitAround(d, p);
  }

  /** A text the test accepts splits into the three runs of the pattern. */
  lemma ValidEmailHasShape(e: string)
    requires IsValidEmail(e)
    ensures EmailShape(e)
  {
    var a, d := SplitAtSign(e);
    var b, c := SplitDomain(d);
    assert e == a + ['@'] + b + ['.'] + c;
  }

  /** A sequence is its prefix, the element at `k` and its suffix. */
  lemma SplitAround(s: string, k: nat)
    requires k < |s|
    ensures s == s[..k] + [s[k]] + s[k + 1..]
  {
  }

  /** The first `@` of `a@d` is the one after `a` when `a` is a plain run. */
  lemma FirstAtSign(a: string, d: string)
    requires Plain(a)
    ensures FindIndex(a + ['@'] + d, (ch: char) => ch == '@') == Some(|a|)
  {
    var e := a + ['@'] + d;
    forall j | 0 <= j < |a|
      ensures e[j] != '@'
    {
      assert e[j] == a[j];
    }
    assert e[|a|] == '@';
  }

  /** A text of the pattern's shape passes the test. */
  lemma ShapeIsValidEmail(a: string, b: string, c: string)
    requires Plain(a) && Plain(b) && Plain(c)
    ensures IsValidEmail(a + ['@'] + b + ['.'] + c)
  {
    var d := b + ['.'] + c;
    var e := a + ['@'] + d;
    assert a + ['@'] + b + ['.'] + c == e;
    FirstAtSign(a, d);
    assert e[..|a|] == a;
    assert e[|a| + 1..] == d;
    PlainJoin(b, c);
    assert d[|b|] == '.';
  }

  /** `isValidEmail` accepts exactly the texts the pattern describes. */
  lemma EmailIff(e: string)
    ensures IsValidEmail(e) <==> EmailShape(e)
  {
    if IsValidEmail(e) {
      ValidEmailHasShape(e);
    }
    if EmailShape(e) {
      var a: string, b: string, c: string :| Plain(a) && Plain(b) && Plain(c) && e == a + ['@'] + b + ['.'] + c;
      ShapeIsValidEmail(a, b, c);
    }
  }

  /** An address with white space in it is refused. */
  lemma SpacedEmailInvalid(a: string, b: string)
    ensures !IsValidEmail(a + [' '] + b)
  {
    var e := a + [' '] + b;
    assert e[|a|] == ' ';
    var k := FindIndex(e, (c: char) => c == '@');
    if k.Some? && |a| < k.value {
      assert e[..k.value][|a|] == ' ';
    } else if k.Some? && |a| > k.value {
      assert e[k.value + 1..][|a| - k.value - 1] == ' ';
    }
  }
}
