/** Text helpers shared by every module: the handful of Python and JavaScript
    string operations the source relies on (startswith, in, find, split, join,
    replace, rsplit, lower-casing, str(int), int(str), padStart), each written
    out with the semantics of the language it comes from. */
module Strings {

  datatype Option<T> = None | Some(value: T)

  predicate StartsWith(s: string, p: string) {
    |p| <= |s| && s[..|p|] == p
  }

  predicate EndsWith(s: string, p: string) {
    |p| <= |s| && s[|s| - |p|..] == p
  }

  /** Position of the leftmost occurrence of p in s (Python str.find, JS indexOf). */
  function IndexOf(s: string, p: string): (r: Option<nat>)
    ensures r.Some? ==> r.value + |p| <= |s| && s[r.value..r.value + |p|] == p
    decreases |s|
  {
    if |p| > |s| then None
    else if s[..|p|] == p then Some(0)
    else match IndexOf(s[1..], p)
      case None => None
      case Some(i) => Some(i + 1)
  }

  /** Python `p in s`. */
  predicate Contains(s: string, p: string) {
    IndexOf(s, p).Some?
  }

  /** A pattern whose first character never occurs in s does not occur in s. */
  lemma {:induction false} NotContainsFirstChar(s: string, p: string)
    requires |p| > 0 && forall i :: 0 <= i < |s| ==> s[i] != p[0]
    ensures !Contains(s, p)
    decreases |s|
  {
    if |p| <= |s| {
      assert s[..|p|][0] == s[0];
      NotContainsFirstChar(s[1..], p);
    }
  }

  lemma {:induction false} ContainsAt(s: string, p: string, k: nat)
    requires k + |p| <= |s| && s[k..k + |p|] == p
    ensures Contains(s, p)
    decreases k
  {
    if s[..|p|] != p {
      assert k > 0;
      assert s[1..][k - 1..k - 1 + |p|] == s[k..k + |p|];
      ContainsAt(s[1..], p, k - 1);
    }
  }

  /** Any occurrence of p at j means the leftmost one is at j or before. */
  lemma {:induction false} IndexOfLeftmost(s: string, p: string, j: nat)
    requires j + |p| <= |s| && s[j..j + |p|] == p
    ensures IndexOf(s, p).Some? && IndexOf(s, p).value <= j
    decreases j
  {
    if s[..|p|] != p {
      assert s[1..][j - 1..j - 1 + |p|] == s[j..j + |p|];
      IndexOfLeftmost(s[1..], p, j - 1);
    }
  }

  /** The first part of a split on a one-character separator holds no separator,
      so splitting it again gives it back whole. */
  lemma SplitFirstPart(s: string, sep: string)
    requires |sep| == 1
    ensures !Contains(Split(s, sep)[0], sep)
    ensures Split(Split(s, sep)[0], sep) == [Split(s, sep)[0]]
  {
    var t := Split(s, sep)[0];
    var r := IndexOf(s, sep);
    if r.Some? && Contains(t, sep) {
      var j := IndexOf(t, sep).value;
      assert t == s[..r.value];
      assert s[j..j + 1] == t[j..j + 1];
      IndexOfLeftmost(s, sep, j);
    }
  }

  /** A text built as a + x + b starts with a, holds x and ends with b. */
  lemma ConcatParts(a: string, x: string, b: string)
    ensures StartsWith(a + x + b, a)
    ensures Contains(a + x + b, x)
    ensures EndsWith(a + x + b, b)
    ensures b == "" ==> EndsWith(a + x + b, x)
  {
    var s := a + x + b;
    assert s[..|a|] == a;
    assert s[|a|..|a| + |x|] == x;
    ContainsAt(s, x, |a|);
    assert s[|s| - |b|..] == b;
    if b == "" {
      assert s[|s| - |x|..] == x;
    }
  }

  /** Python str.split(sep) for a non-empty separator. */
  function Split(s: string, sep: string): (parts: seq<string>)
    requires |sep| > 0
    ensures |parts| >= 1
    decreases |s|
  {
    match IndexOf(s, sep)
    case None => [s]
    case Some(i) => [s[..i]] + Split(s[i + |sep|..], sep)
  }

  /** Unfolds one step of Split at the leftmost separator. */
  lemma SplitCons(s: string, sep: string, i: nat)
    requires |sep| > 0 && IndexOf(s, sep).Some? && IndexOf(s, sep).value == i
    ensures Split(s, sep) == [s[..i]] + Split(s[i + |sep|..], sep)
  {
  }

  /** Python sep.join(parts). */
  function Join(parts: seq<string>, sep: string): string
    decreases |parts|
  {
    if |parts| == 0 then ""
    else if |parts| == 1 then parts[0]
    else parts[0] + sep + Join(parts[1..], sep)
  }

  /** Splitting and joining with the same separator gives the text back. */
  lemma {:induction false} JoinSplit(s: string, sep: string)
    requires |sep| > 0
    ensures Join(Split(s, sep), sep) == s
    decreases |s|
  {
    match IndexOf(s, sep)
    case None =>
    case Some(i) =>
      var rest := Split(s[i + |sep|..], sep);
      JoinSplit(s[i + |sep|..], sep);
      assert ([s[..i]] + rest)[1..] == rest;
      assert Join([s[..i]] + rest, sep) == s[..i] + sep + Join(rest, sep);
      ThreeParts(s, i, i + |sep|);
  }

  /** A text is its three slices around two cut points. */
  lemma ThreeParts(s: string, i: nat, j: nat)
    requires i <= j <= |s|
    ensures s[..i] + s[i..j] + s[j..] == s
  {
    assert s[..i] + s[i..j] == s[..j];
  }

  /** The lines of a text: Python text.split('\n'). */
  function Lines(s: string): (ls: seq<string>)
    ensures |ls| >= 1
  {
    Split(s, "\n")
  }

  /** Python str.replace(pat, rep): every non-overlapping occurrence, left to right. */
  function Replace(s: string, pat: string, rep: string): (r: string)
    requires |pat| > 0
    ensures !Contains(s, pat) ==> r == s
    decreases |s|
  {
    match IndexOf(s, pat)
    case None => s
    case Some(i) => s[..i] + rep + Replace(s[i + |pat|..], pat, rep)
  }

  /** Replacing is splitting on the pattern and joining with the replacement. */
  lemma {:induction false} ReplaceIsSplitJoin(s: string, pat: string, rep: string)
    requires |pat| > 0
    ensures Replace(s, pat, rep) == Join(Split(s, pat), rep)
    decreases |s|
  {
    match IndexOf(s, pat)
    case None =>
    case Some(i) =>
      var rest := Split(s[i + |pat|..], pat);
      ReplaceIsSplitJoin(s[i + |pat|..], pat, rep);
      assert ([s[..i]] + rest)[1..] == rest;
  }

  /** JavaScript String.prototype.replace with a string pattern: the first occurrence only. */
  function ReplaceFirst(s: string, pat: string, rep: string): (r: string)
    ensures !Contains(s, pat) ==> r == s
    ensures StartsWith(s, pat) ==> r == rep + s[|pat|..]
  {
    match IndexOf(s, pat)
    case None => s
    case Some(i) => s[..i] + rep + s[i + |pat|..]
  }

  function LowerChar(c: char): (d: char)
    ensures 'A' <= c <= 'Z' ==> 'a' <= d <= 'z'
  {
    if 'A' <= c <= 'Z' then (c as int - 'A' as int + 'a' as int) as char else c
  }

  /** Lower-casing, restricted to ASCII letters. */
  function ToLower(s: string): (r: string)
    ensures |r| == |s|
    ensures forall i :: 0 <= i < |s| ==> r[i] == LowerChar(s[i])
  {
    seq(|s|, i requires 0 <= i < |s| => LowerChar(s[i]))
  }

  /** Lower-casing works character by character, so it distributes over concatenation. */
  lemma ToLowerConcat(a: string, b: string)
    ensures ToLower(a + b) == ToLower(a) + ToLower(b)
  {
  }

  lemma Regroup(a: string, x: string, y: string, c: string)
    ensures a + (x + y) + c == (a + x) + (y + c)
  {
  }

  lemma EndsWithConcat(a: string, b: string)
    ensures EndsWith(a + b, b)
  {
    assert (a + b)[|a|..] == b;
  }

  /** Lower-casing keeps a suffix, lower-cased. */
  lemma ToLowerSuffix(x: string, y: string)
    requires EndsWith(x, y)
    ensures EndsWith(ToLower(x), ToLower(y))
  {
    assert x == x[..|x| - |y|] + y;
    ToLowerConcat(x[..|x| - |y|], y);
  }

  /** Position of the last occurrence of character c (Python rfind, JS lastIndexOf). */
  function LastIndexOf(s: string, c: char): (r: Option<nat>)
    ensures r.Some? ==> r.value < |s| && s[r.value] == c
    ensures r.Some? ==> forall j :: r.value < j < |s| ==> s[j] != c
    ensures r.None? ==> forall j :: 0 <= j < |s| ==> s[j] != c
    decreases |s|
  {
    if |s| == 0 then None
    else if s[|s| - 1] == c then Some(|s| - 1)
    else LastIndexOf(s[..|s| - 1], c)
  }

  /** Python s.rsplit(c, 1)[0]: everything before the last c, or s when there is none. */
  function BeforeLast(s: string, c: char): (r: string)
    ensures |r| <= |s| && r == s[..|r|]
    ensures LastIndexOf(s, c).None? <==> r == s
  {
    match LastIndexOf(s, c)
    case None => s
    case Some(i) => s[..i]
  }

  /** Python s.rsplit(c, 1)[-1] (the basename when c is '/'). */
  function AfterLast(s: string, c: char): (r: string)
    ensures |r| <= |s| && r == s[|s| - |r|..]
    ensures forall j :: 0 <= j < |r| ==> r[j] != c
  {
    match LastIndexOf(s, c)
    case None => s
    case Some(i) => s[i + 1..]
  }

  predicate IsDigit(c: char) {
    '0' <= c <= '9'
  }

  predicate AllDigits(s: string) {
    forall i :: 0 <= i < |s| ==> IsDigit(s[i])
  }

  function DigitChar(d: nat): (c: char)
    requires d < 10
    ensures IsDigit(c)
  {
    ('0' as int + d) as char
  }

  function DigitValue(c: char): (d: nat)
    requires IsDigit(c)
    ensures d < 10
  {
    c as int - '0' as int
  }

  /** Python str(n) for a natural number. */
  function NatToString(n: nat): (s: string)
    ensures |s| > 0 && AllDigits(s)
    decreases n
  {
    if n < 10 then [DigitChar(n)] else NatToString(n / 10) + [DigitChar(n % 10)]
  }

  /** Python str(i), JavaScript String(i). */
  function IntToString(i: int): (s: string)
    ensures |s| > 0
    ensures i >= 0 <==> AllDigits(s)
  {
    if i < 0 then
      var r := "-" + NatToString(-i);
      assert !IsDigit(r[0]);
      r
    else NatToString(i)
  }

  /** The value of a run of decimal digits. */
  function DigitsValue(s: string): nat
    requires AllDigits(s)
    decreases |s|
  {
    if |s| == 0 then 0 else DigitsValue(s[..|s| - 1]) * 10 + DigitValue(s[|s| - 1])
  }

  /** int(s) for a text made only of decimal digits; None for anything else. */
  function ParseNat(s: string): (r: Option<nat>)
    ensures r.Some? <==> |s| > 0 && AllDigits(s)
  {
    if |s| > 0 && AllDigits(s) then Some(DigitsValue(s)) else None
  }

  /** Printing a number and reading it back gives the number. */
  lemma {:induction false} ParseNatToString(n: nat)
    ensures ParseNat(NatToString(n)) == Some(n)
    ensures DigitsValue(NatToString(n)) == n
    decreases n
  {
    var s := NatToString(n);
    if n >= 10 {
      ParseNatToString(n / 10);
      var t := NatToString(n / 10);
      assert s[..|s| - 1] == t;
      assert DigitsValue(s) == n;
    } else {
      assert DigitsValue(s) == DigitsValue(s[..0]) * 10 + DigitValue(s[0]);
    }
  }

  /** Decimal printing never maps two numbers to one text. */
  lemma NatToStringInjective(m: nat, n: nat)
    requires NatToString(m) == NatToString(n)
    ensures m == n
  {
    ParseNatToString(m);
    ParseNatToString(n);
  }

  /** Leading zeros do not change the value of a digit run. */
  lemma {:induction false} DigitsValueLeadingZeros(z: nat, s: string)
    requires AllDigits(s)
    ensures AllDigits(seq(z, _ => '0') + s)
    ensures DigitsValue(seq(z, _ => '0') + s) == DigitsValue(s)
    decreases |s|, z
  {
    var zs := seq(z, _ => '0');
    if |s| == 0 {
      assert zs + s == zs;
      if z > 0 {
        assert zs[..z - 1] == seq(z - 1, _ => '0');
        DigitsValueLeadingZeros(z - 1, s);
        assert seq(z - 1, _ => '0') + s == zs[..z - 1];
      }
    } else {
      DigitsValueLeadingZeros(z, s[..|s| - 1]);
      assert (zs + s)[..|zs + s| - 1] == zs + s[..|s| - 1];
    }
  }

  /** JavaScript s.padStart(width, c). */
  function PadStart(s: string, width: nat, c: char): (r: string)
    ensures |r| == if |s| >= width then |s| else width
    ensures EndsWith(r, s)
  {
    if |s| >= width then s else seq(width - |s|, _ => c) + s
  }

  /** POSIX os.path.join(a, b): an absolute b wins; otherwise one '/' between the parts. */
  function PathJoin(a: string, b: string): string {
    if StartsWith(b, "/") then b
    else if a == "" || EndsWith(a, "/") then a + b
    else a + "/" + b
  }

  /** The joined path ends with b, and for a relative b after a non-empty a
      without a trailing '/' it is a, '/', b. */
  lemma PathJoinShape(a: string, b: string)
    ensures EndsWith(PathJoin(a, b), b)
    ensures !StartsWith(b, "/") && a != "" && !EndsWith(a, "/") ==> PathJoin(a, b) == a + "/" + b
  {
    var r := PathJoin(a, b);
    assert r[|r| - |b|..] == b;
  }

  /** The elements of s in order of first appearance, without repetitions. */
  function Dedup<T(==,!new)>(s: seq<T>): (r: seq<T>)
    ensures forall x :: x in r <==> x in s
    ensures forall i, j :: 0 <= i < j < |r| ==> r[i] != r[j]
    decreases |s|
  {
    if |s| == 0 then []
    else
      var rest := Dedup(s[..|s| - 1]);
      if s[|s| - 1] in rest then rest else rest + [s[|s| - 1]]
  }

  /** Lexicographic order on texts by code point (SQLite's BINARY collation). */
  predicate StrLe(a: string, b: string)
    decreases |a|
  {
    if |a| == 0 then true
    else if |b| == 0 then false
    else if a[0] != b[0] then a[0] < b[0]
    else StrLe(a[1..], b[1..])
  }

  lemma {:induction false} StrLeTotal(a: string, b: string)
    ensures StrLe(a, b) || StrLe(b, a)
    decreases |a|
  {
    if |a| > 0 && |b| > 0 && a[0] == b[0] {
      StrLeTotal(a[1..], b[1..]);
    }
  }

  lemma {:induction false} StrLeTransitive(a: string, b: string, c: string)
    requires StrLe(a, b) && StrLe(b, c)
    ensures StrLe(a, c)
    decreases |a|
  {
    if |a| > 0 && |b| > 0 && |c| > 0 && a[0] == b[0] && b[0] == c[0] {
      StrLeTransitive(a[1..], b[1..], c[1..]);
    }
  }

  lemma {:induction false} StrLeAntisymmetric(a: string, b: string)
    requires StrLe(a, b) && StrLe(b, a)
    ensures a == b
    decreases |a|
  {
    if |a| > 0 && |b| > 0 {
      StrLeAntisymmetric(a[1..], b[1..]);
      assert a == [a[0]] + a[1..] && b == [b[0]] + b[1..];
    }
  }
}
