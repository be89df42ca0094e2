/** Strings as `seq<char>`: the handful of JavaScript string operations the
    chatbot relies on (decimal rendering, padStart, join/split, includes,
    replace, trim, whitespace collapsing, toLowerCase, `<` on strings). */
module Text {

  /** `\d` of a JavaScript regular expression without the `u` flag. */
  predicate IsDigit(c: char) {
    '0' <= c <= '9'
  }

  predicate AllDigits(s: string) {
    forall i :: 0 <= i < |s| ==> IsDigit(s[i])
  }

  /** `\s` of a JavaScript regular expression; also what `trim` removes. */
  predicate IsSpace(c: char) {
    || c == ' ' || c == '\t' || c == '\n' || c == '\r' || c == '\U{000B}' || c == '\U{000C}'
    || c == '\U{00A0}' || c == '\U{1680}' || ('\U{2000}' <= c <= '\U{200A}')
    || c == '\U{2028}' || c == '\U{2029}' || c == '\U{202F}' || c == '\U{205F}'
    || c == '\U{3000}' || c == '\U{FEFF}'
  }

  // ---------------------------------------------------------------- numbers

  function DigitValue(c: char): nat
    requires IsDigit(c)
  {
    c as int - '0' as int
  }

  function DigitChar(d: nat): (c: char)
    requires d < 10
    ensures IsDigit(c) && DigitValue(c) == d
  {
    ('0' as int + d) as char
  }

  /** The number a string of decimal digits denotes (`parseInt(s, 10)`). */
  function DecimalValue(s: string): nat
    requires AllDigits(s)
  {
    if s == [] then 0 else DecimalValue(s[..|s| - 1]) * 10 + DigitValue(s[|s| - 1])
  }

  /** `String(n)` for a non-negative integer: shortest decimal numeral. */
  function NatToString(n: nat): (s: string)
    ensures 1 <= |s| && AllDigits(s)
    ensures DecimalValue(s) == n
    ensures s[0] == '0' <==> n == 0
    ensures n < 10 <==> |s| == 1
    ensures n < 100 ==> |s| <= 2
    ensures n < 10000 ==> |s| <= 4
  {
    if n < 10 then [DigitChar(n)]
    else
      var s := NatToString(n / 10) + [DigitChar(n % 10)];
      assert s[..|s| - 1] == NatToString(n / 10);
      s
  }

  /** `String(i)` for any integer. */
  function IntToString(i: int): (s: string)
    ensures i >= 0 ==> s == NatToString(i)
    ensures i < 0 ==> s == "-" + NatToString(-i)
  {
    if i < 0 then "-" + NatToString(-i) else NatToString(i)
  }

  function Repeat(c: char, n: nat): (r: string)
    ensures |r| == n && forall i :: 0 <= i < n ==> r[i] == c
  {
    if n == 0 then "" else [c] + Repeat(c, n - 1)
  }

  /** `s.padStart(width, c)`. */
  function PadStart(s: string, width: nat, c: char): (r: string)
    ensures |s| >= width ==> r == s
    ensures |s| < width ==> |r| == width && r == Repeat(c, width - |s|) + s
  {
    if |s| >= width then s else Repeat(c, width - |s|) + s
  }

  /** `String(n).padStart(2, "0")`. */
  function Pad2(n: nat): (r: string)
    ensures AllDigits(r) && DecimalValue(r) == n
    ensures n < 100 ==> |r| == 2
  {
    PaddedDigits(NatToString(n), 2);
    PadStart(NatToString(n), 2, '0')
  }

  /** Leading zeros do not change the value of a numeral. */
  lemma {:induction false} LeadingZeros(z: nat, s: string)
    requires AllDigits(s)
    ensures AllDigits(Repeat('0', z) + s)
    ensures DecimalValue(Repeat('0', z) + s) == DecimalValue(s)
    decreases |s|, z
  {
    var t := Repeat('0', z) + s;
    if s == [] {
      assert t == Repeat('0', z);
      if z > 0 {
        assert t[..|t| - 1] == Repeat('0', z - 1) + [];
        LeadingZeros(z - 1, []);
      }
    } else {
      assert t[..|t| - 1] == Repeat('0', z) + s[..|s| - 1];
      LeadingZeros(z, s[..|s| - 1]);
    }
  }

  lemma PaddedDigits(s: string, width: nat)
    requires AllDigits(s)
    ensures AllDigits(PadStart(s, width, '0'))
    ensures DecimalValue(PadStart(s, width, '0')) == DecimalValue(s)
  {
    if |s| < width {
      LeadingZeros(width - |s|, s);
    }
  }

  // ------------------------------------------------------- join and split

  /** `parts.join(sep)`. */
  function Join(parts: seq<string>, sep: string): string
  {
    if |parts| == 0 then ""
    else if |parts| == 1 then parts[0]
    else parts[0] + sep + Join(parts[1..], sep)
  }

  lemma JoinConsHead(a: string, b: string, t: seq<string>, sep: string)
    ensures Join([a + b] + t, sep) == a + Join([b] + t, sep)
  {
    if |t| > 0 {
      assert ([a + b] + t)[1..] == t;
      assert ([b] + t)[1..] == t;
    }
  }

  /** Joining two non-empty lists is joining each and the two results. */
  lemma {:induction false} JoinAppend(a: seq<string>, b: seq<string>, sep: string)
    requires |a| > 0 && |b| > 0
    ensures Join(a + b, sep) == Join(a, sep) + sep + Join(b, sep)
  {
    if |a| > 1 {
      assert (a + b)[1..] == a[1..] + b;
      JoinAppend(a[1..], b, sep);
    } else {
      assert (a + b)[1..] == b;
    }
  }

  /** `s.split(c)` for a one-character separator. */
  function Split(s: string, c: char): (parts: seq<string>)
    ensures |parts| >= 1
    ensures forall i :: 0 <= i < |parts| ==> c !in parts[i]
    ensures Join(parts, [c]) == s
    decreases |s|
  {
    if |s| == 0 then [""]
    else
      var rest := Split(s[1..], c);
      if s[0] == c then
        assert ([""] + rest)[1..] == rest;
        [""] + rest
      else
        JoinConsHead([s[0]], rest[0], rest[1..], [c]);
        assert [rest[0]] + rest[1..] == rest;
        [[s[0]] + rest[0]] + rest[1..]
  }

  lemma {:induction false} SplitNoSeparator(a: string, c: char)
    requires c !in a
    ensures Split(a, c) == [a]
    decreases |a|
  {
    if |a| > 0 {
      SplitNoSeparator(a[1..], c);
      assert [a[0]] + a[1..] == a;
    }
  }

  lemma {:induction false} SplitAtSeparator(a: string, t: string, c: char)
    requires c !in a
    ensures Split(a + [c] + t, c) == [a] + Split(t, c)
    decreases |a|
  {
    var s := a + [c] + t;
    if |a| == 0 {
      assert s[1..] == t;
    } else {
      assert s[1..] == a[1..] + [c] + t;
      SplitAtSeparator(a[1..], t, c);
      assert [a[0]] + a[1..] == a;
    }
  }

  /** A text holding the separator splits into two parts or more. */
  lemma {:induction false} SplitAtLeastTwo(s: string, c: char)
    requires c in s
    ensures |Split(s, c)| >= 2
    decreases |s|
  {
    if s[0] != c {
      assert s == [s[0]] + s[1..];
      SplitAtLeastTwo(s[1..], c);
    }
  }

  /** Splitting undoes joining when no part contains the separator. */
  lemma {:induction false} SplitJoin(parts: seq<string>, c: char)
    requires |parts| >= 1
    requires forall i :: 0 <= i < |parts| ==> c !in parts[i]
    ensures Split(Join(parts, [c]), c) == parts
  {
    if |parts| == 1 {
      SplitNoSeparator(parts[0], c);
    } else {
      SplitAtSeparator(parts[0], Join(parts[1..], [c]), c);
      SplitJoin(parts[1..], c);
      assert [parts[0]] + parts[1..] == parts;
    }
  }

  // ---------------------------------------------------- search and replace

  predicate IsPrefix(p: string, s: string) {
    |p| <= |s| && s[..|p|] == p
  }

  /** `s.includes(sub)`. */
  predicate Contains(s: string, sub: string) {
    exists i :: 0 <= i <= |s| && IsPrefix(sub, s[i..])
  }

  lemma ContainsAt(s: string, sub: string, i: nat)
    requires i <= |s| && IsPrefix(sub, s[i..])
    ensures Contains(s, sub)
  {
  }

  lemma NotContainsTail(s: string, sub: string)
    requires |s| > 0 && !Contains(s, sub)
    ensures !IsPrefix(sub, s) && !Contains(s[1..], sub)
  {
    assert s[0..] == s;
    forall i | 0 <= i <= |s[1..]| ensures !IsPrefix(sub, s[1..][i..]) {
      assert s[1..][i..] == s[i + 1..];
    }
  }

  /** `s.replace(/pat/g, rep)` for a literal pattern: left-to-right,
      non-overlapping. */
  function ReplaceAll(s: string, pat: string, rep: string): string
    requires |pat| > 0
    decreases |s|
  {
    if |s| == 0 then ""
    else if IsPrefix(pat, s) then rep + ReplaceAll(s[|pat|..], pat, rep)
    else [s[0]] + ReplaceAll(s[1..], pat, rep)
  }

  /** A pattern that never occurs leaves the string unchanged. */
  lemma {:induction false} ReplaceAbsent(s: string, pat: string, rep: string)
    requires |pat| > 0 && !Contains(s, pat)
    ensures ReplaceAll(s, pat, rep) == s
    decreases |s|
  {
    if |s| > 0 {
      NotContainsTail(s, pat);
      ReplaceAbsent(s[1..], pat, rep);
      assert [s[0]] + s[1..] == s;
    }
  }

  /** Replacing a pattern by itself changes nothing. */
  lemma {:induction false} ReplaceSelf(s: string, pat: string)
    requires |pat| > 0
    ensures ReplaceAll(s, pat, pat) == s
    decreases |s|
  {
    if |s| > 0 {
      if IsPrefix(pat, s) {
        ReplaceSelf(s[|pat|..], pat);
        assert s[..|pat|] + s[|pat|..] == s;
      } else {
        ReplaceSelf(s[1..], pat);
        assert [s[0]] + s[1..] == s;
      }
    }
  }

  /** Text free of the pattern's first character passes through unchanged
      and the replacement goes on after it. */
  lemma {:induction false} ReplaceAfterPlain(a: string, t: string, pat: string, rep: string)
    requires |pat| > 0 && pat[0] !in a
    ensures ReplaceAll(a + t, pat, rep) == a + ReplaceAll(t, pat, rep)
    decreases |a|
  {
    if |a| > 0 {
      assert (a + t)[1..] == a[1..] + t;
      assert !IsPrefix(pat, a + t) by { assert (a + t)[0] == a[0]; }
      ReplaceAfterPlain(a[1..], t, pat, rep);
      assert ReplaceAll(a + t, pat, rep) == [a[0]] + ReplaceAll(a[1..] + t, pat, rep);
      assert [a[0]] + a[1..] == a;
    } else {
      assert a + t == t;
    }
  }

  /** Parts free of the pattern's first character, joined by the pattern,
      come out joined by the replacement. */
  lemma {:induction false} ReplaceJoin(parts: seq<string>, pat: string, rep: string)
    requires |pat| > 0 && forall i :: 0 <= i < |parts| ==> pat[0] !in parts[i]
    ensures ReplaceAll(Join(parts, pat), pat, rep) == Join(parts, rep)
  {
    if |parts| == 1 {
      ReplaceAfterPlain(parts[0], "", pat, rep);
      assert parts[0] + "" == parts[0];
    } else if |parts| > 1 {
      var rest := Join(parts[1..], pat);
      ReplaceAfterPlain(parts[0], pat + rest, pat, rep);
      assert (pat + rest)[..|pat|] == pat && (pat + rest)[|pat|..] == rest;
      ReplaceJoin(parts[1..], pat, rep);
      assert parts[0] + pat + rest == parts[0] + (pat + rest);
    }
  }

  // --------------------------------------------------------------- casing

  function LowerChar(c: char): char {
    if 'A' <= c <= 'Z' then (c as int + 32) as char else c
  }

  /** `toLowerCase` restricted to the ASCII letters. */
  function Lower(s: string): (r: string)
    ensures |r| == |s| && forall i :: 0 <= i < |s| ==> r[i] == LowerChar(s[i])
  {
    seq(|s|, i requires 0 <= i < |s| => LowerChar(s[i]))
  }

  lemma LowerIdempotent(s: string)
    ensures Lower(Lower(s)) == Lower(s)
  {
  }

  // ---------------------------------------------------------- whitespace

  /** `s.trimStart()`: drops the leading whitespace run. */
  function TrimStart(s: string): (r: string)
    ensures |r| <= |s| && r == s[|s| - |r|..]
    ensures forall k :: 0 <= k < |s| - |r| ==> IsSpace(s[k])
    ensures |r| > 0 ==> !IsSpace(r[0])
    decreases |s|
  {
    if |s| > 0 && IsSpace(s[0]) then TrimStart(s[1..]) else s
  }

  /** `s.trimEnd()`: drops the trailing whitespace run. */
  function TrimEnd(s: string): (r: string)
    ensures |r| <= |s| && r == s[..|r|]
    ensures forall k :: |r| <= k < |s| ==> IsSpace(s[k])
    ensures |r| > 0 ==> !IsSpace(r[|r| - 1])
    decreases |s|
  {
    if |s| > 0 && IsSpace(s[|s| - 1]) then TrimEnd(s[..|s| - 1]) else s
  }

  /** `s.trim()`: the slice of `s` between its leading and trailing
      whitespace runs. */
  function Trim(s: string): (r: string)
    ensures |r| <= |s|
    ensures |r| > 0 ==> !IsSpace(r[0]) && !IsSpace(r[|r| - 1])
    ensures r == [] <==> Blank(s)
    ensures |s| > 0 && !IsSpace(s[0]) && !IsSpace(s[|s| - 1]) ==> r == s
  {
    TrimEmptyOnlyIfBlank(s);
    TrimEnd(TrimStart(s))
  }

  lemma TrimEmptyOnlyIfBlank(s: string)
    ensures TrimEnd(TrimStart(s)) == [] ==> Blank(s)
  {
    BlankIffTrimStartEmpty(s);
  }

  /** Every character is whitespace. */
  predicate Blank(s: string) {
    forall k :: 0 <= k < |s| ==> IsSpace(s[k])
  }

  lemma BlankIffTrimStartEmpty(s: string)
    ensures Blank(s) <==> TrimStart(s) == []
  {
    var t := TrimStart(s);
    if |t| > 0 {
      assert t[0] == s[|s| - |t|];
    }
  }

  /** `s.replace(/\s+/g, " ")`: every whitespace run becomes one space. */
  function CollapseSpaces(s: string): (r: string)
    ensures |s| > 0 <==> |r| > 0
    ensures |s| > 0 ==> (IsSpace(s[0]) <==> r[0] == ' ') && (!IsSpace(s[0]) ==> r[0] == s[0])
    ensures Blank(s) <==> Blank(r)
    decreases |s|
  {
    if |s| == 0 then ""
    else if IsSpace(s[0]) then
      BlankIffTrimStartEmpty(s);
      BlankCons(' ', CollapseSpaces(TrimStart(s)));
      BlankIffTrimStartEmpty(TrimStart(s));
      " " + CollapseSpaces(TrimStart(s))
    else
      BlankCons(s[0], s[1..]);
      BlankCons(s[0], CollapseSpaces(s[1..]));
      assert [s[0]] + s[1..] == s;
      [s[0]] + CollapseSpaces(s[1..])
  }

  lemma BlankCons(c: char, s: string)
    ensures Blank([c] + s) <==> IsSpace(c) && Blank(s)
  {
    var t := [c] + s;
    if IsSpace(c) && Blank(s) {
      forall k | 0 <= k < |t| ensures IsSpace(t[k]) {
        if k > 0 { assert t[k] == s[k - 1]; }
      }
    }
    if Blank(t) {
      assert t[0] == c;
      forall k | 0 <= k < |s| ensures IsSpace(s[k]) {
        assert s[k] == t[k + 1];
      }
    }
  }

  /** Whitespace is only single plain spaces. */
  predicate SingleSpaced(s: string) {
    && (forall k :: 0 <= k < |s| && IsSpace(s[k]) ==> s[k] == ' ')
    && (forall k :: 0 <= k < |s| - 1 ==> !(IsSpace(s[k]) && IsSpace(s[k + 1])))
  }

  lemma SingleSpacedTail(s: string)
    requires |s| > 0 && SingleSpaced(s)
    ensures SingleSpaced(s[1..])
    ensures IsSpace(s[0]) ==> s[0] == ' ' && (|s| == 1 || !IsSpace(s[1]))
  {
    var tail := s[1..];
    forall k | 0 <= k < |tail| && IsSpace(tail[k]) ensures tail[k] == ' ' {
      assert tail[k] == s[k + 1];
    }
    forall k | 0 <= k < |tail| - 1 ensures !(IsSpace(tail[k]) && IsSpace(tail[k + 1])) {
      assert tail[k] == s[k + 1] && tail[k + 1] == s[k + 2];
    }
  }

  lemma {:induction false} CollapseSingleSpaced(s: string)
    requires SingleSpaced(s)
    ensures CollapseSpaces(s) == s
    decreases |s|
  {
    if |s| > 0 {
      var tail := s[1..];
      SingleSpacedTail(s);
      CollapseSingleSpaced(tail);
      if IsSpace(s[0]) {
        assert TrimStart(tail) == tail;
        assert TrimStart(s) == tail;
        calc {
          CollapseSpaces(s);
          " " + CollapseSpaces(tail);
          [s[0]] + tail;
        }
      } else {
        assert CollapseSpaces(s) == [s[0]] + CollapseSpaces(tail);
      }
      assert [s[0]] + tail == s;
    }
  }

  // ------------------------------------------------------------ ordering

  /** `a <= b` on JavaScript strings: lexicographic by character. */
  predicate StrLe(a: string, b: string)
    decreases |a|
  {
    |a| == 0 || (|b| > 0 && (a[0] < b[0] || (a[0] == b[0] && StrLe(a[1..], b[1..]))))
  }

  lemma StrLeTotal(a: string, b: string)
    ensures StrLe(a, b) || StrLe(b, a)
    decreases |a|
  {
    if |a| > 0 && |b| > 0 && a[0] == b[0] {
      StrLeTotal(a[1..], b[1..]);
    }
  }

  lemma StrLeTransitive(a: string, b: string, c: string)
    requires StrLe(a, b) && StrLe(b, c)
    ensures StrLe(a, c)
    decreases |a|
  {
    if |a| > 0 && a[0] == b[0] && b[0] == c[0] {
      StrLeTransitive(a[1..], b[1..], c[1..]);
    }
  }

  lemma StrLeAntisymmetric(a: string, b: string)
    requires StrLe(a, b) && StrLe(b, a)
    ensures a == b
    decreases |a|
  {
    if |a| > 0 {
      StrLeAntisymmetric(a[1..], b[1..]);
      assert a == [a[0]] + a[1..] && b == [b[0]] + b[1..];
    }
  }
}
