/** The global, case-insensitive `<br>` replacements of the meal texts:
    `/<br\s*\/?\s*>/gi` (`cleanMealText`) and `/<br\s*\/?>/gi`
    (`sanitizeMenu`), each replacing every match with "\n". */
module BrTags {
  import opened Wrappers
  import opened Text

  /** Length of the leading whitespace run of `s`. */
  function SpaceRun(s: string): (n: nat)
    ensures n <= |s|
    ensures forall k :: 0 <= k < n ==> IsSpace(s[k])
    ensures n < |s| ==> !IsSpace(s[n])
  {
    if |s| > 0 && IsSpace(s[0]) then 1 + SpaceRun(s[1..]) else 0
  }

  /** The length of the tag the pattern matches at the start of `s`, if
      any. `spaceBeforeClose` selects the variant with `\s*` before `>`.
      The pattern is `<`, `b`, `r`, spaces, an optional `/`, (spaces), `>`;
      greedy matching decides it, since `/` and `>` are not spaces. */
  function TagAt(s: string, spaceBeforeClose: bool): (n: Option<nat>)
    ensures n.Some? ==> 4 <= n.value <= |s| && s[0] == '<' && s[n.value - 1] == '>'
  {
    if |s| >= 3 && s[0] == '<' && LowerChar(s[1]) == 'b' && LowerChar(s[2]) == 'r' then
      var a := 3 + SpaceRun(s[3..]);
      var b := if a < |s| && s[a] == '/' then a + 1 else a;
      var c := if spaceBeforeClose then b + SpaceRun(s[b..]) else b;
      if c < |s| && s[c] == '>' then Some(c + 1) else None
    else None
  }

  /** `s.replace(pattern, "\n")` with the `g` flag: matches are found left
      to right and never overlap. */
  function ReplaceTags(s: string, spaceBeforeClose: bool): (r: string)
    ensures |r| <= |s|
    decreases |s|
  {
    if |s| == 0 then ""
    else match TagAt(s, spaceBeforeClose)
      case Some(n) => "\n" + ReplaceTags(s[n..], spaceBeforeClose)
      case None => [s[0]] + ReplaceTags(s[1..], spaceBeforeClose)
  }

  /** No position of `s` starts a tag. */
  predicate NoTag(s: string, spaceBeforeClose: bool) {
    forall i :: 0 <= i < |s| ==> TagAt(s[i..], spaceBeforeClose).None?
  }

  /** Text before the first `<` passes through untouched. */
  lemma {:induction false} PlainPrefix(a: string, t: string, spaceBeforeClose: bool)
    requires '<' !in a
    ensures ReplaceTags(a + t, spaceBeforeClose) == a + ReplaceTags(t, spaceBeforeClose)
  {
    if |a| > 0 {
      assert (a + t)[0] == a[0];
      assert (a + t)[1..] == a[1..] + t;
      PlainPrefix(a[1..], t, spaceBeforeClose);
    } else {
      assert a + t == t;
    }
  }

  /** A tag at the front becomes a single newline. */
  lemma TagBecomesNewline(tag: string, t: string, spaceBeforeClose: bool)
    requires TagAt(tag + t, spaceBeforeClose) == Some(|tag|)
    ensures ReplaceTags(tag + t, spaceBeforeClose) == "\n" + ReplaceTags(t, spaceBeforeClose)
  {
    assert (tag + t)[|tag|..] == t;
  }

  /** `<br>`, `<BR/>` and `<br />` are tags of both patterns, whatever follows. */
  lemma CommonTags(t: string, spaceBeforeClose: bool)
    ensures TagAt("<br>" + t, spaceBeforeClose) == Some(4)
    ensures TagAt("<BR/>" + t, spaceBeforeClose) == Some(5)
    ensures TagAt("<br />" + t, spaceBeforeClose) == Some(6)
  {
    var s1, s2, s3 := "<br>" + t, "<BR/>" + t, "<br />" + t;
    assert s1[3..][0] == '>';
    assert s2[3..][0] == '/';
    assert s2[4..][0] == '>';
    assert s3[3..][0] == ' ' && s3[3..][1..][0] == '/';
    assert s3[5..][0] == '>';
  }

  /** `<br / >` is a tag only of the pattern with spaces before `>`. */
  lemma SpaceBeforeClose(t: string)
    ensures TagAt("<br / >" + t, true) == Some(7)
    ensures TagAt("<br / >" + t, false).None?
  {
    var s := "<br / >" + t;
    assert s[3..][0] == ' ' && s[3..][1..][0] == '/';
    assert s[5..][0] == ' ' && s[5..][1..][0] == '>';
  }

  lemma {:induction false} NoTagTail(s: string, spaceBeforeClose: bool)
    requires |s| > 0 && NoTag(s, spaceBeforeClose)
    ensures NoTag(s[1..], spaceBeforeClose)
  {
    forall i | 0 <= i < |s[1..]| ensures TagAt(s[1..][i..], spaceBeforeClose).None? {
      assert s[1..][i..] == s[i + 1..];
    }
  }

  /** A text with a tag anywhere gets strictly shorter. */
  lemma {:induction false} TagShortens(s: string, spaceBeforeClose: bool, i: nat)
    requires i < |s| && TagAt(s[i..], spaceBeforeClose).Some?
    ensures |ReplaceTags(s, spaceBeforeClose)| < |s|
  {
    if TagAt(s, spaceBeforeClose).None? {
      assert i > 0;
      assert s[1..][i - 1..] == s[i..];
      TagShortens(s[1..], spaceBeforeClose, i - 1);
    }
  }

  /** The replacement changes a text exactly when the text holds a tag:
      everything that is not a tag is left as it was. */
  lemma {:induction false} UnchangedIffNoTag(s: string, spaceBeforeClose: bool)
    ensures ReplaceTags(s, spaceBeforeClose) == s <==> NoTag(s, spaceBeforeClose)
  {
    if NoTag(s, spaceBeforeClose) {
      if |s| > 0 {
        assert s[0..] == s;
        NoTagTail(s, spaceBeforeClose);
        UnchangedIffNoTag(s[1..], spaceBeforeClose);
        assert s == [s[0]] + s[1..];
      }
    } else {
      var i :| 0 <= i < |s| && TagAt(s[i..], spaceBeforeClose).Some?;
      TagShortens(s, spaceBeforeClose, i);
    }
  }
}
