/**
  `String.prototype.replace` called with a string pattern, as the marker
  templates use it (src/utils/map.js:150-156, 275-281, 291-297).

  With a string pattern only the first occurrence is replaced, and the
  replacement text is expanded by the GetSubstitution rules of section
  22.1.3.19.1 of ECMAScript 2022: `$$`, `$&`, `` $` `` and `$'` are special,
  and with no capture groups every other `$` is kept literally.
*/
module JsString {

  /** `pat` occurs in `s` starting at index `k`. */
  predicate OccursAt(s: string, pat: string, k: int) {
    0 <= k && k + |pat| <= |s| && s[k..k + |pat|] == pat
  }

  /** `k` is the first index at which `pat` occurs in `s`. */
  predicate IsFirstOccurrence(s: string, pat: string, k: int) {
    OccursAt(s, pat, k) && forall j :: 0 <= j < k ==> !OccursAt(s, pat, j)
  }

  /** The first occurrence of `pat` at or after index `from`, or -1. */
  function SearchFrom(s: string, pat: string, from: nat): (r: int)
    ensures r == -1 || (from <= r && OccursAt(s, pat, r))
    ensures r == -1 ==> forall j :: from <= j ==> !OccursAt(s, pat, j)
    ensures r != -1 ==> forall j :: from <= j < r ==> !OccursAt(s, pat, j)
    decreases |s| - from
  {
    if from + |pat| > |s| then -1
    else if s[from..from + |pat|] == pat then from
    else SearchFrom(s, pat, from + 1)
  }

  /** `s.indexOf(pat)`. */
  function IndexOf(s: string, pat: string): (r: int)
    ensures r == -1 <==> forall j :: !OccursAt(s, pat, j)
    ensures r != -1 ==> IsFirstOccurrence(s, pat, r)
  {
    SearchFrom(s, pat, 0)
  }

  /** The replacement text after GetSubstitution for a match of `matched` with `before`
      to its left and `after` to its right. */
  function Expand(rep: string, matched: string, before: string, after: string): (r: string)
    ensures rep == "" ==> r == ""
    decreases |rep|
  {
    if |rep| >= 2 && rep[0] == '$' && rep[1] == '$' then "$" + Expand(rep[2..], matched, before, after)
    else if |rep| >= 2 && rep[0] == '$' && rep[1] == '&' then matched + Expand(rep[2..], matched, before, after)
    else if |rep| >= 2 && rep[0] == '$' && rep[1] == '`' then before + Expand(rep[2..], matched, before, after)
    else if |rep| >= 2 && rep[0] == '$' && rep[1] == '\'' then after + Expand(rep[2..], matched, before, after)
    else if |rep| == 0 then ""
    else [rep[0]] + Expand(rep[1..], matched, before, after)
  }

  /** Substitution only copies: every character of the expansion comes from the
      replacement text, the match, or the text before or after it. */
  lemma {:induction false} ExpandOnlyCopies(rep: string, matched: string, before: string, after: string, c: char)
    requires c in Expand(rep, matched, before, after)
    ensures c in rep || c in matched || c in before || c in after
    decreases |rep|
  {
    var r := Expand(rep, matched, before, after);
    if |rep| >= 2 && rep[0] == '$' && rep[1] in "$&`'" {
      var head := if rep[1] == '$' then "$" else if rep[1] == '&' then matched
                  else if rep[1] == '`' then before else after;
      assert r == head + Expand(rep[2..], matched, before, after);
      if c !in head {
        ExpandOnlyCopies(rep[2..], matched, before, after, c);
        assert c in rep[2..] ==> c in rep;
      }
    } else if |rep| > 0 {
      assert r == [rep[0]] + Expand(rep[1..], matched, before, after);
      if c != rep[0] {
        ExpandOnlyCopies(rep[1..], matched, before, after, c);
        assert c in rep[1..] ==> c in rep;
      }
    }
  }

  /** No `$` in the text, so GetSubstitution leaves it alone. */
  predicate NoDollar(t: string) {
    forall k :: 0 <= k < |t| ==> t[k] != '$'
  }

  /** Replacement text without a `$` is inserted verbatim. */
  lemma {:induction false} ExpandPlain(rep: string, matched: string, before: string, after: string)
    requires NoDollar(rep)
    ensures Expand(rep, matched, before, after) == rep
    decreases |rep|
  {
    if |rep| > 0 {
      assert rep[0] != '$';
      assert NoDollar(rep[1..]) by {
        assert forall k :: 0 <= k < |rep[1..]| ==> rep[1..][k] == rep[k + 1];
      }
      ExpandPlain(rep[1..], matched, before, after);
      assert [rep[0]] + rep[1..] == rep;
    }
  }

  /** `$$` stands for one dollar sign and `$&` for the matched text. */
  lemma ExpandSpecials(matched: string, before: string, after: string)
    ensures Expand("$$", matched, before, after) == "$"
    ensures Expand("$&", matched, before, after) == matched
    ensures Expand("$`", matched, before, after) == before
    ensures Expand("$'", matched, before, after) == after
  {
    assert "$$"[2..] == "" && "$&"[2..] == "" && "$`"[2..] == "" && "$'"[2..] == "";
    assert matched + "" == matched && before + "" == before && after + "" == after;
  }

  /** One step of GetSubstitution anywhere in the replacement text: a leading `$$`, `$&`,
      `` $` `` or `$'` expands to a dollar sign, the match, the text before it or the text
      after it, followed by the expansion of the rest; any other leading character, a lone
      `$` or a `$` before a digit included, is copied. */
  lemma ExpandStep(t: string, matched: string, before: string, after: string)
    requires |t| > 0
    ensures |t| >= 2 && t[0] == '$' && t[1] == '$' ==>
      Expand(t, matched, before, after) == "$" + Expand(t[2..], matched, before, after)
    ensures |t| >= 2 && t[0] == '$' && t[1] == '&' ==>
      Expand(t, matched, before, after) == matched + Expand(t[2..], matched, before, after)
    ensures |t| >= 2 && t[0] == '$' && t[1] == '`' ==>
      Expand(t, matched, before, after) == before + Expand(t[2..], matched, before, after)
    ensures |t| >= 2 && t[0] == '$' && t[1] == '\'' ==>
      Expand(t, matched, before, after) == after + Expand(t[2..], matched, before, after)
    ensures (|t| < 2 || t[0] != '$' || t[1] !in "$&`'") ==>
      Expand(t, matched, before, after) == [t[0]] + Expand(t[1..], matched, before, after)
  {
  }

  /** A string has at most one first occurrence of a pattern. */
  lemma FirstOccurrenceUnique(s: string, pat: string, j: int, k: int)
    requires IsFirstOccurrence(s, pat, j) && IsFirstOccurrence(s, pat, k)
    ensures j == k
  {
    assert !(j < k) && !(k < j);
  }

  /** `s.replace(pat, rep)`: the first occurrence of `pat` is replaced by the expanded
      replacement; without an occurrence the string is returned unchanged. */
  function ReplaceFirst(s: string, pat: string, rep: string): (r: string)
    ensures (forall j :: !OccursAt(s, pat, j)) ==> r == s
    ensures forall k :: IsFirstOccurrence(s, pat, k) ==>
      r == s[..k] + Expand(rep, pat, s[..k], s[k + |pat|..]) + s[k + |pat|..]
  {
    var k := IndexOf(s, pat);
    if k == -1 then s
    else
      var r := s[..k] + Expand(rep, pat, s[..k], s[k + |pat|..]) + s[k + |pat|..];
      assert forall j :: IsFirstOccurrence(s, pat, j) ==>
        r == s[..j] + Expand(rep, pat, s[..j], s[j + |pat|..]) + s[j + |pat|..] by {
        forall j | IsFirstOccurrence(s, pat, j)
          ensures r == s[..j] + Expand(rep, pat, s[..j], s[j + |pat|..]) + s[j + |pat|..]
        {
          FirstOccurrenceUnique(s, pat, j, k);
        }
      }
      r
  }

  /** An occurrence in the right operand of a concatenation is one in the concatenation. */
  lemma OccursAfterPrefix(a: string, b: string, pat: string, i: int)
    requires OccursAt(b, pat, i)
    ensures OccursAt(a + b, pat, |a| + i)
  {
    assert (a + b)[|a| + i..|a| + i + |pat|] == b[i..i + |pat|];
  }

  /** An occurrence in a suffix of `s` is one in `s`, shifted by the suffix's start. */
  lemma OccursInSuffix(s: string, pat: string, from: nat, j: int)
    requires from <= |s|
    requires from <= j && OccursAt(s, pat, j)
    ensures OccursAt(s[from..], pat, j - from)
  {
    assert s[from..][j - from..j - from + |pat|] == s[j..j + |pat|];
  }

  /** With a `$`-free replacement the first occurrence is replaced verbatim. */
  lemma ReplaceFirstPlain(s: string, pat: string, rep: string, k: int)
    requires IsFirstOccurrence(s, pat, k)
    requires NoDollar(rep)
    ensures ReplaceFirst(s, pat, rep) == s[..k] + rep + s[k + |pat|..]
  {
    ExpandPlain(rep, pat, s[..k], s[k + |pat|..]);
  }

  /** An occurrence after the replaced span reappears in `pre + s[from..]`, shifted. */
  lemma OccurrenceSurvives(s: string, pat: string, pre: string, from: nat, j: int)
    requires from <= j && OccursAt(s, pat, j)
    ensures OccursAt(pre + s[from..], pat, j - from + |pre|)
  {
    OccursInSuffix(s, pat, from, j);
    OccursAfterPrefix(pre, s[from..], pat, j - from);
  }

  /** Splicing `rep` over an occurrence at `k` keeps the text around it and every later
      occurrence of the pattern, shifted by the difference in length. */
  lemma SpliceKeepsLater(s: string, pat: string, rep: string, k: int, r: string)
    requires OccursAt(s, pat, k)
    requires r == s[..k] + rep + s[k + |pat|..]
    ensures |r| == |s| - |pat| + |rep|
    ensures forall j :: k + |pat| <= j && OccursAt(s, pat, j) ==> OccursAt(r, pat, j - |pat| + |rep|)
  {
    var pre := s[..k] + rep;
    assert r == pre + s[k + |pat|..];
    forall j | k + |pat| <= j && OccursAt(s, pat, j)
      ensures OccursAt(r, pat, j - |pat| + |rep|)
    {
      OccurrenceSurvives(s, pat, pre, k + |pat|, j);
    }
  }

  /** Only the first occurrence changes, whatever the replacement text: the text around it
      is kept and the expanded replacement takes its place. */
  lemma ReplaceFirstOnlyFirst(s: string, pat: string, rep: string, k: int)
    requires IsFirstOccurrence(s, pat, k)
    ensures ReplaceFirst(s, pat, rep) == s[..k] + Expand(rep, pat, s[..k], s[k + |pat|..]) + s[k + |pat|..]
    ensures |ReplaceFirst(s, pat, rep)| == |s| - |pat| + |Expand(rep, pat, s[..k], s[k + |pat|..])|
  {
  }

  /** Every occurrence that starts at or after the end of the first survives the
      replacement, whatever the replacement text: with `e` the expanded replacement, it is
      shifted by `|e| - |pat|`. An occurrence overlapping the first one need not survive. */
  lemma ReplaceFirstKeepsLater(s: string, pat: string, rep: string, k: int, j: int, e: string)
    requires IsFirstOccurrence(s, pat, k)
    requires k + |pat| <= j && OccursAt(s, pat, j)
    requires e == Expand(rep, pat, s[..k], s[k + |pat|..])
    ensures OccursAt(ReplaceFirst(s, pat, rep), pat, j - |pat| + |e|)
  {
    ReplaceFirstOnlyFirst(s, pat, rep, k);
    SpliceKeepsLater(s, pat, e, k, ReplaceFirst(s, pat, rep));
  }

  /** An occurrence overlapping the first one is lost: `"aaa".replace("aa", "X")` is `"Xa"`,
      although `"aa"` also occurs at index 1 of `"aaa"`. */
  lemma OverlapLostExample()
    ensures OccursAt("aaa", "aa", 1)
    ensures ReplaceFirst("aaa", "aa", "X") == "Xa"
  {
    var s, pat := "aaa", "aa";
    assert s[0..2] == pat && s[1..3] == pat;
    assert IsFirstOccurrence(s, pat, 0);
    assert NoDollar("X");
    ReplaceFirstPlain(s, pat, "X", 0);
    assert s[..0] + "X" + s[2..] == "Xa";
  }

  /** A template with two placeholders keeps the second one: `"a{{x}}b{{x}}"` becomes `"a1b{{x}}"`. */
  lemma TwoPlaceholdersExample()
    ensures ReplaceFirst("a{{x}}b{{x}}", "{{x}}", "1") == "a1b{{x}}"
  {
    var s, pat := "a{{x}}b{{x}}", "{{x}}";
    assert s[1..6] == pat;
    assert s[0] != pat[0];
    assert IsFirstOccurrence(s, pat, 1);
    assert NoDollar("1");
    ReplaceFirstPlain(s, pat, "1", 1);
    assert s[..1] == "a" && s[6..] == "b{{x}}";
    assert "a" + "1" + "b{{x}}" == "a1b{{x}}";
  }
}
