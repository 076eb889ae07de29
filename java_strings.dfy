/** The two `java.lang.String` operations the client-address logic relies on,
    written out with the JDK's exact edge cases: `split(",")` (limit 0, so
    trailing empty fields are dropped) and `trim()` (which removes every
    character up to and including U+0020 from both ends). */
module JavaStrings {

  /** A character `String.trim` strips: code point at most `' '`. */
  predicate Blank(c: char) {
    c <= ' '
  }

  /** The index of the first non-blank character at or after `i` (`|s|`
      when there is none). */
  function SkipBlanks(s: string, i: nat): (j: nat)
    requires i <= |s|
    ensures i <= j <= |s|
    ensures forall k | i <= k < j :: Blank(s[k])
    ensures j == |s| || !Blank(s[j])
    decreases |s| - i
  {
    if i < |s| && Blank(s[i]) then SkipBlanks(s, i + 1) else i
  }

  /** Walking back from `j`, no further than `lo`: the index just after the
      last non-blank character (`lo` when there is none). */
  function SkipBlanksBack(s: string, lo: nat, j: nat): (m: nat)
    requires lo <= j <= |s|
    ensures lo <= m <= j
    ensures forall k | m <= k < j :: Blank(s[k])
    ensures m == lo || !Blank(s[m - 1])
    decreases j
  {
    if lo < j && Blank(s[j - 1]) then SkipBlanksBack(s, lo, j - 1) else j
  }

  /** `String.trim()`: the piece of `s` left once the blanks at both ends are
      removed. Only blanks are removed, and the piece neither starts nor ends
      with one, so it is the longest such piece. */
  function Trim(s: string): (r: string)
    ensures exists a :: && OccursAt(r, s, a)
                         && (forall i | 0 <= i < a :: Blank(s[i]))
                         && (forall i | a + |r| <= i < |s| :: Blank(s[i]))
    ensures r == [] || (!Blank(r[0]) && !Blank(r[|r| - 1]))
  {
    var a := SkipBlanks(s, 0);
    var b := SkipBlanksBack(s, a, |s|);
    assert OccursAt(s[a..b], s, a);
    s[a..b]
  }

  /** The text before the first ',' (all of `s` when it has none). */
  function FirstField(s: string): (r: string)
    ensures |r| <= |s| && r == s[..|r|]
    ensures ',' !in r
    ensures |r| < |s| ==> s[|r|] == ','
    ensures ',' !in s ==> r == s
    decreases |s|
  {
    if s == [] || s[0] == ',' then [] else [s[0]] + FirstField(s[1..])
  }

  /** Every ','-separated field of `s`, empty fields included, in order. */
  function Fields(s: string): (r: seq<string>)
    ensures |r| >= 1
    ensures forall i | 0 <= i < |r| :: ',' !in r[i]
    decreases |s|
  {
    if s == [] then [[]]
    else
      var rest := Fields(s[1..]);
      if s[0] == ',' then [[]] + rest else [[s[0]] + rest[0]] + rest[1..]
  }

  /** Puts a ',' between consecutive fields. */
  function Join(fs: seq<string>): string
    decreases |fs|
  {
    if fs == [] then []
    else if |fs| == 1 then fs[0]
    else fs[0] + [','] + Join(fs[1..])
  }

  /** `r` occurs in `s` starting at index `i`. */
  predicate OccursAt(r: string, s: string, i: int) {
    0 <= i <= |s| - |r| && r == s[i..i + |r|]
  }

  /** Every field is empty. */
  predicate AllEmpty(fs: seq<string>) {
    forall i | 0 <= i < |fs| :: fs[i] == []
  }

  /** Every character is a comma. */
  predicate AllCommas(s: string) {
    forall i | 0 <= i < |s| :: s[i] == ','
  }

  /** Removes the empty fields at the end, as `split` with limit 0 does. */
  function DropTrailingEmpty(fs: seq<string>): (r: seq<string>)
    ensures |r| <= |fs| && r == fs[..|r|]
    ensures r == [] || r[|r| - 1] != []
    ensures forall i | |r| <= i < |fs| :: fs[i] == []
    ensures r == [] <==> AllEmpty(fs)
    decreases |fs|
  {
    if fs != [] && fs[|fs| - 1] == [] then DropTrailingEmpty(fs[..|fs| - 1]) else fs
  }

  /** `s.split(",")`: a string without a separator is its own single field
      (so `"".split(",")` is `[""]`); otherwise the fields without the empty
      ones at the end, which leaves nothing at all for a string of commas. */
  function Split(s: string): (r: seq<string>)
    ensures forall i | 0 <= i < |r| :: ',' !in r[i]
    ensures ',' !in s ==> r == [s]
    ensures r == [] || r[|r| - 1] != [] || r == [s]
  {
    if ',' !in s then [s] else DropTrailingEmpty(Fields(s))
  }

  /** Splitting at the commas loses nothing: joining the fields again gives
      back the input. */
  lemma {:induction false} JoinFields(s: string)
    ensures Join(Fields(s)) == s
    decreases |s|
  {
    if s != [] {
      var rest := Fields(s[1..]);
      JoinFields(s[1..]);
      assert Join(rest) == s[1..];
      if s[0] == ',' {
        var fs := [[]] + rest;
        assert Fields(s) == fs;
        assert |fs| > 1 && fs[0] == [] && fs[1..] == rest;
        assert Join(fs) == [] + [','] + Join(rest);
      } else {
        assert rest == [rest[0]] + rest[1..];
        assert Fields(s) == [[s[0]] + rest[0]] + rest[1..];
        JoinCons(s[0], rest[0], rest[1..]);
      }
      assert s == [s[0]] + s[1..];
    }
  }

  /** Prepending a character to the first field prepends it to the join. */
  lemma JoinCons(c: char, f: string, rest: seq<string>)
    ensures Join([[c] + f] + rest) == [c] + Join([f] + rest)
  {
    var gs := [[c] + f] + rest;
    var fs := [f] + rest;
    if rest == [] {
      assert Join(gs) == [c] + f;
      assert Join(fs) == f;
    } else {
      assert gs[1..] == rest && fs[1..] == rest;
      var tail := Join(rest);
      assert Join(gs) == ([c] + f) + [','] + tail;
      assert Join(fs) == f + [','] + tail;
    }
  }

  /** The first field computed by `Fields` is the text before the first ','. */
  lemma {:induction false} FieldsHead(s: string)
    ensures Fields(s)[0] == FirstField(s)
    decreases |s|
  {
    if s != [] && s[0] != ',' {
      FieldsHead(s[1..]);
    }
  }

  /** All fields are empty exactly when `s` is nothing but commas. */
  lemma {:induction false} FieldsAllEmpty(s: string)
    ensures AllEmpty(Fields(s)) <==> AllCommas(s)
    decreases |s|
  {
    if s != [] {
      var rest := Fields(s[1..]);
      FieldsAllEmpty(s[1..]);
      if s[0] == ',' {
        assert Fields(s) == [[]] + rest;
        assert AllEmpty([[]] + rest) <==> AllEmpty(rest) by {
          assert forall i | 1 <= i < |rest| + 1 :: ([[]] + rest)[i] == rest[i - 1];
          assert forall j | 0 <= j < |rest| :: rest[j] == ([[]] + rest)[j + 1];
        }
        assert AllCommas(s) <==> AllCommas(s[1..]) by {
          assert forall i | 1 <= i < |s| :: s[i] == s[1..][i - 1];
        }
      } else {
        assert Fields(s)[0] != [];
      }
    }
  }

  /** `split(",")` yields an empty array exactly for a non-empty string made
      only of commas. */
  lemma SplitEmptyIff(s: string)
    ensures Split(s) == [] <==> s != [] && AllCommas(s)
  {
    if ',' in s {
      FieldsAllEmpty(s);
    } else if s != [] {
      assert s[0] != ',';
    }
  }

  /** Whenever `split(",")` yields something, its first element is the text
      before the first ','. */
  lemma SplitHead(s: string)
    requires Split(s) != []
    ensures Split(s)[0] == FirstField(s)
  {
    if ',' in s {
      FieldsHead(s);
    }
  }
}
