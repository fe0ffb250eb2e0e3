/** The handful of `str` operations the sources use, on `seq<char>`:
    Unicode-whitespace trimming, prefixes, searching, splitting and
    ASCII lower-casing. */
module Text {
  import opened Base

  /** `char::is_whitespace`: the Unicode White_Space property. */
  predicate IsWhitespace(c: char) {
    ('\t' <= c <= '\r') || c == ' ' || c == '\U{85}' || c == '\U{A0}' || c == '\U{1680}'
    || ('\U{2000}' <= c <= '\U{200A}') || c == '\U{2028}' || c == '\U{2029}'
    || c == '\U{202F}' || c == '\U{205F}' || c == '\U{3000}'
  }

  function TrimStart(s: string): (r: string)
    ensures |r| <= |s| && r == s[|s| - |r|..]
    ensures r == [] || !IsWhitespace(r[0])
    ensures forall i :: 0 <= i < |s| - |r| ==> IsWhitespace(s[i])
  {
    if s == [] || !IsWhitespace(s[0]) then s else TrimStart(s[1..])
  }

  function TrimEnd(s: string): (r: string)
    ensures |r| <= |s| && r == s[..|r|]
    ensures r == [] || !IsWhitespace(r[|r| - 1])
    ensures forall i :: |r| <= i < |s| ==> IsWhitespace(s[i])
  {
    if s == [] || !IsWhitespace(s[|s| - 1]) then s else TrimEnd(s[..|s| - 1])
  }

  /** `str::trim`. */
  function Trim(s: string): (r: string)
    ensures |r| <= |s|
    ensures r == [] || (!IsWhitespace(r[0]) && !IsWhitespace(r[|r| - 1]))
  {
    TrimEnd(TrimStart(s))
  }

  predicate StartsWith(s: string, p: string) {
    |p| <= |s| && s[..|p|] == p
  }

  /** `str::strip_prefix`. */
  function StripPrefix(s: string, p: string): (r: Option<string>)
    ensures r.Some? <==> StartsWith(s, p)
    ensures r.Some? ==> s == p + r.value
  {
    if StartsWith(s, p) then Some(s[|p|..]) else None
  }

  predicate OccursAt(s: string, pat: string, i: nat) {
    i + |pat| <= |s| && s[i..i + |pat|] == pat
  }

  /** `str::find` of a pattern: the first position where it occurs. */
  function Find(s: string, pat: string): (r: Option<nat>)
    ensures r.Some? ==> OccursAt(s, pat, r.value)
    ensures r.Some? ==> forall j :: 0 <= j < r.value ==> !OccursAt(s, pat, j)
    ensures r.None? ==> forall j :: 0 <= j <= |s| ==> !OccursAt(s, pat, j)
  {
    FindFrom(s, pat, 0)
  }

  function FindFrom(s: string, pat: string, i: nat): (r: Option<nat>)
    requires i <= |s|
    requires forall j :: 0 <= j < i ==> !OccursAt(s, pat, j)
    ensures r.Some? ==> i <= r.value && OccursAt(s, pat, r.value)
    ensures r.Some? ==> forall j :: 0 <= j < r.value ==> !OccursAt(s, pat, j)
    ensures r.None? ==> forall j :: 0 <= j <= |s| ==> !OccursAt(s, pat, j)
    decreases |s| - i
  {
    if OccursAt(s, pat, i) then Some(i)
    else if i + |pat| >= |s| then
      assert forall j :: i < j <= |s| ==> !OccursAt(s, pat, j);
      None
    else FindFrom(s, pat, i + 1)
  }

  /** `str::contains`. */
  predicate Contains(s: string, pat: string) {
    Find(s, pat).Some?
  }

  /** `str::split` on a one-character separator: the pieces between
      separators, one more piece than there are separators. */
  function Split(s: string, sep: char): (r: seq<string>)
    ensures |r| >= 1
    ensures |r| == 1 <==> sep !in s
    ensures |r| == 1 ==> r[0] == s
  {
    var f := Find(s, [sep]);
    if f.None? then
      assert forall j :: 0 <= j < |s| ==> !OccursAt(s, [sep], j) && s[j..j + 1] == [s[j]];
      [s]
    else
      assert s[f.value] == sep;
      [s[..f.value]] + Split(s[f.value + 1..], sep)
  }

  /** `i` is the first position of `c` in `s`. */
  predicate FirstAt(s: string, c: char, i: int) {
    0 <= i < |s| && s[i] == c && c !in s[..i]
  }

  /** Finding a one-character pattern finds the character's first position. */
  lemma FindChar(s: string, c: char)
    ensures Find(s, [c]).Some? <==> c in s
    ensures Find(s, [c]).Some? ==> FirstAt(s, c, Find(s, [c]).value)
  {
    var f := Find(s, [c]);
    forall j | 0 <= j < |s|
      ensures OccursAt(s, [c], j) <==> s[j] == c
    {
      assert s[j..j + 1] == [s[j]];
    }
    if f.Some? {
      assert s[f.value] == c;
      assert c !in s[..f.value];
    }
  }

  /** A character has at most one first position. */
  lemma FirstAtUnique(s: string, c: char, i: int, j: int)
    requires FirstAt(s, c, i) && FirstAt(s, c, j)
    ensures i == j
  {
  }

  /** `sep` occurs in `s` at `i` and nowhere else. */
  predicate OnlyAt(s: string, sep: char, i: int) {
    0 <= i < |s| && s[i] == sep && sep !in s[..i] && sep !in s[i + 1..]
  }

  /** Splitting gives exactly two pieces when the separator occurs exactly
      once, and the pieces are what lies before and after it. */
  lemma SplitOnce(s: string, sep: char)
    ensures |Split(s, sep)| == 2 <==> exists i :: OnlyAt(s, sep, i)
    ensures forall i :: OnlyAt(s, sep, i) ==> Split(s, sep) == [s[..i], s[i + 1..]]
  {
    var f := Find(s, [sep]);
    forall i | OnlyAt(s, sep, i)
      ensures f == Some(i)
    {
      assert OccursAt(s, [sep], i);
    }
    if f.Some? {
      assert s[f.value..f.value + 1] == [sep];
      forall j | 0 <= j < f.value
        ensures s[j] != sep
      {
        assert !OccursAt(s, [sep], j);
        assert s[j..j + 1] == [s[j]];
      }
      assert sep !in s[..f.value];
      if |Split(s, sep)| == 2 {
        assert OnlyAt(s, sep, f.value);
      }
    }
  }

  /** The first two pieces of `str::split` on a string pattern, as the banter
      compiler indexes them (`z[0]`, `z[1]`); requires the pattern to occur. */
  function SplitTwo(s: string, pat: string): (r: (string, string))
    requires |pat| > 0 && Contains(s, pat)
    ensures |r.0| <= |s| && r.0 == s[..|r.0|] && OccursAt(s, pat, |r.0|)
    ensures forall j :: 0 <= j < |r.0| ==> !OccursAt(s, pat, j)
    ensures var b := |r.0| + |pat|;
      b + |r.1| <= |s| && r.1 == s[b..b + |r.1|]
      && (b + |r.1| == |s| || OccursAt(s, pat, b + |r.1|))
      && forall j :: b <= j < b + |r.1| ==> !OccursAt(s, pat, j)
  {
    var i := Find(s, pat).value;
    var rest := s[i + |pat|..];
    var j := Find(rest, pat);
    var second := if j.Some? then rest[..j.value] else rest;
    forall x | i + |pat| <= x <= |s| && OccursAt(s, pat, x)
      ensures OccursAt(rest, pat, x - i - |pat|)
    {
      assert rest[x - i - |pat|..x - i] == s[x..x + |pat|];
    }
    (s[..i], second)
  }

  /** `str::lines`: split on '\n'; a piece that was ended by '\n' loses one
      trailing '\r'; the final piece is kept only when it is not empty. */
  function Lines(s: string): (r: seq<string>)
    ensures |r| == |Split(s, '\n')| || |r| == |Split(s, '\n')| - 1
  {
    var pieces := Split(s, '\n');
    var last := pieces[|pieces| - 1];
    var ended := seq(|pieces| - 1, i requires 0 <= i < |pieces| - 1 =>
      if |pieces[i]| > 0 && pieces[i][|pieces[i]| - 1] == '\r' then pieces[i][..|pieces[i]| - 1] else pieces[i]);
    if last == [] then ended else ended + [last]
  }

  function LowerAscii(c: char): (r: char)
    ensures 'A' <= c <= 'Z' ==> 'a' <= r <= 'z'
    ensures !('A' <= c <= 'Z') ==> r == c
  {
    if 'A' <= c <= 'Z' then (c as int + 32) as char else c
  }

  /** `str::to_lowercase`, restricted to ASCII letters. */
  function ToLower(s: string): (r: string)
    ensures |r| == |s|
    ensures forall i :: 0 <= i < |s| ==> r[i] == LowerAscii(s[i])
  {
    seq(|s|, i requires 0 <= i < |s| => LowerAscii(s[i]))
  }

  /** `str::replace` of one character by another. */
  function ReplaceChar(s: string, from: char, to: char): (r: string)
    ensures |r| == |s|
    ensures forall i :: 0 <= i < |s| ==> r[i] == (if s[i] == from then to else s[i])
  {
    seq(|s|, i requires 0 <= i < |s| => if s[i] == from then to else s[i])
  }
}
