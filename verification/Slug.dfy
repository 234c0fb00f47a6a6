/** The slug of a community name: a pipeline of string replacements, and the single scan it amounts to. */
module Slug {
  import opened Common

  const MAX_SLUG := 80

  predicate IsAlphanumeric(c: char) {
    'a' <= c <= 'z' || '0' <= c <= '9'
  }

  /** What `\s` matches and `trim` removes: the white space and line terminators of ECMAScript. */
  predicate IsSpace(c: char) {
    var u := c as int;
    9 <= u <= 13 || u in {32, 0xA0, 0x1680, 0x2028, 0x2029, 0x202F, 0x205F, 0x3000, 0xFEFF} || 0x2000 <= u <= 0x200A
  }

  predicate IsHyphen(c: char) {
    c == '-'
  }

  /** What `[^a-z0-9\s-]` leaves alone. */
  predicate IsKept(c: char) {
    IsAlphanumeric(c) || IsSpace(c) || IsHyphen(c)
  }

  function TrimStart(s: string): string {
    if s != "" && IsSpace(s[0]) then TrimStart(s[1..]) else s
  }

  function TrimEnd(s: string): string {
    if s != "" && IsSpace(s[|s| - 1]) then TrimEnd(s[..|s| - 1]) else s
  }

  function Trim(s: string): string {
    TrimEnd(TrimStart(s))
  }

  ghost predicate AllSpaces(s: string) {
    forall i :: 0 <= i < |s| ==> IsSpace(s[i])
  }

  ghost predicate IsTrimmed(s: string) {
    s == "" || (!IsSpace(s[0]) && !IsSpace(s[|s| - 1]))
  }

  /** Trimming takes white space off both ends, all of it, and nothing else. */
  lemma {:induction false} TrimIsMiddle(s: string) returns (before: string, after: string)
    ensures s == before + Trim(s) + after && AllSpaces(before) && AllSpaces(after) && IsTrimmed(Trim(s))
    decreases |s|
  {
    if s != "" && IsSpace(s[0]) {
      before, after := TrimIsMiddle(s[1..]);
      before := [s[0]] + before;
    } else if s != "" && IsSpace(s[|s| - 1]) {
      assert TrimStart(s[..|s| - 1]) == s[..|s| - 1];
      before, after := TrimIsMiddle(s[..|s| - 1]);
      after := after + [s[|s| - 1]];
    } else {
      before, after := "", "";
    }
  }

  /** Replace every maximal run of characters satisfying `p` by one hyphen; `inRun` when a run is already open. */
  function ReplaceRuns(s: string, p: char -> bool, inRun: bool): string {
    if s == "" then ""
    else if p(s[0]) then (if inRun then "" else "-") + ReplaceRuns(s[1..], p, true)
    else [s[0]] + ReplaceRuns(s[1..], p, false)
  }

  function Slice(s: string): string {
    s[..Min(|s|, MAX_SLUG)]
  }

  /** `lower` stands for toLowerCase. */
  function Slugify(name: string, lower: string -> string): string {
    var trimmed := Trim(lower(name));
    var stripped := Filter(trimmed, IsKept);
    Slice(ReplaceRuns(ReplaceRuns(stripped, IsSpace, false), IsHyphen, false))
  }

  // ---- One scan ------------------------------------------------------------------------------------------

  /** Copy letters and digits, write one hyphen for each group of separators between them, drop the rest. */
  function Scan(s: string, inRun: bool): string {
    if s == "" then ""
    else if IsAlphanumeric(s[0]) then [s[0]] + Scan(s[1..], false)
    else if IsSpace(s[0]) || IsHyphen(s[0]) then (if inRun then "" else "-") + Scan(s[1..], true)
    else Scan(s[1..], inRun)
  }

  /** A dropped character does not split a group of separators: the passes see only what was kept. */
  lemma {:induction false} PassesAreOneScan(s: string, inSpaces: bool, inHyphens: bool)
    requires inSpaces ==> inHyphens
    ensures ReplaceRuns(ReplaceRuns(Filter(s, IsKept), IsSpace, inSpaces), IsHyphen, inHyphens) == Scan(s, inHyphens)
  {
    if s != "" {
      var c, rest := s[0], Filter(s[1..], IsKept);
      if !IsKept(c) {
        assert Filter(s, IsKept) == rest;
        PassesAreOneScan(s[1..], inSpaces, inHyphens);
      } else {
        var kept := [c] + rest;
        assert Filter(s, IsKept) == kept;
        assert kept[0] == c && kept[1..] == rest;
        PassesAreOneScan(s[1..], IsSpace(c), !IsAlphanumeric(c));
        var spaced := ReplaceRuns(rest, IsSpace, IsSpace(c));
        var once := ReplaceRuns(kept, IsSpace, inSpaces);
        if IsSpace(c) && inSpaces {
          assert once == spaced;
        } else {
          assert once == [if IsSpace(c) then '-' else c] + spaced;
          assert once[1..] == spaced;
        }
      }
    }
  }

  lemma SlugifyIsOneScan(name: string, lower: string -> string)
    ensures Slugify(name, lower) == Slice(Scan(Trim(lower(name)), false))
  {
    PassesAreOneScan(Trim(lower(name)), false, false);
  }

  /** No letter or digit is lost, added or moved before the cut at 80 characters. */
  lemma {:induction false} ScanKeepsLetters(s: string, inRun: bool)
    ensures Filter(Scan(s, inRun), IsAlphanumeric) == Filter(s, IsAlphanumeric)
  {
    if s != "" {
      var c := s[0];
      if IsAlphanumeric(c) {
        ScanKeepsLetters(s[1..], false);
        FilterCons(c, Scan(s[1..], false), IsAlphanumeric);
      } else if IsSpace(c) || IsHyphen(c) {
        ScanKeepsLetters(s[1..], true);
        FilterCons('-', Scan(s[1..], true), IsAlphanumeric);
        assert Scan(s, inRun) == (if inRun then "" else ['-']) + Scan(s[1..], true);
        assert "" + Scan(s[1..], true) == Scan(s[1..], true);
        assert [] + Filter(Scan(s[1..], true), IsAlphanumeric) == Filter(Scan(s[1..], true), IsAlphanumeric);
      } else {
        ScanKeepsLetters(s[1..], inRun);
      }
    }
  }

  // ---- The canonical form --------------------------------------------------------------------------------

  /** Only a-z, 0-9 and '-', with no two hyphens in a row. */
  predicate Tidy(s: string) {
    && (forall i :: 0 <= i < |s| ==> 'a' <= s[i] <= 'z' || '0' <= s[i] <= '9' || s[i] == '-')
    && (forall i :: 0 <= i < |s| - 1 ==> !(s[i] == '-' && s[i + 1] == '-'))
  }

  predicate Canonical(s: string) {
    Tidy(s) && |s| <= 80
  }

  lemma {:induction false} ScanIsTidy(s: string, inRun: bool)
    ensures Tidy(Scan(s, inRun))
    ensures inRun && Scan(s, inRun) != "" ==> !IsHyphen(Scan(s, inRun)[0])
  {
    if s != "" {
      if IsAlphanumeric(s[0]) {
        ScanIsTidy(s[1..], false);
      } else if IsSpace(s[0]) || IsHyphen(s[0]) {
        ScanIsTidy(s[1..], true);
      } else {
        ScanIsTidy(s[1..], inRun);
      }
    }
  }

  lemma {:induction false} ScanFixesTidy(s: string, inRun: bool)
    requires Tidy(s) && (inRun && s != "" ==> !IsHyphen(s[0]))
    ensures Scan(s, inRun) == s
  {
    if s != "" {
      var rest := s[1..];
      forall i | 0 <= i < |rest|
        ensures IsAlphanumeric(rest[i]) || IsHyphen(rest[i])
      {
        assert rest[i] == s[i + 1];
      }
      forall i | 0 <= i < |rest| - 1
        ensures !(IsHyphen(rest[i]) && IsHyphen(rest[i + 1]))
      {
        assert rest[i] == s[i + 1] && rest[i + 1] == s[i + 1 + 1];
      }
      assert |s| > 1 ==> !(IsHyphen(s[0]) && IsHyphen(s[0 + 1]));
      ScanFixesTidy(rest, IsHyphen(s[0]));
      assert s == [s[0]] + rest;
    }
  }

  /** toLowerCase changes no string made of slug characters. */
  ghost predicate LowerFixesSlugs(lower: string -> string) {
    forall s :: Tidy(s) ==> lower(s) == s
  }

  /** Whatever the name, the slug is in canonical form. */
  lemma SlugIsCanonical(name: string, lower: string -> string)
    ensures Canonical(Slugify(name, lower))
  {
    SlugifyIsOneScan(name, lower);
    ScanIsTidy(Trim(lower(name)), false);
  }

  /** The canonical strings are exactly the ones the pipeline leaves alone. */
  lemma FixedIffCanonical(s: string, lower: string -> string)
    requires LowerFixesSlugs(lower)
    ensures Slugify(s, lower) == s <==> Canonical(s)
  {
    SlugIsCanonical(s, lower);
    if Canonical(s) {
      SlugifyIsOneScan(s, lower);
      assert Trim(s) == s;
      ScanFixesTidy(s, false);
    }
  }

  lemma Idempotent(name: string, lower: string -> string)
    requires LowerFixesSlugs(lower)
    ensures Slugify(Slugify(name, lower), lower) == Slugify(name, lower)
  {
    SlugIsCanonical(name, lower);
    FixedIffCanonical(Slugify(name, lower), lower);
  }

  // ---- What separates words ------------------------------------------------------------------------------

  /** White space, line ends, and the hyphen itself. */
  const SEPARATORS := {'-', '\t', '\n', '\U{B}', '\U{C}', '\r', ' ', '\U{A0}', '\U{1680}', '\U{2000}', '\U{2001}', '\U{2002}', '\U{2003}', '\U{2004}',
                       '\U{2005}', '\U{2006}', '\U{2007}', '\U{2008}', '\U{2009}', '\U{200A}', '\U{2028}', '\U{2029}', '\U{202F}', '\U{205F}', '\U{3000}', '\U{FEFF}'}

  predicate IsWord(s: string) {
    s != "" && forall i :: 0 <= i < |s| ==> 'a' <= s[i] <= 'z' || '0' <= s[i] <= '9'
  }

  lemma {:induction false} ScanWord(w: string, rest: string, inRun: bool)
    requires IsWord(w)
    ensures Scan(w + rest, inRun) == w + Scan(rest, false)
  {
    assert (w + rest)[0] == w[0] && (w + rest)[1..] == w[1..] + rest;
    if |w| == 1 {
      assert w[1..] + rest == rest;
    } else {
      ScanWord(w[1..], rest, false);
      assert [w[0]] + (w[1..] + Scan(rest, false)) == w + Scan(rest, false);
    }
  }

  lemma IsSeparatorIff(c: char)
    ensures IsSpace(c) || IsHyphen(c) <==> c in SEPARATORS
  {
  }

  lemma ScanTwoWords(w: string, c: char, v: string)
    requires IsWord(w) && IsWord(v) && !IsAlphanumeric(c)
    ensures Scan(w + ([c] + v), false) == w + ((if c in SEPARATORS then "-" else "") + v)
  {
    var rest := [c] + v;
    assert rest[0] == c && rest[1..] == v;
    assert v + "" == v;
    IsSeparatorIff(c);
    ScanWord(w, rest, false);
    ScanWord(v, "", false);
    ScanWord(v, "", true);
    assert "" + v == v;
  }

  lemma WordsAreTrimmed(w: string, c: char, v: string)
    requires IsWord(w) && IsWord(v)
    ensures Trim(w + [c] + v) == w + [c] + v
  {
    var s := w + [c] + v;
    assert s[0] == w[0] && s[|s| - 1] == v[|v| - 1];
  }

  /** Two words are joined by one hyphen where a separator stands between them; any other sign just disappears. */
  lemma WordsAreJoined(w: string, c: char, v: string, lower: string -> string)
    requires IsWord(w) && IsWord(v) && lower(w + [c] + v) == w + [c] + v
    requires !('a' <= c <= 'z' || '0' <= c <= '9')
    ensures var joined := w + ((if c in SEPARATORS then "-" else "") + v);
            Slugify(w + [c] + v, lower) == joined[..if |joined| < 80 then |joined| else 80]
  {
    SlugifyIsOneScan(w + [c] + v, lower);
    WordsAreTrimmed(w, c, v);
    assert w + [c] + v == w + ([c] + v);
    ScanTwoWords(w, c, v);
  }

  // ---- The suffix on a collision -------------------------------------------------------------------------

  function Suffixed(slug: string, stamp: string): string {
    slug + "-" + stamp
  }

  /** The suffixed slug doubles a hyphen exactly when the slug already ended in one. */
  lemma SuffixedTidyIff(slug: string, stamp: string)
    requires Tidy(slug) && stamp != "" && forall i :: 0 <= i < |stamp| ==> IsAlphanumeric(stamp[i])
    ensures Tidy(Suffixed(slug, stamp)) <==> slug == "" || !IsHyphen(slug[|slug| - 1])
  {
    var s := Suffixed(slug, stamp);
    if slug != "" && IsHyphen(slug[|slug| - 1]) {
      var i := |slug| - 1;
      assert IsHyphen(s[i]) && IsHyphen(s[i + 1]);
    } else {
      forall i | 0 <= i < |s| - 1
        ensures !(IsHyphen(s[i]) && IsHyphen(s[i + 1]))
      {
        if i < |slug| - 1 {
          assert s[i] == slug[i] && s[i + 1] == slug[i + 1];
        }
      }
    }
  }
}
