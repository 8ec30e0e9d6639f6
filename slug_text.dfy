/** `django.utils.text.slugify` with `allow_unicode=False`, which the upload
    uses to read status cells: compatibility decomposition with the
    non-ASCII remainder dropped, lowercasing, removal of everything but word
    characters, whitespace and hyphens, collapsing of hyphen/space runs into
    one hyphen, and stripping of hyphens and underscores at both ends. */
module SlugText {
  import opened Common

  predicate IsAscii(c: char) { c < '\U{80}' }

  /** NFKD of one character followed by `encode("ascii", "ignore")`. Written
      out for the Latin-1 block: an accented letter keeps its base letter,
      the spacing accents and the no-break space become a space, the
      ordinal indicators and superscript digits become their letter or digit
      and the vulgar fractions their two digits. Every other non-ASCII
      character is dropped. */
  function AsciiFold(c: char): (r: string)
    ensures IsAscii(c) ==> r == [c]
    ensures forall i :: 0 <= i < |r| ==> IsAscii(r[i])
  {
    if IsAscii(c) then [c]
    else if '\U{C0}' <= c <= '\U{C5}' then "A"
    else if c == '\U{C7}' then "C"
    else if '\U{C8}' <= c <= '\U{CB}' then "E"
    else if '\U{CC}' <= c <= '\U{CF}' then "I"
    else if c == '\U{D1}' then "N"
    else if '\U{D2}' <= c <= '\U{D6}' then "O"
    else if '\U{D9}' <= c <= '\U{DC}' then "U"
    else if c == '\U{DD}' then "Y"
    else if '\U{E0}' <= c <= '\U{E5}' then "a"
    else if c == '\U{E7}' then "c"
    else if '\U{E8}' <= c <= '\U{EB}' then "e"
    else if '\U{EC}' <= c <= '\U{EF}' then "i"
    else if c == '\U{F1}' then "n"
    else if '\U{F2}' <= c <= '\U{F6}' then "o"
    else if '\U{F9}' <= c <= '\U{FC}' then "u"
    else if c == '\U{FD}' || c == '\U{FF}' then "y"
    else if c == '\U{A0}' || c == '\U{A8}' || c == '\U{AF}' || c == '\U{B4}' || c == '\U{B8}' then " "
    else if c == '\U{AA}' then "a"
    else if c == '\U{BA}' then "o"
    else if c == '\U{B9}' then "1"
    else if c == '\U{B2}' then "2"
    else if c == '\U{B3}' then "3"
    else if c == '\U{BC}' then "14"
    else if c == '\U{BD}' then "12"
    else if c == '\U{BE}' then "34"
    else ""
  }

  function AsciiFoldAll(s: string): (r: string)
    ensures forall i :: 0 <= i < |r| ==> IsAscii(r[i])
    ensures (forall i :: 0 <= i < |s| ==> IsAscii(s[i])) ==> r == s
  {
    if s == [] then []
    else
      var h := AsciiFold(s[0]);
      var t := AsciiFoldAll(s[1..]);
      assert forall i :: 0 <= i < |h + t| ==> (h + t)[i] == if i < |h| then h[i] else t[i - |h|];
      assert (forall i :: 0 <= i < |s| ==> IsAscii(s[i])) ==> h == [s[0]] && s == [s[0]] + s[1..];
      h + t
  }

  /** What `[^\w\s-]` does not match on ASCII text. */
  predicate IsWordOrSeparator(c: char) {
    IsLetter(c) || IsDigit(c) || c == '_' || IsSpace(c) || c == '-'
  }

  /** Lowercase ASCII text that `[^\w\s-]` leaves alone. */
  ghost predicate SlugReady(s: string) {
    forall i :: 0 <= i < |s| ==> IsWordOrSeparator(s[i]) && !IsUpper(s[i])
  }

  /** The characters a slug is made of. */
  predicate IsSlugChar(c: char) { IsLower(c) || IsDigit(c) || c == '_' || c == '-' }

  ghost predicate AllSlugChars(s: string) {
    forall i :: 0 <= i < |s| ==> IsSlugChar(s[i])
  }

  ghost predicate NoDoubleHyphen(s: string) {
    forall i :: 0 <= i < |s| - 1 ==> !(s[i] == '-' && s[i + 1] == '-')
  }

  /** `re.sub(r"[^\w\s-]", "", s)` on ASCII text. */
  function RemoveSymbols(s: string): (r: string)
    ensures forall i :: 0 <= i < |r| ==> IsWordOrSeparator(r[i])
    ensures (forall i :: 0 <= i < |s| ==> !IsUpper(s[i])) ==> SlugReady(r)
    ensures (forall i :: 0 <= i < |s| ==> IsWordOrSeparator(s[i])) ==> r == s
  {
    if s == [] then []
    else
      var h := if IsWordOrSeparator(s[0]) then [s[0]] else [];
      var t := RemoveSymbols(s[1..]);
      assert forall i :: 0 <= i < |h + t| ==> (h + t)[i] == if i < |h| then h[i] else t[i - |h|];
      assert s == [s[0]] + s[1..];
      h + t
  }

  predicate IsSeparator(c: char) { c == '-' || IsSpace(c) }

  /** Drops the leading run of hyphens and whitespace. */
  function DropSeparators(s: string): (r: string)
    ensures |r| <= |s| && r == s[|s| - |r|..]
    ensures r == [] || !IsSeparator(r[0])
  {
    if s != [] && IsSeparator(s[0]) then DropSeparators(s[1..]) else s
  }

  /** `re.sub(r"[-\s]+", "-", s)`: each maximal run of hyphens and
      whitespace becomes one hyphen. */
  function CollapseSeparators(s: string): (r: string)
    ensures s != [] && !IsSeparator(s[0]) ==> r != [] && r[0] == s[0]
    ensures s != [] && IsSeparator(s[0]) ==> r != [] && r[0] == '-'
    ensures (forall i :: 0 <= i < |s| ==> !IsSeparator(s[i])) ==> r == s
    decreases |s|
  {
    if s == [] then []
    else if IsSeparator(s[0]) then "-" + CollapseSeparators(DropSeparators(s[1..]))
    else
      assert s == [s[0]] + s[1..];
      [s[0]] + CollapseSeparators(s[1..])
  }

  /** After collapsing, slug-ready text is made of slug characters only. */
  lemma {:induction false} CollapseGivesSlugChars(s: string)
    requires SlugReady(s)
    ensures AllSlugChars(CollapseSeparators(s))
    decreases |s|
  {
    if s != [] {
      if IsSeparator(s[0]) {
        var d := DropSeparators(s[1..]);
        SlugReadySuffix(s, |s| - |d|);
        CollapseGivesSlugChars(d);
        ConsSlugChars('-', CollapseSeparators(d));
      } else {
        SlugReadySuffix(s, 1);
        CollapseGivesSlugChars(s[1..]);
        ConsSlugChars(s[0], CollapseSeparators(s[1..]));
      }
    }
  }

  lemma SlugReadySuffix(s: string, k: nat)
    requires SlugReady(s) && k <= |s|
    ensures SlugReady(s[k..])
  {
    forall i | 0 <= i < |s[k..]| ensures IsWordOrSeparator(s[k..][i]) && !IsUpper(s[k..][i]) {
      assert s[k..][i] == s[k + i];
    }
  }

  lemma ConsSlugChars(c: char, t: string)
    requires IsSlugChar(c) && AllSlugChars(t)
    ensures AllSlugChars([c] + t)
  {
    assert forall i :: 0 < i < |[c] + t| ==> ([c] + t)[i] == t[i - 1];
  }

  /** Collapsing never leaves two hyphens side by side. */
  lemma {:induction false} CollapseHasNoDoubleHyphen(s: string)
    ensures NoDoubleHyphen(CollapseSeparators(s))
    decreases |s|
  {
    if s != [] {
      var rest := if IsSeparator(s[0]) then DropSeparators(s[1..]) else s[1..];
      CollapseHasNoDoubleHyphen(rest);
      var t := CollapseSeparators(rest);
      var r := CollapseSeparators(s);
      assert r == [r[0]] + t;
      assert t != [] && r[0] == '-' ==> t[0] != '-';
      forall i | 0 <= i < |r| - 1 ensures !(r[i] == '-' && r[i + 1] == '-') {
        if i > 0 { assert r[i] == t[i - 1] && r[i + 1] == t[i]; }
      }
    }
  }

  predicate IsDashOrUnderscore(c: char) { c == '-' || c == '_' }

  function StripDashesStart(s: string): (r: string)
    ensures |r| <= |s| && r == s[|s| - |r|..]
    ensures r == [] || !IsDashOrUnderscore(r[0])
  {
    if s != [] && IsDashOrUnderscore(s[0]) then StripDashesStart(s[1..]) else s
  }

  function StripDashesEnd(s: string): (r: string)
    ensures |r| <= |s| && r == s[..|r|]
    ensures r == [] || !IsDashOrUnderscore(r[|r| - 1])
  {
    if s != [] && IsDashOrUnderscore(s[|s| - 1]) then StripDashesEnd(s[..|s| - 1]) else s
  }

  /** `s.strip("-_")`: the result is a slice of `s`. */
  function StripDashes(s: string): (r: string)
    ensures r == [] || (!IsDashOrUnderscore(r[0]) && !IsDashOrUnderscore(r[|r| - 1]))
    ensures |r| <= |StripDashesStart(s)| && r == StripDashesStart(s)[..|r|]
  {
    var t := StripDashesStart(s);
    var r := StripDashesEnd(t);
    assert r != [] ==> r[0] == t[0];
    r
  }

  lemma SliceKeepsSlug(s: string, a: nat, b: nat)
    requires a <= b <= |s|
    requires AllSlugChars(s) && NoDoubleHyphen(s)
    ensures AllSlugChars(s[a..b]) && NoDoubleHyphen(s[a..b])
  {
    var t := s[a..b];
    assert forall i :: 0 <= i < |t| ==> t[i] == s[a + i];
  }

  lemma StripDashesKeepsSlug(s: string)
    requires AllSlugChars(s) && NoDoubleHyphen(s)
    ensures AllSlugChars(StripDashes(s)) && NoDoubleHyphen(StripDashes(s))
  {
    var t := StripDashesStart(s);
    SliceKeepsSlug(s, |s| - |t|, |s|);
    SliceKeepsSlug(t, 0, |StripDashes(s)|);
  }

  /** `slugify(s)`. */
  function Slugify(s: string): (r: string)
    ensures AllSlugChars(r) && NoDoubleHyphen(r)
    ensures r == [] || (!IsDashOrUnderscore(r[0]) && !IsDashOrUnderscore(r[|r| - 1]))
  {
    var a := Lower(AsciiFoldAll(s));
    var b := RemoveSymbols(a);
    assert SlugReady(b);
    var c := CollapseSeparators(b);
    CollapseGivesSlugChars(b);
    CollapseHasNoDoubleHyphen(b);
    StripDashesKeepsSlug(c);
    StripDashes(c)
  }

  /** `s.replace("-", "")`. */
  function RemoveHyphens(s: string): (r: string)
    ensures '-' !in r
    ensures '-' !in s ==> r == s
  {
    if s == [] then []
    else (if s[0] == '-' then [] else [s[0]]) + RemoveHyphens(s[1..])
  }

  lemma {:induction false} RemoveHyphensKeepsSlugChars(s: string)
    requires AllSlugChars(s)
    ensures AllSlugChars(RemoveHyphens(s))
  {
    if s != [] {
      assert AllSlugChars(s[1..]) by {
        forall i | 0 <= i < |s[1..]| ensures IsSlugChar(s[1..][i]) { assert s[1..][i] == s[i + 1]; }
      }
      RemoveHyphensKeepsSlugChars(s[1..]);
      var h := if s[0] == '-' then [] else [s[0]];
      var t := RemoveHyphens(s[1..]);
      assert forall i :: 0 <= i < |h + t| ==> (h + t)[i] == if i < |h| then h[i] else t[i - |h|];
    }
  }

  /** `slugify(raw).replace("-", "").lower()`: the key a status cell is
      looked up under. */
  function StatusKey(raw: string): (k: string)
    ensures '-' !in k
    ensures forall i :: 0 <= i < |k| ==> IsLower(k[i]) || IsDigit(k[i]) || k[i] == '_'
  {
    var r := RemoveHyphens(Slugify(raw));
    RemoveHyphensKeepsSlugChars(Slugify(raw));
    LowerOfKeyChars(r);
    Lower(r)
  }

  /** Slug characters other than '-' are left alone by lowercasing. */
  lemma LowerOfKeyChars(r: string)
    requires AllSlugChars(r) && '-' !in r
    ensures '-' !in Lower(r)
    ensures forall i :: 0 <= i < |Lower(r)| ==> IsLower(Lower(r)[i]) || IsDigit(Lower(r)[i]) || Lower(r)[i] == '_'
  {
    var l := Lower(r);
    forall i | 0 <= i < |l| ensures IsLower(l[i]) || IsDigit(l[i]) || l[i] == '_' {
      assert IsSlugChar(r[i]) && r[i] != '-';
      assert l[i] == r[i];
    }
    assert forall i :: 0 <= i < |l| ==> l[i] != '-';
  }

  // ---------------------------------------------------------------------
  // Properties of the status key

  lemma LowerConcat(a: string, b: string)
    ensures Lower(a + b) == Lower(a) + Lower(b)
  {
  }

  /** Lowercasing before or after folding gives the same ASCII text. */
  lemma {:induction false} FoldLowerCommutes(s: string)
    ensures Lower(AsciiFoldAll(Lower(s))) == Lower(AsciiFoldAll(s))
  {
    if s != [] {
      var c := s[0];
      assert Lower(s) == [LowerChar(c)] + Lower(s[1..]);
      assert Lower(s)[1..] == Lower(s[1..]);
      FoldLowerCommutes(s[1..]);
      LowerConcat(AsciiFold(LowerChar(c)), AsciiFoldAll(Lower(s[1..])));
      LowerConcat(AsciiFold(c), AsciiFoldAll(s[1..]));
      if IsUpper(c) {
        assert Lower(AsciiFold(LowerChar(c))) == Lower(AsciiFold(c));
      }
    }
  }

  /** A status cell is read without regard to (ASCII) case. */
  lemma StatusKeyIgnoresCase(s: string)
    ensures StatusKey(Lower(s)) == StatusKey(s)
  {
    FoldLowerCommutes(s);
  }

  lemma LowerWordKinds(a: string)
    requires forall i :: 0 <= i < |a| ==> IsLower(a[i])
    ensures forall i :: 0 <= i < |a| ==> IsWordOrSeparator(a[i]) && !IsSeparator(a[i])
  {
  }

  lemma KeepsWordChars(a: string)
    requires forall i :: 0 <= i < |a| ==> IsWordOrSeparator(a[i])
    ensures RemoveSymbols(a) == a
  {
  }

  lemma KeepsUnseparated(a: string)
    requires forall i :: 0 <= i < |a| ==> !IsSeparator(a[i])
    ensures CollapseSeparators(a) == a
  {
  }

  /** Text that neither starts nor ends with '-' or '_' is not stripped. */
  lemma StripKeepsUndashed(a: string)
    requires a == [] || (!IsDashOrUnderscore(a[0]) && !IsDashOrUnderscore(a[|a| - 1]))
    ensures StripDashes(a) == a
  {
    assert StripDashesStart(a) == a;
    assert StripDashesEnd(a) == a;
  }

  /** Lowercase letters pass the three rewriting steps unchanged. */
  lemma RewritesKeepLowerWord(a: string)
    requires forall i :: 0 <= i < |a| ==> IsLower(a[i])
    ensures StripDashes(CollapseSeparators(RemoveSymbols(a))) == a
  {
    LowerWordKinds(a);
    KeepsWordChars(a);
    KeepsUnseparated(a);
    LowerWordUndashed(a);
    StripKeepsUndashed(a);
  }

  lemma LowerWordUndashed(a: string)
    requires forall i :: 0 <= i < |a| ==> IsLower(a[i])
    ensures a == [] || (!IsDashOrUnderscore(a[0]) && !IsDashOrUnderscore(a[|a| - 1]))
  {
    if a != [] {
      assert IsLower(a[0]) && IsLower(a[|a| - 1]);
    }
  }

  lemma SlugifyOfWord(s: string)
    requires forall i :: 0 <= i < |s| ==> IsLetter(s[i])
    ensures Slugify(s) == Lower(s)
  {
    FoldKeepsLetters(s);
    LowerOfLetters(s);
    RewritesKeepLowerWord(Lower(s));
  }

  lemma FoldKeepsLetters(s: string)
    requires forall i :: 0 <= i < |s| ==> IsLetter(s[i])
    ensures AsciiFoldAll(s) == s
  {
    assert forall i :: 0 <= i < |s| ==> IsAscii(s[i]);
  }

  /** Lowercasing a word of letters gives lowercase letters. */
  lemma LowerOfLetters(s: string)
    requires forall i :: 0 <= i < |s| ==> IsLetter(s[i])
    ensures forall i :: 0 <= i < |Lower(s)| ==> IsLower(Lower(s)[i])
    ensures '-' !in Lower(s)
  {
  }

  /** A cell that is one plain word of letters is looked up as that word
      lowercased. */
  lemma StatusKeyOfWord(s: string)
    requires forall i :: 0 <= i < |s| ==> IsLetter(s[i])
    ensures StatusKey(s) == Lower(s)
  {
    SlugifyOfWord(s);
    LowerOfLetters(s);
    assert RemoveHyphens(Lower(s)) == Lower(s);
    LowerIdempotent(s);
  }
}
