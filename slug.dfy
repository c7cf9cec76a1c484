/** `sanitize_filename` of main.py: a league name becomes a page file name in two
    regular-expression passes. The first pass deletes every character outside `[a-zA-Z0-9\s-]`,
    the result is stripped of edge whitespace and lower-cased, and the second pass replaces each
    run of whitespace and hyphens by a single hyphen. */
module Slug {
  import opened Text

  /** The characters the first pass keeps: the complement of `[^a-zA-Z0-9\s-]`. */
  predicate IsKept(c: char) { IsAsciiAlnum(c) || IsSpace(c) || c == '-' }

  /** The characters matched by `[\s-]` in the second pass. */
  predicate IsSeparator(c: char) { IsSpace(c) || c == '-' }

  /** The alphabet of a slug. */
  predicate IsSlugChar(c: char) { IsAsciiLower(c) || IsDigit(c) || c == '-' }

  predicate NoDoubleHyphen(s: string) {
    forall i :: 0 <= i < |s| - 1 ==> !(s[i] == '-' && s[i + 1] == '-')
  }

  /** `re.sub(r'[^a-zA-Z0-9\s-]', '', s)`. */
  function RemoveDisallowed(s: string): (r: string)
    ensures |r| <= |s|
    ensures forall i :: 0 <= i < |r| ==> IsKept(r[i])
  {
    if s == [] then []
    else if IsKept(s[0]) then [s[0]] + RemoveDisallowed(s[1..])
    else RemoveDisallowed(s[1..])
  }

  function LowerChar(c: char): (d: char)
    ensures !IsAsciiUpper(d)
    ensures IsAsciiUpper(c) ==> IsAsciiLower(d)
    ensures !IsAsciiUpper(c) ==> d == c
  {
    if IsAsciiUpper(c) then (c as int - 'A' as int + 'a' as int) as char else c
  }

  /** `str.lower()` on the characters that can reach it here: ASCII letters, digits, whitespace
      and hyphens. Only the upper-case letters change. */
  function LowerAscii(s: string): (r: string)
    ensures |r| == |s|
    ensures forall i :: 0 <= i < |s| ==> r[i] == LowerChar(s[i])
  {
    if s == [] then [] else [LowerChar(s[0])] + LowerAscii(s[1..])
  }

  /** Drops the run of separators at the front of `s`. */
  function SkipSeparators(s: string): (r: string)
    ensures |r| <= |s| && r == s[|s| - |r|..]
    ensures r == [] || !IsSeparator(r[0])
    ensures forall k :: 0 <= k < |s| - |r| ==> IsSeparator(s[k])
  {
    if s != [] && IsSeparator(s[0]) then SkipSeparators(s[1..]) else s
  }

  /** `re.sub(r'[\s-]+', '-', s)`: every maximal run of separators becomes one hyphen; every
      other character is kept. The result starts with a hyphen exactly when `s` starts with a
      separator, and never holds two hyphens in a row. */
  function CollapseSeparators(s: string): (r: string)
    ensures r == [] <==> s == []
    ensures forall c :: c in r ==> c == '-' || (c in s && !IsSeparator(c))
    ensures s != [] ==> (r[0] == '-' <==> IsSeparator(s[0]))
    ensures NoDoubleHyphen(r)
    decreases |s|
  {
    if s == [] then []
    else if IsSeparator(s[0]) then
      "-" + CollapseSeparators(SkipSeparators(s))
    else
      [s[0]] + CollapseSeparators(s[1..])
  }

  /** The whole of `sanitize_filename`: the slug holds only `a-z`, `0-9` and `-`, and never two
      hyphens in a row. */
  function SanitizeFilename(name: string): (slug: string)
    ensures forall i :: 0 <= i < |slug| ==> IsSlugChar(slug[i])
    ensures NoDoubleHyphen(slug)
  {
    var stripped := Strip(RemoveDisallowed(name));
    assert forall i :: 0 <= i < |stripped| ==> IsKept(stripped[i]);
    var cleaned := LowerAscii(stripped);
    assert forall i :: 0 <= i < |cleaned| ==> IsKept(cleaned[i]) && !IsAsciiUpper(cleaned[i]);
    var slug := CollapseSeparators(cleaned);
    assert forall c :: c in slug ==> IsSlugChar(c);
    slug
  }

  /** The ASCII letters and digits of `s`, in order. */
  function AsciiAlnums(s: string): (r: string)
    ensures forall i :: 0 <= i < |r| ==> IsAsciiAlnum(r[i])
  {
    if s == [] then []
    else if IsAsciiAlnum(s[0]) then [s[0]] + AsciiAlnums(s[1..])
    else AsciiAlnums(s[1..])
  }

  lemma {:induction false} AsciiAlnumsConcat(a: string, b: string)
    ensures AsciiAlnums(a + b) == AsciiAlnums(a) + AsciiAlnums(b)
  {
    if a == [] {
      assert a + b == b;
    } else {
      assert (a + b)[0] == a[0];
      assert (a + b)[1..] == a[1..] + b;
      AsciiAlnumsConcat(a[1..], b);
    }
  }

  lemma {:induction false} AsciiAlnumsNone(s: string)
    requires forall i :: 0 <= i < |s| ==> !IsAsciiAlnum(s[i])
    ensures AsciiAlnums(s) == []
  {
    if s != [] {
      AsciiAlnumsNone(s[1..]);
    }
  }

  /** Splitting `s` around its slice `s[i..j]`, when the characters outside it are not letters or
      digits, keeps the letters and digits. */
  lemma AsciiAlnumsOfSlice(s: string, i: nat, j: nat)
    requires i <= j <= |s|
    requires forall k :: 0 <= k < i ==> !IsAsciiAlnum(s[k])
    requires forall k :: j <= k < |s| ==> !IsAsciiAlnum(s[k])
    ensures AsciiAlnums(s[i..j]) == AsciiAlnums(s)
  {
    var front, middle, back := s[..i], s[i..j], s[j..];
    assert forall k :: 0 <= k < |front| ==> !IsAsciiAlnum(front[k]);
    assert forall k :: 0 <= k < |back| ==> !IsAsciiAlnum(back[k]) by {
      forall k | 0 <= k < |back| ensures !IsAsciiAlnum(back[k]) {
        assert back[k] == s[j + k];
      }
    }
    ThreeSlices(s, i, j);
    AsciiAlnumsAround(front, middle, back);
  }

  /** Text without letters or digits on either side adds none. */
  lemma AsciiAlnumsAround(front: string, middle: string, back: string)
    requires forall k :: 0 <= k < |front| ==> !IsAsciiAlnum(front[k])
    requires forall k :: 0 <= k < |back| ==> !IsAsciiAlnum(back[k])
    ensures AsciiAlnums(front + middle + back) == AsciiAlnums(middle)
  {
    AsciiAlnumsNone(front);
    AsciiAlnumsNone(back);
    AsciiAlnumsConcat(front + middle, back);
    AsciiAlnumsConcat(front, middle);
    assert [] + AsciiAlnums(middle) + [] == AsciiAlnums(middle);
  }

  lemma {:induction false} AsciiAlnumsRemoveDisallowed(s: string)
    ensures AsciiAlnums(RemoveDisallowed(s)) == AsciiAlnums(s)
  {
    if s != [] {
      AsciiAlnumsRemoveDisallowed(s[1..]);
    }
  }

  lemma {:induction false} AsciiAlnumsLower(s: string)
    ensures AsciiAlnums(LowerAscii(s)) == LowerAscii(AsciiAlnums(s))
  {
    if s != [] {
      assert LowerAscii(s)[1..] == LowerAscii(s[1..]);
      AsciiAlnumsLower(s[1..]);
    }
  }

  lemma SeparatorNotAlnum(c: char)
    ensures IsSeparator(c) ==> !IsAsciiAlnum(c)
  {
  }

  lemma AsciiAlnumsSkip(s: string)
    ensures AsciiAlnums(SkipSeparators(s)) == AsciiAlnums(s)
  {
    var rest := SkipSeparators(s);
    forall k | 0 <= k < |s| - |rest|
      ensures !IsAsciiAlnum(s[k])
    {
      SeparatorNotAlnum(s[k]);
    }
    AsciiAlnumsOfSlice(s, |s| - |rest|, |s|);
    assert s[|s| - |rest|..|s|] == rest;
  }

  lemma {:induction false} AsciiAlnumsCollapse(s: string)
    ensures AsciiAlnums(CollapseSeparators(s)) == AsciiAlnums(s)
    decreases |s|
  {
    if s != [] {
      if IsSeparator(s[0]) {
        var rest := SkipSeparators(s);
        var c := CollapseSeparators(rest);
        AsciiAlnumsCollapse(rest);
        AsciiAlnumsSkip(s);
        assert CollapseSeparators(s) == "-" + c;
        assert ("-" + c)[1..] == c;
        assert AsciiAlnums("-" + c) == AsciiAlnums(c);
      } else {
        var c := CollapseSeparators(s[1..]);
        AsciiAlnumsCollapse(s[1..]);
        assert CollapseSeparators(s) == [s[0]] + c;
        assert ([s[0]] + c)[1..] == c;
      }
    }
  }

  lemma AsciiAlnumsStrip(s: string)
    ensures AsciiAlnums(Strip(s)) == AsciiAlnums(s)
  {
    var r := Strip(s);
    var i := LeadingSpaces(s);
    forall k | 0 <= k < i || i + |r| <= k < |s|
      ensures !IsAsciiAlnum(s[k])
    {
      SeparatorNotAlnum(s[k]);
    }
    AsciiAlnumsOfSlice(s, i, i + |r|);
  }

  /** The letters and digits of the slug, in order, are the ASCII letters and digits of the
      league name, lower-cased: the slug loses no letter or digit and gains none. */
  lemma SlugKeepsLettersAndDigits(name: string)
    ensures AsciiAlnums(SanitizeFilename(name)) == LowerAscii(AsciiAlnums(name))
  {
    var kept := RemoveDisallowed(name);
    var stripped := Strip(kept);
    var cleaned := LowerAscii(stripped);
    assert SanitizeFilename(name) == CollapseSeparators(cleaned);
    AsciiAlnumsCollapse(cleaned);
    AsciiAlnumsLower(stripped);
    AsciiAlnumsStrip(kept);
    AsciiAlnumsRemoveDisallowed(name);
  }

  lemma {:induction false} RemoveDisallowedKeeps(s: string)
    requires forall i :: 0 <= i < |s| ==> IsKept(s[i])
    ensures RemoveDisallowed(s) == s
  {
    if s != [] {
      RemoveDisallowedKeeps(s[1..]);
    }
  }

  lemma {:induction false} CollapseKeeps(s: string)
    requires forall i :: 0 <= i < |s| ==> !IsSpace(s[i])
    requires NoDoubleHyphen(s)
    ensures CollapseSeparators(s) == s
  {
    if s != [] {
      CollapseKeeps(s[1..]);
      if s[0] == '-' {
        assert SkipSeparators(s[1..]) == s[1..];
      }
    }
  }

  /** `lower()` leaves a string without capitals alone. */
  lemma LowerAsciiKeeps(s: string)
    requires forall i :: 0 <= i < |s| ==> !IsAsciiUpper(s[i])
    ensures LowerAscii(s) == s
  {
  }

  /** The slug alphabet has no whitespace. */
  lemma SlugCharsNoSpace(slug: string)
    requires forall i :: 0 <= i < |slug| ==> IsSlugChar(slug[i])
    ensures forall i :: 0 <= i < |slug| ==> !IsSpace(slug[i])
  {
    forall i | 0 <= i < |slug| ensures !IsSpace(slug[i]) {
      assert IsSlugChar(slug[i]);
    }
  }

  /** The first three steps of the slug pipeline leave a string in slug form alone. */
  lemma SlugFormCleaned(slug: string)
    requires forall i :: 0 <= i < |slug| ==> IsSlugChar(slug[i])
    ensures LowerAscii(Strip(RemoveDisallowed(slug))) == slug
  {
    SlugCharsKept(slug);
    RemoveDisallowedKeeps(slug);
    SlugEndsNotSpace(slug);
    StripKeeps(slug);
    SlugCharsNotUpper(slug);
    LowerAsciiKeeps(slug);
  }

  lemma SlugCharsKept(slug: string)
    requires forall i :: 0 <= i < |slug| ==> IsSlugChar(slug[i])
    ensures forall i :: 0 <= i < |slug| ==> IsKept(slug[i])
  {
  }

  lemma SlugCharsNotUpper(slug: string)
    requires forall i :: 0 <= i < |slug| ==> IsSlugChar(slug[i])
    ensures forall i :: 0 <= i < |slug| ==> !IsAsciiUpper(slug[i])
  {
  }

  lemma SlugEndsNotSpace(slug: string)
    requires forall i :: 0 <= i < |slug| ==> IsSlugChar(slug[i])
    ensures slug == [] || (!IsSpace(slug[0]) && !IsSpace(slug[|slug| - 1]))
  {
    if slug != [] {
      assert IsSlugChar(slug[0]) && IsSlugChar(slug[|slug| - 1]);
    }
  }

  /** A string in slug form is its own slug. */
  lemma SlugIsFixed(slug: string)
    requires forall i :: 0 <= i < |slug| ==> IsSlugChar(slug[i])
    requires NoDoubleHyphen(slug)
    ensures SanitizeFilename(slug) == slug
  {
    SlugFormCleaned(slug);
    SlugCharsNoSpace(slug);
    CollapseKeeps(slug);
  }

  /** Sanitizing a slug again changes nothing. */
  lemma SanitizeIdempotent(name: string)
    ensures SanitizeFilename(SanitizeFilename(name)) == SanitizeFilename(name)
  {
    SlugIsFixed(SanitizeFilename(name));
  }

  /** A league name with no ASCII letter, digit or hyphen (a Hebrew name, say) has the empty
      slug, and only such a name has it. */
  lemma SlugEmptyIff(name: string)
    ensures SanitizeFilename(name) == [] <==>
      forall i :: 0 <= i < |name| ==> !IsAsciiAlnum(name[i]) && name[i] != '-'
  {
    var kept := RemoveDisallowed(name);
    var stripped := Strip(kept);
    if forall i :: 0 <= i < |name| ==> !IsAsciiAlnum(name[i]) && name[i] != '-' {
      RemoveDisallowedSubset(name);
      forall i | 0 <= i < |kept|
        ensures IsSpace(kept[i])
      {
        assert kept[i] in name;
        var j :| 0 <= j < |name| && name[j] == kept[i];
      }
      assert stripped == [];
    } else {
      var i :| 0 <= i < |name| && (IsAsciiAlnum(name[i]) || name[i] == '-');
      RemoveDisallowedHas(name, i);
      var j :| 0 <= j < |kept| && kept[j] == name[i];
      assert stripped != [];
    }
  }

  lemma {:induction false} RemoveDisallowedSubset(s: string)
    ensures forall c :: c in RemoveDisallowed(s) ==> c in s
  {
    if s != [] {
      RemoveDisallowedSubset(s[1..]);
    }
  }

  lemma {:induction false} RemoveDisallowedHas(s: string, i: nat)
    requires i < |s| && IsKept(s[i])
    ensures s[i] in RemoveDisallowed(s)
  {
    if i > 0 {
      RemoveDisallowedHas(s[1..], i - 1);
    }
  }

  lemma {:induction false} RemoveDisallowedLast(s: string)
    requires s != [] && IsKept(s[|s| - 1])
    ensures RemoveDisallowed(s) != []
    ensures RemoveDisallowed(s)[|RemoveDisallowed(s)| - 1] == s[|s| - 1]
  {
    if |s| > 1 {
      RemoveDisallowedLast(s[1..]);
    }
  }

  lemma {:induction false} CollapseLast(s: string)
    requires s != []
    ensures var r := CollapseSeparators(s); r[|r| - 1] == '-' <==> IsSeparator(s[|s| - 1])
    decreases |s|
  {
    if IsSeparator(s[0]) {
      var rest := SkipSeparators(s);
      if rest != [] {
        CollapseLast(rest);
        assert rest[|rest| - 1] == s[|s| - 1];
      }
    } else if |s| > 1 {
      CollapseLast(s[1..]);
    }
  }

  /** `strip()` keeps a hyphen at the front. */
  lemma StripKeepsFirstHyphen(s: string)
    requires s != [] && s[0] == '-'
    ensures Strip(s) != [] && Strip(s)[0] == '-'
  {
    assert LeadingSpaces(s) == 0;
  }

  /** `strip()` keeps a hyphen at the back. */
  lemma StripKeepsLastHyphen(s: string)
    requires s != [] && s[|s| - 1] == '-'
    ensures Strip(s) != [] && Strip(s)[|Strip(s)| - 1] == '-'
  {
    var r := Strip(s);
    assert LeadingSpaces(s) + |r| == |s|;
  }

  /** The slug of a name starts with a hyphen when the name does. */
  lemma SlugKeepsFirstHyphen(name: string)
    requires name != [] && name[0] == '-'
    ensures SanitizeFilename(name) != [] && SanitizeFilename(name)[0] == '-'
  {
    var kept := RemoveDisallowed(name);
    assert kept[0] == '-';
    StripKeepsFirstHyphen(kept);
    var cleaned := LowerAscii(Strip(kept));
    assert cleaned[0] == '-';
    assert SanitizeFilename(name) == CollapseSeparators(cleaned);
  }

  /** The slug of a name ends with a hyphen when the name does. */
  lemma SlugKeepsLastHyphen(name: string)
    requires name != [] && name[|name| - 1] == '-'
    ensures SanitizeFilename(name) != [] && SanitizeFilename(name)[|SanitizeFilename(name)| - 1] == '-'
  {
    var kept := RemoveDisallowed(name);
    RemoveDisallowedLast(name);
    StripKeepsLastHyphen(kept);
    var stripped := Strip(kept);
    var cleaned := LowerAscii(stripped);
    assert cleaned[|cleaned| - 1] == '-';
    CollapseLast(cleaned);
    assert SanitizeFilename(name) == CollapseSeparators(cleaned);
  }

  /** `strip()` removes only whitespace, so a hyphen at either end of the league name survives
      as a hyphen at the same end of the slug. */
  lemma SlugKeepsEdgeHyphens(name: string)
    ensures name != [] && name[0] == '-' ==>
      SanitizeFilename(name) != [] && SanitizeFilename(name)[0] == '-'
    ensures name != [] && name[|name| - 1] == '-' ==>
      SanitizeFilename(name) != [] && SanitizeFilename(name)[|SanitizeFilename(name)| - 1] == '-'
  {
    if name != [] && name[0] == '-' {
      SlugKeepsFirstHyphen(name);
    }
    if name != [] && name[|name| - 1] == '-' {
      SlugKeepsLastHyphen(name);
    }
  }

  // ---------------------------------------------------------------- what each pass does

  /** The first pass works one character at a time and keeps the order: it deletes from a
      concatenation what it deletes from each part. */
  lemma {:induction false} RemoveDisallowedConcat(a: string, b: string)
    ensures RemoveDisallowed(a + b) == RemoveDisallowed(a) + RemoveDisallowed(b)
  {
    if a == [] {
      assert a + b == b;
    } else {
      assert (a + b)[0] == a[0];
      assert (a + b)[1..] == a[1..] + b;
      RemoveDisallowedConcat(a[1..], b);
    }
  }

  /** One character survives the first pass exactly when it is allowed. */
  lemma RemoveDisallowedChar(c: char)
    ensures RemoveDisallowed([c]) == if IsKept(c) then [c] else []
  {
    assert [c][1..] == [];
  }

  /** A string without separators passes the second pass unchanged. */
  lemma {:induction false} CollapseWithoutSeparators(s: string)
    requires forall i :: 0 <= i < |s| ==> !IsSeparator(s[i])
    ensures CollapseSeparators(s) == s
  {
    if s != [] {
      CollapseWithoutSeparators(s[1..]);
    }
  }

  /** Dropping a run of separators stops at the first other character. */
  lemma {:induction false} SkipRun(run: string, b: string)
    requires forall i :: 0 <= i < |run| ==> IsSeparator(run[i])
    requires b == [] || !IsSeparator(b[0])
    ensures SkipSeparators(run + b) == b
  {
    if run == [] {
      assert run + b == b;
    } else {
      assert (run + b)[0] == run[0];
      assert (run + b)[1..] == run[1..] + b;
      SkipRun(run[1..], b);
    }
  }

  /** Dropping the separators at the front of a string that ends in another character never
      reaches what follows that string. */
  lemma {:induction false} SkipBeforeEnd(a: string, x: string)
    requires a != [] && !IsSeparator(a[|a| - 1])
    ensures SkipSeparators(a + x) == SkipSeparators(a) + x
  {
    assert (a + x)[0] == a[0];
    if IsSeparator(a[0]) {
      assert (a + x)[1..] == a[1..] + x;
      SkipBeforeEnd(a[1..], x);
    }
  }

  /** What is left of a string that ends in a non-separator, once its leading separators are
      dropped: a shorter string with the same last character. */
  lemma SkipLeavesEnd(a: string)
    requires a != [] && IsSeparator(a[0]) && !IsSeparator(a[|a| - 1])
    ensures var rest := SkipSeparators(a);
      rest != [] && |rest| < |a| && rest[|rest| - 1] == a[|a| - 1]
  {
    var rest := SkipSeparators(a);
    assert 0 < |rest| by {
      assert !IsSeparator(a[|a| - 1]);
    }
    assert |rest| < |a| by {
      assert rest == a[|a| - |rest|..];
      assert IsSeparator(a[0]);
    }
    assert rest[|rest| - 1] == a[|a| - |rest| + |rest| - 1];
  }

  /** The second pass turns a run of separators between two other characters into exactly one
      hyphen, and treats the text on each side of the run on its own. */
  lemma {:induction false} CollapseRun(a: string, run: string, b: string)
    requires a == [] || !IsSeparator(a[|a| - 1])
    requires run != [] && forall i :: 0 <= i < |run| ==> IsSeparator(run[i])
    requires b == [] || !IsSeparator(b[0])
    ensures CollapseSeparators(a + run + b) == CollapseSeparators(a) + "-" + CollapseSeparators(b)
    decreases |a|, 1
  {
    if a == [] {
      assert a + run + b == run + b;
      assert CollapseSeparators(a) == [];
      CollapseRunFirst(run, b);
    } else if IsSeparator(a[0]) {
      CollapseRunAfterSeparator(a, run, b);
    } else {
      CollapseRunAfterOther(a, run, b);
    }
  }

  lemma CollapseRunFirst(run: string, b: string)
    requires run != [] && forall i :: 0 <= i < |run| ==> IsSeparator(run[i])
    requires b == [] || !IsSeparator(b[0])
    ensures CollapseSeparators(run + b) == "-" + CollapseSeparators(b)
  {
    assert (run + b)[0] == run[0];
    SkipRun(run, b);
  }

  lemma {:induction false} CollapseRunAfterSeparator(a: string, run: string, b: string)
    requires a != [] && IsSeparator(a[0]) && !IsSeparator(a[|a| - 1])
    requires run != [] && forall i :: 0 <= i < |run| ==> IsSeparator(run[i])
    requires b == [] || !IsSeparator(b[0])
    ensures CollapseSeparators(a + run + b) == CollapseSeparators(a) + "-" + CollapseSeparators(b)
    decreases |a|, 0
  {
    assert a + run + b == a + (run + b);
    assert (a + run + b)[0] == a[0];
    var rest := SkipSeparators(a);
    assert rest + (run + b) == rest + run + b;
    SkipLeavesEnd(a);
    SkipBeforeEnd(a, run + b);
    CollapseRun(rest, run, b);
    var x := CollapseSeparators(rest);
    var y := CollapseSeparators(b);
    ConcatRegroup("-", x, y);
  }

  lemma {:induction false} CollapseRunAfterOther(a: string, run: string, b: string)
    requires a != [] && !IsSeparator(a[0]) && !IsSeparator(a[|a| - 1])
    requires run != [] && forall i :: 0 <= i < |run| ==> IsSeparator(run[i])
    requires b == [] || !IsSeparator(b[0])
    ensures CollapseSeparators(a + run + b) == CollapseSeparators(a) + "-" + CollapseSeparators(b)
    decreases |a|, 0
  {
    assert (a + run + b)[0] == a[0];
    assert (a + run + b)[1..] == a[1..] + run + b;
    CollapseRun(a[1..], run, b);
    var x := CollapseSeparators(a[1..]);
    var y := CollapseSeparators(b);
    ConcatRegroup([a[0]], x, y);
  }

  /** Regrouping a string made of a head, a middle and a hyphenated tail. */
  lemma ConcatRegroup(h: string, x: string, y: string)
    ensures h + (x + "-" + y) == (h + x) + "-" + y
  {
  }

  // ---------------------------------------------------------------- names made of words

  /** A word of a league name: ASCII letters and digits only. */
  predicate IsWord(w: string) {
    w != [] && forall i :: 0 <= i < |w| ==> IsAsciiAlnum(w[i])
  }

  /** A word after `lower()`: small ASCII letters and digits only. */
  predicate IsLowerWord(w: string) {
    w != [] && forall i :: 0 <= i < |w| ==> IsAsciiLower(w[i]) || IsDigit(w[i])
  }

  /** The words, each lower-cased. */
  function LowerWords(words: seq<string>): (r: seq<string>)
    ensures |r| == |words|
    ensures forall i :: 0 <= i < |words| ==> r[i] == LowerAscii(words[i])
  {
    if words == [] then [] else [LowerAscii(words[0])] + LowerWords(words[1..])
  }

  lemma LowerWordOf(w: string)
    requires IsWord(w)
    ensures IsLowerWord(LowerAscii(w))
  {
    forall i | 0 <= i < |w|
      ensures IsAsciiLower(LowerAscii(w)[i]) || IsDigit(LowerAscii(w)[i])
    {
      assert IsAsciiAlnum(w[i]);
    }
  }

  lemma LowerAsciiConcat(a: string, b: string)
    ensures LowerAscii(a + b) == LowerAscii(a) + LowerAscii(b)
  {
    assert forall i :: 0 <= i < |a + b| ==> LowerAscii(a + b)[i] == (LowerAscii(a) + LowerAscii(b))[i];
  }

  /** The first pass keeps words joined by spaces whole. */
  lemma {:induction false} WordsSurviveFirstPass(words: seq<string>)
    requires forall i :: 0 <= i < |words| ==> IsWord(words[i])
    ensures RemoveDisallowed(Join(words, " ")) == Join(words, " ")
  {
    if words != [] {
      var w := words[0];
      assert forall i :: 0 <= i < |w| ==> IsKept(w[i]) by {
        assert IsWord(w);
      }
      RemoveDisallowedKeeps(w);
      if |words| > 1 {
        var rest := Join(words[1..], " ");
        WordsSurviveFirstPass(words[1..]);
        RemoveDisallowedConcat(w + " ", rest);
        RemoveDisallowedConcat(w, " ");
        RemoveDisallowedChar(' ');
      }
    }
  }

  /** `lower()` of words joined by spaces is the lower-cased words joined by spaces. */
  lemma {:induction false} LowerJoinedWords(words: seq<string>)
    ensures LowerAscii(Join(words, " ")) == Join(LowerWords(words), " ")
  {
    if |words| > 1 {
      var w := words[0];
      var rest := Join(words[1..], " ");
      LowerJoinedWords(words[1..]);
      LowerAsciiConcat(w + " ", rest);
      LowerAsciiConcat(w, " ");
      assert LowerAscii(" ") == " ";
      assert LowerWords(words)[1..] == LowerWords(words[1..]);
    }
  }

  /** The second pass turns the single spaces between lower-case words into hyphens. */
  lemma {:induction false} CollapseJoinedWords(words: seq<string>)
    requires words != []
    requires forall i :: 0 <= i < |words| ==> IsLowerWord(words[i])
    ensures CollapseSeparators(Join(words, " ")) == Join(words, "-")
  {
    var w := words[0];
    assert IsLowerWord(w);
    if |words| == 1 {
      assert Join(words, " ") == w && Join(words, "-") == w;
      CollapseWithoutSeparators(w);
    } else {
      var rest := words[1..];
      assert Join(words, " ") == w + " " + Join(rest, " ");
      assert Join(words, "-") == w + "-" + Join(rest, "-");
      assert IsLowerWord(rest[0]) && IsLowerWord(rest[|rest| - 1]);
      JoinEnds(rest, " ");
      LowerWordWithoutSeparators(rest[0]);
      CollapseJoinedWords(rest);
      CollapseWordThen(w, Join(rest, " "));
    }
  }

  lemma LowerWordWithoutSeparators(w: string)
    requires IsLowerWord(w)
    ensures forall i :: 0 <= i < |w| ==> !IsSeparator(w[i])
  {
  }

  /** One step of the above: a lower-case word, a space, then text that starts with neither a
      space nor a hyphen. */
  lemma CollapseWordThen(w: string, tail: string)
    requires IsLowerWord(w)
    requires tail != [] && !IsSeparator(tail[0])
    ensures CollapseSeparators(w + " " + tail) == w + "-" + CollapseSeparators(tail)
  {
    LowerWordWithoutSeparators(w);
    CollapseWithoutSeparators(w);
    CollapseRun(w, " ", tail);
  }

  /** Words joined by spaces begin and end with a letter or digit, so stripping leaves them. */
  lemma StripJoinedWords(words: seq<string>)
    requires words != []
    requires forall i :: 0 <= i < |words| ==> IsWord(words[i])
    ensures Strip(Join(words, " ")) == Join(words, " ")
  {
    var first := words[0];
    var last := words[|words| - 1];
    assert IsWord(first) && IsWord(last);
    JoinEnds(words, " ");
    StripKeepsAlnumEnds(Join(words, " "));
  }

  /** A string that begins and ends with an ASCII letter or digit is left alone by `strip()`. */
  lemma StripKeepsAlnumEnds(name: string)
    requires name != [] && IsAsciiAlnum(name[0]) && IsAsciiAlnum(name[|name| - 1])
    ensures Strip(name) == name
  {
    SeparatorNotAlnum(name[0]);
    SeparatorNotAlnum(name[|name| - 1]);
    StripKeeps(name);
  }

  /** Lower-casing turns words into lower-case words. */
  lemma LowerWordsAreLower(words: seq<string>)
    requires forall i :: 0 <= i < |words| ==> IsWord(words[i])
    ensures forall i :: 0 <= i < |words| ==> IsLowerWord(LowerWords(words)[i])
  {
    forall i | 0 <= i < |words|
      ensures IsLowerWord(LowerWords(words)[i])
    {
      LowerWordOf(words[i]);
    }
  }

  /** A league name made of words separated by single spaces slugs to its words, lower-cased
      and joined by hyphens: `"Premier League"` becomes `"premier-league"`. */
  lemma SlugOfWords(words: seq<string>)
    requires words != []
    requires forall i :: 0 <= i < |words| ==> IsWord(words[i])
    ensures SanitizeFilename(Join(words, " ")) == Join(LowerWords(words), "-")
  {
    var name := Join(words, " ");
    WordsSurviveFirstPass(words);
    StripJoinedWords(words);
    LowerJoinedWords(words);
    LowerWordsAreLower(words);
    CollapseJoinedWords(LowerWords(words));
  }
}
