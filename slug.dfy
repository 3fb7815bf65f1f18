/** `generateSlug` of app/api/admin/events/route.ts: lower-case the title,
    decompose it (Unicode NFD), drop the combining marks U+0300..U+036F,
    replace every run of characters outside [a-z0-9] by one '-', and cut the
    hyphens off both ends.

    Unicode case mapping and decomposition are given for ASCII and for the
    Romanian letters (ă â î ș ț and the cedilla forms ş ţ); any other
    character is left as it is by both steps. */
module Slug {

  /** One character of `toLowerCase()`. */
  function LowerChar(c: char): (l: char)
    ensures 'A' <= c <= 'Z' ==> 'a' <= l <= 'z' && l as int == c as int + 32
    ensures IsSlugChar(c) ==> l == c
    ensures l != c ==> c < l
  {
    if 'A' <= c <= 'Z' then (c as int + 32) as char
    else if c == '\U{0102}' then '\U{0103}'   // Ă
    else if c == '\U{00C2}' then '\U{00E2}'   // Â
    else if c == '\U{00CE}' then '\U{00EE}'   // Î
    else if c == '\U{0218}' then '\U{0219}'   // Ș
    else if c == '\U{021A}' then '\U{021B}'   // Ț
    else if c == '\U{015E}' then '\U{015F}'   // Ş
    else if c == '\U{0162}' then '\U{0163}'   // Ţ
    else c
  }

  /** `toLowerCase()` */
  function ToLower(s: string): (r: string)
    ensures |r| == |s|
    ensures forall i :: 0 <= i < |s| ==> r[i] == LowerChar(s[i])
  {
    seq(|s|, i requires 0 <= i < |s| => LowerChar(s[i]))
  }

  /** The canonical decomposition of one character. */
  function DecomposeChar(c: char): (d: string)
    ensures 1 <= |d| <= 2
    ensures |d| == 1 ==> d[0] == c
    ensures !IsCombiningMark(c) ==> !IsCombiningMark(d[0])
    ensures forall i :: 1 <= i < |d| ==> IsCombiningMark(d[i])
  {
    if c == '\U{0103}' then "a\U{0306}"        // ă
    else if c == '\U{00E2}' then "a\U{0302}"   // â
    else if c == '\U{00EE}' then "i\U{0302}"   // î
    else if c == '\U{0219}' then "s\U{0326}"   // ș
    else if c == '\U{021B}' then "t\U{0326}"   // ț
    else if c == '\U{015F}' then "s\U{0327}"   // ş
    else if c == '\U{0163}' then "t\U{0327}"   // ţ
    else [c]
  }

  /** `normalize('NFD')` */
  function Decompose(s: string): (r: string)
    ensures |s| <= |r| <= 2 * |s|
  {
    if s == [] then [] else DecomposeChar(s[0]) + Decompose(s[1..])
  }

  predicate IsCombiningMark(c: char)
  {
    '\U{0300}' <= c <= '\U{036F}'
  }

  /** `replace(/[\u0300-\u036f]/g, '')` */
  function StripMarks(s: string): (r: string)
    ensures forall i :: 0 <= i < |r| ==> !IsCombiningMark(r[i])
  {
    if s == [] then []
    else if IsCombiningMark(s[0]) then StripMarks(s[1..])
    else [s[0]] + StripMarks(s[1..])
  }

  predicate IsAlnum(c: char)
  {
    'a' <= c <= 'z' || '0' <= c <= '9'
  }

  predicate IsSlugChar(c: char)
  {
    IsAlnum(c) || c == '-'
  }

  predicate AllSlugChars(s: string)
  {
    forall i :: 0 <= i < |s| ==> IsSlugChar(s[i])
  }

  predicate NoDoubleHyphen(s: string)
  {
    forall i :: 0 <= i < |s| - 1 ==> s[i] != '-' || s[i + 1] != '-'
  }

  /** What a slug looks like: only a-z, 0-9 and '-', no hyphen at either
      end, and never two hyphens in a row. */
  predicate IsSlug(s: string)
  {
    && AllSlugChars(s)
    && NoDoubleHyphen(s)
    && (s != [] ==> s[0] != '-' && s[|s| - 1] != '-')
  }

  /** The rest of `s` after the run of non-alphanumeric characters it starts with. */
  function DropSeparators(s: string): (r: string)
    ensures |r| <= |s| && r == s[|s| - |r|..]
    ensures r == [] || IsAlnum(r[0])
  {
    if s != [] && !IsAlnum(s[0]) then
      var r := DropSeparators(s[1..]);
      assert s[1..][|s| - 1 - |r|..] == s[|s| - |r|..];
      r
    else s
  }

  /** `replace(/[^a-z0-9]+/g, '-')`: every maximal run of characters outside
      [a-z0-9] becomes a single '-'. */
  function Collapse(s: string): (r: string)
    ensures AllSlugChars(r) && NoDoubleHyphen(r)
    ensures r == [] <==> s == []
    ensures s != [] && IsAlnum(s[0]) ==> r[0] == s[0]
    decreases |s|
  {
    if s == [] then []
    else if IsAlnum(s[0]) then [s[0]] + Collapse(s[1..])
    else ['-'] + Collapse(DropSeparators(s[1..]))
  }

  function LeadingHyphens(s: string): (n: nat)
    ensures n <= |s|
    ensures forall i :: 0 <= i < n ==> s[i] == '-'
    ensures n < |s| ==> s[n] != '-'
  {
    if s != [] && s[0] == '-' then 1 + LeadingHyphens(s[1..]) else 0
  }

  function TrailingHyphens(s: string): (n: nat)
    ensures n <= |s|
    ensures forall i :: |s| - n <= i < |s| ==> s[i] == '-'
    ensures n < |s| ==> s[|s| - n - 1] != '-'
  {
    if s != [] && s[|s| - 1] == '-' then 1 + TrailingHyphens(s[..|s| - 1]) else 0
  }

  /** `replace(/^-+|-+$/g, '')`: what is left is a piece of `s` that
      neither starts nor ends with '-'. */
  function TrimHyphens(s: string): (r: string)
    ensures r != [] ==> r[0] != '-' && r[|r| - 1] != '-'
    ensures AllSlugChars(s) && NoDoubleHyphen(s) ==> IsSlug(r)
  {
    var i := LeadingHyphens(s);
    var t := s[i..];
    var r := t[..|t| - TrailingHyphens(t)];
    assert forall k :: 0 <= k < |r| ==> r[k] == s[i + k];
    r
  }

  /** `generateSlug(title)`: the result is always slug-shaped. */
  function GenerateSlug(title: string): (slug: string)
    ensures IsSlug(slug)
  {
    TrimHyphens(Collapse(StripMarks(Decompose(ToLower(title)))))
  }

  lemma {:induction false} DecomposeSlugChars(s: string)
    requires AllSlugChars(s)
    ensures Decompose(s) == s
  {
    if s != [] {
      DecomposeSlugChars(s[1..]);
    }
  }

  lemma {:induction false} StripMarksSlugChars(s: string)
    requires AllSlugChars(s)
    ensures StripMarks(s) == s
  {
    if s != [] {
      StripMarksSlugChars(s[1..]);
    }
  }

  lemma {:induction false} CollapseSlugShaped(s: string)
    requires AllSlugChars(s) && NoDoubleHyphen(s)
    ensures Collapse(s) == s
    decreases |s|
  {
    if s != [] {
      assert AllSlugChars(s[1..]) && NoDoubleHyphen(s[1..]);
      if !IsAlnum(s[0]) {
        assert s[1..] == [] || IsAlnum(s[1..][0]);
        assert DropSeparators(s[1..]) == s[1..];
      }
      CollapseSlugShaped(s[1..]);
    }
  }

  lemma TrimSlugShaped(s: string)
    requires IsSlug(s)
    ensures TrimHyphens(s) == s
  {
    assert LeadingHyphens(s) == 0;
    assert s[0..] == s;
    assert TrailingHyphens(s) == 0;
  }

  predicate AllHyphens(s: string)
  {
    forall i :: 0 <= i < |s| ==> s[i] == '-'
  }

  lemma {:induction false} LeadingHyphensOf(pre: string, rest: string)
    requires AllHyphens(pre)
    requires rest == [] || rest[0] != '-'
    ensures LeadingHyphens(pre + rest) == |pre|
  {
    if pre != [] {
      assert (pre + rest)[1..] == pre[1..] + rest;
      LeadingHyphensOf(pre[1..], rest);
    }
  }

  lemma {:induction false} TrailingHyphensOf(rest: string, post: string)
    requires AllHyphens(post)
    requires rest == [] || rest[|rest| - 1] != '-'
    ensures TrailingHyphens(rest + post) == |post|
  {
    if post != [] {
      var s := rest + post;
      assert s[..|s| - 1] == rest + post[..|post| - 1];
      TrailingHyphensOf(rest, post[..|post| - 1]);
    }
  }

  /** Trimming hyphens from a run of '-', then `core`, then a run of '-'
      gives back `core` when `core` neither starts nor ends with '-'
      ("--a-b--" becomes "a-b"); a string of hyphens only becomes empty. */
  lemma TrimHyphensPadded(pre: string, core: string, post: string)
    requires AllHyphens(pre) && AllHyphens(post)
    requires core != [] ==> core[0] != '-' && core[|core| - 1] != '-'
    ensures TrimHyphens(pre + core + post) == core
  {
    var s := pre + core + post;
    if core == [] {
      assert s == (pre + post) + [];
      assert AllHyphens(pre + post);
      LeadingHyphensOf(pre + post, []);
    } else {
      assert s == pre + (core + post);
      LeadingHyphensOf(pre, core + post);
      assert s[|pre|..] == core + post;
      TrailingHyphensOf(core, post);
      assert (core + post)[..|core|] == core;
    }
  }

  lemma LowerSlugChars(s: string)
    requires AllSlugChars(s)
    ensures ToLower(s) == s
  {
    assert forall i :: 0 <= i < |s| ==> LowerChar(s[i]) == s[i];
  }

  /** A slug is its own slug. */
  lemma SlugFixedPoint(s: string)
    requires IsSlug(s)
    ensures GenerateSlug(s) == s
  {
    LowerSlugChars(s);
    DecomposeSlugChars(s);
    StripMarksSlugChars(s);
    CollapseSlugShaped(s);
    TrimSlugShaped(s);
  }

  /** `generateSlug` is idempotent. */
  lemma SlugIdempotent(title: string)
    ensures GenerateSlug(GenerateSlug(title)) == GenerateSlug(title)
  {
    SlugFixedPoint(GenerateSlug(title));
  }

  /** The base letter a Romanian letter decomposes to; other characters are
      their own base. */
  function BaseLetter(c: char): char
  {
    if c == '\U{0103}' || c == '\U{00E2}' then 'a'
    else if c == '\U{00EE}' then 'i'
    else if c == '\U{0219}' || c == '\U{015F}' then 's'
    else if c == '\U{021B}' || c == '\U{0163}' then 't'
    else c
  }

  function BaseLetters(s: string): (r: string)
    ensures |r| == |s|
    ensures forall i :: 0 <= i < |s| ==> r[i] == BaseLetter(s[i])
  {
    seq(|s|, i requires 0 <= i < |s| => BaseLetter(s[i]))
  }

  lemma StripDecomposeChar(c: char)
    requires !IsCombiningMark(c)
    ensures StripMarks(DecomposeChar(c)) == [BaseLetter(c)]
  {
    var d := DecomposeChar(c);
    if |d| == 2 {
      assert IsCombiningMark(d[1]);
      assert StripMarks(d[1..]) == [];
    } else {
      assert StripMarks(d[1..]) == [];
    }
  }

  lemma {:induction false} StripMarksAppend(a: string, b: string)
    ensures StripMarks(a + b) == StripMarks(a) + StripMarks(b)
  {
    if a == [] {
      assert a + b == b;
    } else {
      assert (a + b)[1..] == a[1..] + b;
      StripMarksAppend(a[1..], b);
    }
  }

  /** Decomposing and then dropping the combining marks replaces every
      Romanian letter by its base letter and keeps everything else. */
  lemma {:induction false} StripDecompose(s: string)
    requires forall i :: 0 <= i < |s| ==> !IsCombiningMark(s[i])
    ensures StripMarks(Decompose(s)) == BaseLetters(s)
  {
    if s != [] {
      StripMarksAppend(DecomposeChar(s[0]), Decompose(s[1..]));
      StripDecomposeChar(s[0]);
      StripDecompose(s[1..]);
    }
  }

  lemma CatalinLower(title: string)
    requires title == "C\U{0103}t\U{0103}lin"
    ensures ToLower(title) == "c\U{0103}t\U{0103}lin"
  {
  }

  lemma CatalinBase(lower: string)
    requires lower == "c\U{0103}t\U{0103}lin"
    ensures StripMarks(Decompose(lower)) == "catalin"
  {
    StripDecompose(lower);
    assert BaseLetters(lower) == "catalin";
  }

  /** Diacritics are dropped: "Cătălin" becomes "catalin". */
  lemma SlugDropsDiacritics(title: string)
    requires title == "C\U{0103}t\U{0103}lin"
    ensures GenerateSlug(title) == "catalin"
  {
    CatalinLower(title);
    CatalinBase(ToLower(title));
    var base := "catalin";
    assert IsSlug(base);
    CollapseSlugShaped(base);
    TrimSlugShaped(base);
  }

  lemma {:induction false} CollapseWord(w: string, rest: string)
    requires forall i :: 0 <= i < |w| ==> IsAlnum(w[i])
    ensures Collapse(w + rest) == w + Collapse(rest)
  {
    if w == [] {
      assert w + rest == rest;
    } else {
      assert (w + rest)[1..] == w[1..] + rest;
      CollapseWord(w[1..], rest);
    }
  }

  lemma CollapseSeparatorHead(s: string)
    requires s != [] && !IsAlnum(s[0])
    ensures Collapse(s) == "-" + Collapse(DropSeparators(s[1..]))
  {
  }

  lemma DropSeparatorsHead(s: string)
    requires s != [] && !IsAlnum(s[0])
    ensures DropSeparators(s) == DropSeparators(s[1..])
  {
  }

  lemma CollapseSeparator(sep: string, rest: string)
    requires sep != [] && forall i :: 0 <= i < |sep| ==> !IsAlnum(sep[i])
    requires rest == [] || IsAlnum(rest[0])
    ensures Collapse(sep + rest) == "-" + Collapse(rest)
  {
    var s := sep + rest;
    assert s[0] == sep[0];
    CollapseSeparatorHead(s);
    DropSeparatorsHead(s);
    DropSeparatorsOf(sep, rest);
  }

  lemma {:induction false} DropSeparatorsOf(sep: string, rest: string)
    requires forall i :: 0 <= i < |sep| ==> !IsAlnum(sep[i])
    requires rest == [] || IsAlnum(rest[0])
    ensures DropSeparators(sep + rest) == rest
  {
    if sep == [] {
      assert sep + rest == rest;
    } else {
      assert (sep + rest)[1..] == sep[1..] + rest;
      DropSeparatorsOf(sep[1..], rest);
    }
  }

  lemma TrimTrailingHyphen(core: string)
    requires IsSlug(core) && core != []
    ensures TrimHyphens(core + "-") == core
  {
    var s := core + "-";
    assert LeadingHyphens(s) == 0;
    assert s[0..] == s;
    assert s[..|s| - 1] == core;
    assert TrailingHyphens(core) == 0;
    assert TrailingHyphens(s) == 1;
  }

  predicate IsWord(w: string)
  {
    w != [] && forall i :: 0 <= i < |w| ==> IsAlnum(w[i])
  }

  predicate IsSeparator(sep: string)
  {
    sep != [] && forall i :: 0 <= i < |sep| ==> !IsAlnum(sep[i])
  }

  /** A word followed by a separator collapses to the word and one hyphen. */
  lemma CollapseWordSeparator(w: string, sep: string, rest: string)
    requires IsWord(w) && IsSeparator(sep)
    requires rest == [] || IsAlnum(rest[0])
    ensures Collapse(w + (sep + rest)) == w + ("-" + Collapse(rest))
  {
    CollapseSeparator(sep, rest);
    CollapseWord(w, sep + rest);
  }

  /** Three words, each followed by a separator, collapse to the words joined
      by hyphens with one hyphen at the end. */
  lemma CollapseThreeWords(a: string, s1: string, b: string, s2: string, c: string, s3: string)
    requires IsWord(a) && IsWord(b) && IsWord(c)
    requires IsSeparator(s1) && IsSeparator(s2) && IsSeparator(s3)
    ensures Collapse(a + (s1 + (b + (s2 + (c + s3))))) == a + ("-" + (b + ("-" + (c + "-"))))
  {
    var r3 := c + s3;
    assert r3 == c + (s3 + []);
    CollapseWordSeparator(c, s3, []);
    assert c + ("-" + Collapse([])) == c + "-";
    var r2 := b + (s2 + r3);
    assert r3[0] == c[0];
    CollapseWordSeparator(b, s2, r3);
    assert r2[0] == b[0];
    CollapseWordSeparator(a, s1, r2);
  }

  predicate IsAscii(s: string)
  {
    forall i :: 0 <= i < |s| ==> s[i] as int < 128
  }

  /** Pure ASCII text comes through decomposition and mark removal unchanged. */
  lemma {:induction false} AsciiUnmarked(s: string)
    requires IsAscii(s)
    ensures StripMarks(Decompose(s)) == s
  {
    if s != [] {
      assert DecomposeChar(s[0]) == [s[0]];
      assert Decompose(s) == [s[0]] + Decompose(s[1..]);
      StripMarksAppend([s[0]], Decompose(s[1..]));
      AsciiUnmarked(s[1..]);
      assert [s[0]] + s[1..] == s;
    }
  }

  lemma ConcertLower(title: string)
    requires title == "Concert Live - Artist!"
    ensures ToLower(title) == "concert" + (" " + ("live" + (" - " + ("artist" + "!"))))
  {
  }

  lemma AsciiAppend(a: string, b: string)
    requires IsAscii(a) && IsAscii(b)
    ensures IsAscii(a + b)
  {
  }

  lemma ConcertBase(lower: string)
    requires lower == "concert" + (" " + ("live" + (" - " + ("artist" + "!"))))
    ensures StripMarks(Decompose(lower)) == lower
  {
    var p4 := "artist" + "!";
    AsciiAppend("artist", "!");
    var p3 := " - " + p4;
    AsciiAppend(" - ", p4);
    var p2 := "live" + p3;
    AsciiAppend("live", p3);
    var p1 := " " + p2;
    AsciiAppend(" ", p2);
    AsciiAppend("concert", p1);
    AsciiUnmarked(lower);
  }

  lemma ConcertCollapse(collapsed: string)
    requires collapsed == "concert" + ("-" + ("live" + ("-" + ("artist" + "-"))))
    ensures TrimHyphens(collapsed) == "concert-live-artist"
  {
    var slug := "concert-live-artist";
    assert collapsed == slug + "-";
    assert IsSlug(slug);
    TrimTrailingHyphen(slug);
  }

  /** Runs of other characters become one hyphen and the ends are trimmed:
      "Concert Live - Artist!" becomes "concert-live-artist". */
  lemma SlugCollapsesSeparators(title: string)
    requires title == "Concert Live - Artist!"
    ensures GenerateSlug(title) == "concert-live-artist"
  {
    ConcertLower(title);
    var lower := ToLower(title);
    ConcertBase(lower);
    CollapseThreeWords("concert", " ", "live", " - ", "artist", "!");
    ConcertCollapse(Collapse(lower));
  }
}
