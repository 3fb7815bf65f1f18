/** `wrapText` of lib/email.ts: the greedy word wrap used to lay out the
    parental-consent PDF. The text is split on runs of white space and the
    words are packed, in order, into lines of at most `maxCharsPerLine`
    characters; a word longer than that gets a line of its own. */
module Wrap {
  import opened Text

  /** Length of the run of non-space characters `s` starts with. */
  function WordLength(s: string): (n: nat)
    ensures n <= |s|
    ensures NoSpace(s[..n])
    ensures n < |s| ==> IsJsSpace(s[n])
  {
    if s == [] || IsJsSpace(s[0]) then 0
    else
      var k := WordLength(s[1..]);
      assert s[1..][..k] == s[1..k + 1];
      k + 1
  }

  /** JavaScript `s.split(/\s+/)`: the pieces between maximal runs of white
      space. Leading or trailing white space yields an empty first or last
      piece, and the empty string yields `[""]`. */
  function Split(s: string): (words: seq<string>)
    ensures |words| >= 1
    ensures forall k :: 0 <= k < |words| ==> NoSpace(words[k])
    decreases |s|
  {
    var n := WordLength(s);
    if n == |s| then [s]
    else
      var gap := LeadingSpaces(s[n..]);
      [s[..n]] + Split(s[n + gap..])
  }

  /** The lines the loop produces from the words still to come, given the
      line it is currently filling: a word is appended (after one space) while
      the result fits, otherwise the current line is emitted, when non-empty,
      and the word starts the next one. */
  function Fill(words: seq<string>, line: string, maxChars: int): (lines: seq<string>)
    ensures |lines| <= |words| + (if line != "" then 1 else 0)
  {
    if words == [] then
      (if line != "" then [line] else [])
    else
      var w := words[0];
      var test := if line != "" then line + " " + w else w;
      if JsLength(test) > maxChars then
        (if line != "" then [line] else []) + Fill(words[1..], w, maxChars)
      else
        Fill(words[1..], test, maxChars)
  }

  /** The lines `wrapText(text, maxCharsPerLine)` returns. */
  function Wrapped(text: string, maxChars: int): seq<string>
  {
    Fill(Split(text), "", maxChars)
  }

  /** The loop of `wrapText`. */
  method WrapText(text: string, maxCharsPerLine: int) returns (lines: seq<string>)
    ensures lines == Wrapped(text, maxCharsPerLine)
    ensures forall k :: 0 <= k < |lines| ==> lines[k] != ""
    ensures forall k :: 0 <= k < |lines| ==>
              JsLength(lines[k]) <= maxCharsPerLine || lines[k] in Split(text)
  {
    var words := Split(text);
    ghost var all := Fill(words, "", maxCharsPerLine);
    lines := [];
    var line := "";
    for i := 0 to |words|
      invariant lines + Fill(words[i..], line, maxCharsPerLine) == all
    {
      var w := words[i];
      ghost var rest := words[i..];
      assert rest[0] == w && rest[1..] == words[i + 1..];
      var test := if line != "" then line + " " + w else w;
      FillStep(rest, line, maxCharsPerLine);
      if JsLength(test) > maxCharsPerLine {
        var closed := if line != "" then [line] else [];
        assert lines + (closed + Fill(words[i + 1..], w, maxCharsPerLine))
            == (lines + closed) + Fill(words[i + 1..], w, maxCharsPerLine);
        lines := lines + closed;
        line := w;
      } else {
        line := test;
      }
    }
    assert words[|words|..] == [];
    if line != "" {
      lines := lines + [line];
    }
    FillNonEmpty(words, "", maxCharsPerLine);
    FillFits(words, "", maxCharsPerLine);
  }

  /** One step of `Fill`, with the next word taken from the front. */
  lemma FillStep(words: seq<string>, line: string, maxChars: int)
    requires words != []
    ensures var w := words[0];
      var test := if line != "" then line + " " + w else w;
      Fill(words, line, maxChars) ==
        if JsLength(test) > maxChars then (if line != "" then [line] else []) + Fill(words[1..], w, maxChars)
        else Fill(words[1..], test, maxChars)
  {
  }

  /** No line is ever empty. */
  lemma {:induction false} FillNonEmpty(words: seq<string>, line: string, maxChars: int)
    ensures forall k :: 0 <= k < |Fill(words, line, maxChars)| ==> Fill(words, line, maxChars)[k] != ""
  {
    if words != [] {
      var w := words[0];
      var test := if line != "" then line + " " + w else w;
      if JsLength(test) > maxChars {
        FillNonEmpty(words[1..], w, maxChars);
      } else {
        FillNonEmpty(words[1..], test, maxChars);
      }
    }
  }

  /** Every line fits, or is the line being filled at the start, or is one
      of the words. */
  lemma {:induction false} FillFits(words: seq<string>, line: string, maxChars: int)
    ensures forall k :: 0 <= k < |Fill(words, line, maxChars)| ==>
              var l := Fill(words, line, maxChars)[k];
              JsLength(l) <= maxChars || l == line || l in words
  {
    if words != [] {
      var w := words[0];
      var test := if line != "" then line + " " + w else w;
      if JsLength(test) > maxChars {
        FillFits(words[1..], w, maxChars);
      } else {
        FillFits(words[1..], test, maxChars);
      }
    }
  }

  /** The words joined by single spaces. */
  function Join(ls: seq<string>): string
  {
    if |ls| == 0 then ""
    else if |ls| == 1 then ls[0]
    else ls[0] + " " + Join(ls[1..])
  }

  predicate NoEmptyWord(words: seq<string>)
  {
    forall k :: 0 <= k < |words| ==> words[k] != ""
  }

  /** One step of `Fill` from a non-empty line when the next word does not fit. */
  lemma FillOver(words: seq<string>, line: string, maxChars: int)
    requires words != [] && line != ""
    requires JsLength(line + " " + words[0]) > maxChars
    ensures Fill(words, line, maxChars) == [line] + Fill(words[1..], words[0], maxChars)
  {
  }

  /** One step of `Fill` from a non-empty line when the next word fits. */
  lemma FillUnder(words: seq<string>, line: string, maxChars: int)
    requires words != [] && line != ""
    requires JsLength(line + " " + words[0]) <= maxChars
    ensures Fill(words, line, maxChars) == Fill(words[1..], line + " " + words[0], maxChars)
  {
  }

  lemma JoinCons(line: string, words: seq<string>)
    requires words != []
    ensures Join([line] + words) == line + " " + Join(words)
  {
    assert ([line] + words)[1..] == words;
  }

  /** Putting a word on the line before it joins the same way as keeping it
      separate. */
  lemma JoinMerge(line: string, w: string, rest: seq<string>)
    ensures Join([line + " " + w] + rest) == Join([line] + ([w] + rest))
  {
    JoinCons(line, [w] + rest);
    if rest != [] {
      JoinCons(line + " " + w, rest);
      JoinCons(w, rest);
    }
  }

  lemma {:induction false} FillJoin(words: seq<string>, line: string, maxChars: int)
    requires line != "" && NoEmptyWord(words)
    ensures Fill(words, line, maxChars) != []
    ensures Join(Fill(words, line, maxChars)) == Join([line] + words)
  {
    if words != [] {
      var w := words[0];
      assert [w] + words[1..] == words;
      if JsLength(line + " " + w) > maxChars {
        FillOver(words, line, maxChars);
        FillJoin(words[1..], w, maxChars);
        JoinCons(line, Fill(words[1..], w, maxChars));
        JoinCons(line, words);
      } else {
        FillUnder(words, line, maxChars);
        FillJoin(words[1..], line + " " + w, maxChars);
        JoinMerge(line, w, words[1..]);
      }
    }
  }

  /** Without empty words nothing is lost, added or reordered: the lines
      joined by spaces are the words joined by spaces. */
  lemma WrapKeepsWords(words: seq<string>, maxChars: int)
    requires NoEmptyWord(words)
    ensures Join(Fill(words, "", maxChars)) == Join(words)
  {
    if words != [] {
      var w := words[0];
      assert [w] + words[1..] == words;
      assert Fill(words, "", maxChars) == Fill(words[1..], w, maxChars);
      FillJoin(words[1..], w, maxChars);
    }
  }

  lemma SpacesStopBeforeLast(t: string)
    requires t != [] && !IsJsSpace(t[|t| - 1])
    ensures LeadingSpaces(t) < |t|
  {
    assert t[..|t|] == t;
  }

  /** One step of `Split` on a text whose first word ends before the text does. */
  lemma SplitStep(s: string, n: nat, gap: nat)
    requires n == WordLength(s) < |s| && gap == LeadingSpaces(s[n..])
    ensures Split(s) == [s[..n]] + Split(s[n + gap..])
  {
  }

  /** After the first word and the white space that follows it, a text
      without outer white space leaves a shorter text without outer white
      space. */
  lemma RestWithoutOuterSpace(s: string, n: nat, gap: nat)
    requires s != [] && !IsJsSpace(s[|s| - 1])
    requires n == WordLength(s) < |s| && gap == LeadingSpaces(s[n..])
    ensures n + gap < |s|
    ensures !IsJsSpace(s[n + gap]) && !IsJsSpace(s[n + gap..][|s| - n - gap - 1])
  {
    var t := s[n..];
    assert t[|t| - 1] == s[|s| - 1];
    SpacesStopBeforeLast(t);
    assert t[gap] == s[n + gap];
  }

  lemma NoEmptyWordCons(w: string, words: seq<string>)
    requires w != "" && NoEmptyWord(words)
    ensures NoEmptyWord([w] + words)
  {
  }

  lemma {:induction false} SplitWithoutOuterSpace(s: string)
    requires s != [] && !IsJsSpace(s[0]) && !IsJsSpace(s[|s| - 1])
    ensures NoEmptyWord(Split(s))
    decreases |s|
  {
    var n := WordLength(s);
    if n < |s| {
      var gap := LeadingSpaces(s[n..]);
      RestWithoutOuterSpace(s, n, gap);
      var rest := s[n + gap..];
      SplitWithoutOuterSpace(rest);
      SplitStep(s, n, gap);
      assert |s[..n]| == n > 0;
      NoEmptyWordCons(s[..n], Split(rest));
    }
  }

  /** For a text without leading or trailing white space, joining the lines
      with single spaces gives the text's words joined with single spaces. */
  lemma WrapTextKeepsWords(text: string, maxChars: int)
    requires text != [] && !IsJsSpace(text[0]) && !IsJsSpace(text[|text| - 1])
    ensures Join(Wrapped(text, maxChars)) == Join(Split(text))
  {
    SplitWithoutOuterSpace(text);
    WrapKeepsWords(Split(text), maxChars);
  }

  lemma {:induction false} FillEmptyWords(words: seq<string>, maxChars: int)
    requires forall k :: 0 <= k < |words| ==> words[k] == ""
    ensures Fill(words, "", maxChars) == []
  {
    if words != [] {
      FillEmptyWords(words[1..], maxChars);
    }
  }

  /** Empty or white-space-only text gives no lines at all. */
  lemma WrapBlankText(text: string, maxChars: int)
    requires AllSpace(text)
    ensures Wrapped(text, maxChars) == []
  {
    if text == [] {
      assert Split(text) == [""];
    } else {
      assert WordLength(text) == 0;
      assert text[0..] == text;
      LeadingSpacesAll(text);
      assert text[LeadingSpaces(text)..] == [];
      assert Split(text) == [""] + Split([]);
    }
    FillEmptyWords(Split(text), maxChars);
  }

  lemma {:induction false} LeadingSpacesAll(s: string)
    requires AllSpace(s)
    ensures LeadingSpaces(s) == |s|
  {
    if s != [] {
      LeadingSpacesAll(s[1..]);
    }
  }

  /** The first word of a line: everything before its first space. */
  function FirstWord(l: string): string
  {
    if l == [] || l[0] == ' ' then [] else [l[0]] + FirstWord(l[1..])
  }

  lemma {:induction false} FirstWordOf(w: string, rest: string)
    requires NoSpace(w)
    requires rest == [] || rest[0] == ' '
    ensures FirstWord(w + rest) == w
  {
    if w == [] {
      assert w + rest == rest;
    } else {
      assert (w + rest)[1..] == w[1..] + rest;
      FirstWordOf(w[1..], rest);
    }
  }

  predicate Greedy(lines: seq<string>, maxChars: int)
  {
    forall k :: 0 <= k < |lines| - 1 ==> JsLength(lines[k]) + 1 + JsLength(FirstWord(lines[k + 1])) > maxChars
  }

  /** A line in front of a greedy wrap keeps it greedy when the wrap's first
      word would not have fitted on it. */
  lemma GreedyCons(line: string, r: seq<string>, maxChars: int)
    requires r != [] && Greedy(r, maxChars)
    requires JsLength(line) + 1 + JsLength(FirstWord(r[0])) > maxChars
    ensures Greedy([line] + r, maxChars)
  {
    var r' := [line] + r;
    forall k | 0 <= k < |r'| - 1
      ensures JsLength(r'[k]) + 1 + JsLength(FirstWord(r'[k + 1])) > maxChars
    {
      if k > 0 {
        assert r'[k] == r[k - 1] && r'[k + 1] == r[k];
      }
    }
  }

  /** A line that starts with `line + " " + w` starts with `line` followed
      by a space. */
  lemma PrefixThenSpace(line: string, w: string, l: string)
    requires line + " " + w <= l
    ensures line <= l && l[|line|] == ' '
  {
    assert (line + " " + w)[|line|] == ' ';
  }

  lemma {:induction false} FillGreedy(words: seq<string>, line: string, maxChars: int)
    requires line != "" && NoEmptyWord(words)
    requires forall k :: 0 <= k < |words| ==> NoSpace(words[k])
    ensures var r := Fill(words, line, maxChars);
      && r != []
      && line <= r[0] && (|r[0]| == |line| || r[0][|line|] == ' ')
      && Greedy(r, maxChars)
  {
    if words != [] {
      var w := words[0];
      var test := line + " " + w;
      if JsLength(test) > maxChars {
        FillOver(words, line, maxChars);
        JsLengthSpaced(line, w);
        FillGreedy(words[1..], w, maxChars);
        var r' := Fill(words[1..], w, maxChars);
        assert r'[0] == w + r'[0][|w|..];
        FirstWordOf(w, r'[0][|w|..]);
        GreedyCons(line, r', maxChars);
      } else {
        FillUnder(words, line, maxChars);
        FillGreedy(words[1..], test, maxChars);
        var r := Fill(words[1..], test, maxChars);
        PrefixThenSpace(line, w, r[0]);
      }
    }
  }

  /** The wrap is greedy: a new line is started only when the next word would
      not have fitted on the previous one. */
  lemma WrapIsGreedy(text: string, maxChars: int)
    requires text != [] && !IsJsSpace(text[0]) && !IsJsSpace(text[|text| - 1])
    ensures Greedy(Wrapped(text, maxChars), maxChars)
  {
    var words := Split(text);
    SplitWithoutOuterSpace(text);
    var w := words[0];
    FillGreedy(words[1..], w, maxChars);
  }
}
