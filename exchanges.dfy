/** `Exchange` of transcripts-to-vtt.py: one radio transmission, parsed from
    a `((FROM ...) ...)` item and rendered as a WebVTT cue. */
module Exchanges {
  import opened Wrappers
  import opened Text
  import opened Numerals
  import opened Tokenizer
  import opened Lists

  /** An exchange. `source` and `destination` are `None` where Python leaves
      them `None` after a format error; times are in milliseconds. */
  datatype Exchange = Exchange(
    source: Option<string>,
    destination: Option<string>,
    num: string,
    text: string,
    times: seq<nat>,
    comments: seq<string>)

  /** Why `Exchange.parse` does not return: a Python exception or `exit(2)`. */
  datatype ParseError =
    | MissingPart(index: nat)        // IndexError on parts[index]
    | QuoteBeforeWord                // IndexError on final_words[-1]
    | ExpectedText(part: string)     // exit(2)
    | ExpectedTimes(part: string)    // exit(2)
    | BadTime(token: string)         // ValueError from float()
    | ExpectedComment(part: string)  // exit(2)

  // ---------------------------------------------------------------------
  // Field tokenizer

  /** What `_get_one_part` returns: the part up to where the depth scan stops,
      stripped, and the rest after one more dropped character, stripped. */
  function NextPart(content: string): (r: (string, string))
    ensures content != [] ==> |r.1| < |content|
  {
    var k := CutIndex(content);
    (Strip(content[..k]), Strip(Drop(content, k + 1)))
  }

  /** `Exchange._get_one_part`. */
  method GetOnePart(content: string) returns (part: string, rest: string)
    ensures (part, rest) == NextPart(content)
  {
    var raw, index := ScanPart(content);
    NextPartAt(content, index, raw);
    part := Strip(raw);
    rest := Strip(Drop(content, index + 1));
  }

  lemma NextPartAt(content: string, index: nat, raw: string)
    requires index == CutIndex(content) && raw == content[..index]
    ensures NextPart(content) == (Strip(raw), Strip(Drop(content, index + 1)))
  {
    var rest := Drop(content, index + 1);
    assert rest == Drop(content, CutIndex(content) + 1);
  }

  /** The loop condition of `parse`, negated. */
  predicate AtClose(rest: string) {
    Strip(rest) == ")" || rest == ""
  }

  /** The parts the loop of `parse` collects from `rest`: it stops when only a
      closing parenthesis (and whitespace) or nothing is left. */

  function PartsOf(rest: string): seq<string>
    decreases |rest|
  {
    if AtClose(rest) then []
    else
      var (part, next) := NextPart(rest);
      [part] + PartsOf(next)
  }

  lemma PartsOfStep(rest: string, done: seq<string>, part: string, next: string)
    requires !AtClose(rest) && (part, next) == NextPart(rest)
    ensures done + PartsOf(rest) == (done + [part]) + PartsOf(next)
  {
    var ps := PartsOf(next);
    assert PartsOf(rest) == [part] + ps;
    AppendAssoc(done, [part], ps);
  }

  /** The `while` loop of `Exchange.parse` that splits an item into parts. */
  method SplitParts(raw: string) returns (parts: seq<string>)
    ensures parts == PartsOf(RemovePrefix(raw, "("))
  {
    var rest := RemovePrefix(raw, "(");
    ghost var all := PartsOf(rest);
    parts := [];
    while !AtClose(rest)
      invariant parts + PartsOf(rest) == all
      decreases |rest|
    {
      var part, next := GetOnePart(rest);
      PartsOfStep(rest, parts, part, next);
      parts, rest := parts + [part], next;
    }
    assert PartsOf(rest) == [];
  }

  /** A parenthesized group: it opens with `(`, its depth stays positive
      until its last character, and closes there. */
  predicate Group(g: string) {
    2 <= |g| && g[0] == '(' && Depth(g) == 0
    && forall j :: 1 <= j < |g| ==> Depth(g[..j]) > 0
  }

  /** The scan stops exactly at the end of a leading group. */
  lemma CutAtGroup(g: string, x: string)
    requires Group(g)
    ensures CutIndex(g + x) == |g|
  {
    var s := g + x;
    assert forall j :: 0 <= j <= |g| ==> s[..j] == g[..j];
    assert s[..|g|] == g;
    CutIndexUnique(s, |g|);
  }

  /** Groups written one after another with `gaps[i]` between groups `i`
      and `i + 1`. */
  function Joined(groups: seq<string>, gaps: seq<string>): string
    requires |groups| == |gaps| + 1
  {
    if |groups| == 1 then groups[0] else groups[0] + gaps[0] + Joined(groups[1..], gaps[1..])
  }

  /** Non-empty runs of whitespace. */
  predicate Gaps(gaps: seq<string>) {
    forall i :: 0 <= i < |gaps| ==> gaps[i] != [] && forall j :: 0 <= j < |gaps[i]| ==> IsSpace(gaps[i][j])
  }

  predicate Groups(groups: seq<string>) {
    forall i :: 0 <= i < |groups| ==> Group(groups[i])
  }

  /** Joined groups open with a parenthesis and end with one. */
  lemma {:induction false} JoinedShape(groups: seq<string>, gaps: seq<string>)
    requires |groups| == |gaps| + 1 && Groups(groups)
    ensures Joined(groups, gaps) != [] && Joined(groups, gaps)[0] == '('
    ensures Joined(groups, gaps)[|Joined(groups, gaps)| - 1] == ')'
  {
    GroupEnds(groups[0]);
    if |groups| > 1 {
      var s := Joined(groups, gaps);
      var tail := Joined(groups[1..], gaps[1..]);
      JoinedShape(groups[1..], gaps[1..]);
      assert s == groups[0] + gaps[0] + tail;
      assert s[0] == groups[0][0];
      assert s[|s| - 1] == tail[|tail| - 1];
    }
  }

  /** The field tokenizer splits groups separated by whitespace back into
      those groups: the dropped character is always part of a gap (or the
      closing parenthesis of the item), and the stripped remainder starts at
      the next group. */
  lemma {:induction false} PartsOfJoined(groups: seq<string>, gaps: seq<string>)
    requires |groups| == |gaps| + 1 && Groups(groups) && Gaps(gaps)
    ensures PartsOf(Joined(groups, gaps) + ")") == groups
  {
    if |groups| == 1 {
      assert Joined(groups, gaps) == groups[0];
      PartsOfLast(groups[0]);
    } else {
      var head, rest := groups[0], groups[1..];
      JoinedRest(groups, gaps);
      PartsOfJoinedStep(groups, gaps);
      PartsOfJoined(rest, gaps[1..]);
      ConsParts(groups, head, rest, PartsOf(Joined(groups, gaps) + ")"), PartsOf(Joined(rest, gaps[1..]) + ")"));
    }
  }

  lemma ConsParts(groups: seq<string>, head: string, rest: seq<string>, whole: seq<string>, tail: seq<string>)
    requires |groups| > 0 && head == groups[0] && rest == groups[1..]
    requires whole == [head] + tail && tail == rest
    ensures whole == groups
  {
  }

  lemma JoinedRest(groups: seq<string>, gaps: seq<string>)
    requires |groups| == |gaps| + 1 && |groups| > 1 && Groups(groups) && Gaps(gaps)
    ensures Groups(groups[1..]) && Gaps(gaps[1..])
  {
    assert forall i :: 0 <= i < |groups| - 1 ==> groups[1..][i] == groups[i + 1];
    assert forall i :: 0 <= i < |gaps| - 1 ==> gaps[1..][i] == gaps[i + 1];
  }

  lemma PartsOfLast(g: string)
    requires Group(g)
    ensures PartsOf(g + ")") == [g]
  {
    NextPartOfLast(g);
    PartsOfStep(g + ")", [], g, "");
    assert PartsOf("") == [];
    assert [] + PartsOf(g + ")") == PartsOf(g + ")");
    assert ([] + [g]) + [] == [g];
  }

  lemma PartsOfJoinedStep(groups: seq<string>, gaps: seq<string>)
    requires |groups| == |gaps| + 1 && |groups| > 1 && Groups(groups) && Gaps(gaps)
    ensures PartsOf(Joined(groups, gaps) + ")")
         == [groups[0]] + PartsOf(Joined(groups[1..], gaps[1..]) + ")")
  {
    var s := Joined(groups, gaps) + ")";
    var tail := Joined(groups[1..], gaps[1..]) + ")";
    assert s == groups[0] + gaps[0] + tail;
    assert Groups(groups[1..]) by {
      assert forall i :: 0 <= i < |groups| - 1 ==> groups[1..][i] == groups[i + 1];
    }
    JoinedShape(groups[1..], gaps[1..]);
    NextPartOfGroup(groups[0], gaps[0], tail);
    PartsOfStep(s, [], groups[0], tail);
    assert [] + PartsOf(s) == PartsOf(s);
    assert ([] + [groups[0]]) + PartsOf(tail) == [groups[0]] + PartsOf(tail);
  }

  /** The last group: the dropped character is the closing parenthesis of
      the item and nothing is left. */
  lemma NextPartOfLast(g: string)
    requires Group(g)
    ensures !AtClose(g + ")") && NextPart(g + ")") == (g, "")
  {
    var s := g + ")";
    GroupEnds(g);
    assert Trimmed(s) && Trimmed(g);
    CutAtGroup(g, ")");
    assert s[..|g|] == g;
    assert Drop(s, |g| + 1) == [];
  }

  lemma HeadTail<T>(xs: seq<T>, ys: seq<T>, rest: seq<T>)
    requires xs != [] && [] + ys == ([] + [xs[0]]) + rest && rest == xs[1..]
    ensures ys == xs
  {
    assert [] + ys == ys && [] + [xs[0]] == [xs[0]];
    assert ys == [xs[0]] + xs[1..];
  }

  /** One step of the field loop over a group, a gap and what follows. */
  lemma NextPartOfGroup(g: string, gap: string, tail: string)
    requires Group(g) && gap != [] && forall j :: 0 <= j < |gap| ==> IsSpace(gap[j])
    requires tail != [] && tail[0] in "()" && tail[|tail| - 1] == ')'
    ensures !AtClose(g + gap + tail)
    ensures NextPart(g + gap + tail) == (g, tail)
  {
    var s := g + (gap + tail);
    assert s == g + gap + tail;
    assert s[0] == '(' && s[|s| - 1] == ')' && |s| >= 3;
    NotAtCloseParens(s);
    NextPartAfterGroup(g, gap + tail);
    DropPast(g, gap, tail);
    StripAfterGap(gap, tail);
  }

  /** What follows the first character of a gap strips to the next group. */
  lemma StripAfterGap(gap: string, tail: string)
    requires gap != [] && forall j :: 0 <= j < |gap| ==> IsSpace(gap[j])
    requires tail != [] && tail[0] in "()" && tail[|tail| - 1] == ')'
    ensures Strip(gap[1..] + tail) == tail
  {
    StripSpaces(gap[1..], tail);
  }

  /** Dropping a prefix and one more character. */
  lemma DropPast(a: string, b: string, c: string)
    requires b != []
    ensures Drop(a + (b + c), |a| + 1) == b[1..] + c
  {
    var s := a + (b + c);
    assert s[|a|..] == b + c;
    assert s[|a| + 1..] == (b + c)[1..];
    assert (b + c)[1..] == b[1..] + c;
  }

  /** The scan over a leading group yields the group, and the rest after
      its closing parenthesis and one more character. */
  lemma NextPartAfterGroup(g: string, x: string)
    requires Group(g)
    ensures NextPart(g + x) == (g, Strip(Drop(g + x, |g| + 1)))
  {
    var s := g + x;
    CutAtGroup(g, x);
    assert s[..CutIndex(s)] == s[..|g|] == g;
    assert Drop(s, CutIndex(s) + 1) == Drop(s, |g| + 1);
    GroupTrimmed(g);
  }

  /** Text that opens and closes with a parenthesis is not the loop's end. */
  lemma NotAtCloseParens(s: string)
    requires |s| >= 3 && s[0] == '(' && s[|s| - 1] == ')'
    ensures !AtClose(s)
  {
    assert Trimmed(s);
  }

  /** A group is its own stripped form. */
  lemma GroupTrimmed(g: string)
    requires Group(g)
    ensures Trimmed(g) && Strip(g) == g
  {
    GroupEnds(g);
  }

  /** A group ends with its closing parenthesis. */
  lemma GroupEnds(g: string)
    requires Group(g)
    ensures g[|g| - 1] == ')'
  {
    assert g[..|g| - 1] + [g[|g| - 1]] == g;
    DepthSnoc(g[..|g| - 1], g[|g| - 1]);
  }

  /** Stripping whitespace in front of a text that starts and ends with
      parentheses leaves that text. */
  lemma StripSpaces(sp: string, t: string)
    requires forall j :: 0 <= j < |sp| ==> IsSpace(sp[j])
    requires t != [] && t[0] in "()" && t[|t| - 1] == ')'
    ensures Strip(sp + t) == t
  {
    assert !IsSpace(t[0]) && !IsSpace(t[|t| - 1]);
    LStripBlank(sp, t);
  }

  /** Written without gaps, groups are not split back: `_get_one_part`
      drops the opening parenthesis of the second group. */
  lemma AdjacentGroupsNotSplit(from: string, rest: string)
    requires from == "(FROM A)" && rest == "(TO B))"
    ensures |PartsOf(from + rest)| >= 2
    ensures PartsOf(from + rest)[..2] == [from, "TO"]
  {
    FromGroup(from);
    assert rest[1..] == "TO B))";
    NextPartOfAdjacent(from, rest);
    PartsOfStep(from + rest, [], from, rest[1..]);
    SecondPart(rest[1..]);
    FirstTwo(PartsOf(from + rest), from, PartsOf(rest[1..]));
  }

  lemma FirstTwo<T>(ps: seq<T>, a: T, q: seq<T>)
    requires ps == [a] + q && q != []
    ensures |ps| >= 2 && ps[..2] == [a, q[0]]
  {
  }

  lemma FromGroup(g: string)
    requires g == "(FROM A)"
    ensures Group(g)
  {
    assert g[..1] == "(";
    assert Depth(g[..1]) == 1;
    assert forall j :: 1 <= j < |g| ==> Depth(g[..j]) == 1 by {
      forall j | 1 <= j < |g| ensures Depth(g[..j]) == 1 {
        var k := 1;
        while k < j
          invariant 1 <= k <= j && Depth(g[..k]) == 1
        {
          assert g[..k + 1] == g[..k] + [g[k]];
          DepthSnoc(g[..k], g[k]);
          k := k + 1;
        }
      }
    }
    assert g == g[..7] + [')'];
    DepthSnoc(g[..7], ')');
  }

  /** After a group the scan drops the next character, even when it is the
      opening parenthesis of the next group. */
  lemma NextPartOfAdjacent(g: string, x: string)
    requires Group(g) && x != [] && Trimmed(x[1..])
    ensures !AtClose(g + x)
    ensures NextPart(g + x) == (g, x[1..])
  {
    var s := g + x;
    GroupEnds(g);
    CutAtGroup(g, x);
    assert s[..|g|] == g;
    assert Trimmed(g);
    assert Drop(s, |g| + 1) == x[1..];
    assert s[0] == '(' && |s| >= 3;
  }

  lemma SecondPart(t: string)
    requires t == "TO B))"
    ensures PartsOf(t) != [] && PartsOf(t)[0] == "TO"
  {
    assert Depth(t[..2]) == 0 by {
      assert t[..2] == [] + ['T'] + ['O'];
      DepthSnoc([] + ['T'], 'O');
      DepthSnoc([], 'T');
    }
    assert Depth(t[..2]) == 0;
    CutIndexUnique(t, 2);
    assert t[..2] == "TO";
    assert Trimmed("TO");
    assert Trimmed(t);
  }

  // ---------------------------------------------------------------------
  // TEXT normalisation

  /** `word[:-1]` */
  function DropLast(word: string): string {
    if word == [] then [] else word[..|word| - 1]
  }

  /** The state of the word loop: `final_words` and `do_quote`. */
  datatype QuoteState = QuoteState(words: seq<string>, pending: bool)

  /** One iteration of the word loop; `None` where `final_words[-1]` raises
      IndexError. */
  function QuoteStep(st: QuoteState, word: string): Option<QuoteState> {
    if st.pending then
      if st.words == [] then None
      else
        var last := st.words[|st.words| - 1];
        Some(QuoteState(st.words[..|st.words| - 1] + [last + "'" + DropLast(word)], false))
    else if word == "(QUOTE" then Some(QuoteState(st.words, true))
    else Some(QuoteState(st.words + [word], false))
  }

  /** The word loop run over `words` from `st`. */
  function MergeFrom(st: QuoteState, words: seq<string>): Option<QuoteState>
    decreases |words|
  {
    if words == [] then Some(st)
    else
      match QuoteStep(st, words[0])
      case None => None
      case Some(next) => MergeFrom(next, words[1..])
  }

  function MergeQuotes(words: seq<string>): Option<QuoteState> {
    MergeFrom(QuoteState([], false), words)
  }

  /** The word loop of `Exchange.parse`: a `(QUOTE` word sets `do_quote`, and
      the word after it, less its last character, is glued to the previous
      kept word after an apostrophe. */
  method JoinQuotes(words: seq<string>) returns (r: Option<seq<string>>)
    ensures r.None? <==> MergeQuotes(words).None?
    ensures r.Some? ==> r.value == MergeQuotes(words).value.words
  {
    var finalWords: seq<string> := [];
    var doQuote := false;
    var i := 0;
    while i < |words|
      invariant i <= |words|
      invariant MergeFrom(QuoteState(finalWords, doQuote), words[i..]) == MergeQuotes(words)
    {
      var word := words[i];
      assert words[i..][1..] == words[i + 1..];
      if doQuote {
        if finalWords == [] {
          return None;
        }
        finalWords := finalWords[..|finalWords| - 1] + [finalWords[|finalWords| - 1] + "'" + DropLast(word)];
        doQuote := false;
        i := i + 1;
        continue;
      }
      if word == "(QUOTE" {
        doQuote := true;
      } else {
        finalWords := finalWords + [word];
      }
      i := i + 1;
    }
    assert words[i..] == [];
    return Some(finalWords);
  }

  /** Words carried through `QuoteStep` stay non-empty and free of
      whitespace, and none of them is the marker `(QUOTE` itself. */
  predicate Kept(ws: seq<string>) {
    Words(ws) && forall i :: 0 <= i < |ws| ==> ws[i] != "(QUOTE"
  }

  lemma {:induction false} MergeFromKept(st: QuoteState, words: seq<string>)
    requires Kept(st.words) && Words(words)
    requires MergeFrom(st, words).Some?
    ensures Kept(MergeFrom(st, words).value.words)
    decreases |words|
  {
    if words != [] {
      var next := QuoteStep(st, words[0]).value;
      if st.pending {
        var last := st.words[|st.words| - 1];
        var glued := last + "'" + DropLast(words[0]);
        assert glued[|last|] == '\'';
        assert forall j :: 0 <= j < |glued| ==> !IsSpace(glued[j]) by {
          assert forall j :: 0 <= j < |last| ==> glued[j] == last[j];
          assert forall j :: |last| < j < |glued| ==> glued[j] == words[0][j - |last| - 1];
        }
        assert glued != "(QUOTE" by { assert |glued| != 6 || glued[5] != 'E' || last != "(QUOT"; }
      }
      MergeFromKept(next, words[1..]);
    }
  }

  /** A `(QUOTE` marker never reaches the output: every word the loop keeps
      is a plain word of the text or such a word with an apostrophe and a
      suffix glued on, and none is the marker. */
  lemma MergeQuotesKept(words: seq<string>)
    requires Words(words) && MergeQuotes(words).Some?
    ensures Kept(MergeQuotes(words).value.words)
  {
    MergeFromKept(QuoteState([], false), words);
  }

  /** Text without a `(QUOTE` marker keeps its words unchanged. */
  lemma {:induction false} MergeFromPlain(st: QuoteState, words: seq<string>)
    requires !st.pending
    requires forall i :: 0 <= i < |words| ==> words[i] != "(QUOTE"
    ensures MergeFrom(st, words) == Some(QuoteState(st.words + words, false))
    decreases |words|
  {
    if words == [] {
      assert st.words + words == st.words;
    } else {
      MergeFromPlain(QuoteState(st.words + [words[0]], false), words[1..]);
      assert st.words + [words[0]] + words[1..] == st.words + words;
    }
  }

  /** Once a word has been kept, the loop cannot fail. */
  lemma {:induction false} MergeFromNonEmpty(st: QuoteState, words: seq<string>)
    requires st.words != []
    ensures MergeFrom(st, words).Some?
    decreases |words|
  {
    if words != [] {
      MergeFromNonEmpty(QuoteStep(st, words[0]).value, words[1..]);
    }
  }

  /** The loop fails exactly when the text opens with `(QUOTE` and has a
      word after it. */
  lemma MergeQuotesFails(words: seq<string>)
    ensures MergeQuotes(words).None? <==> (|words| >= 2 && words[0] == "(QUOTE")
  {
    var st := QuoteState([], false);
    if words != [] {
      assert MergeQuotes(words) == MergeFrom(QuoteStep(st, words[0]).value, words[1..]);
      if words[0] == "(QUOTE" {
        var p := QuoteState([], true);
        assert QuoteStep(st, words[0]) == Some(p);
        if |words| >= 2 {
          assert QuoteStep(p, words[1]) == None;
          assert MergeFrom(p, words[1..]) == None;
        }
      } else {
        assert QuoteStep(st, words[0]) == Some(QuoteState(st.words + [words[0]], false));
        assert st.words + [words[0]] == [words[0]];
        MergeFromNonEmpty(QuoteState([words[0]], false), words[1..]);
      }
    }
  }

  /** The normalised TEXT field: words split on whitespace, quotes merged,
      joined with single spaces, then capitalized. */
  function NormalizeText(raw: string): Result<string, ParseError> {
    match MergeQuotes(SplitWs(raw))
    case None => Failure(QuoteBeforeWord)
    case Some(st) => Success(Capitalize(Join(st.words, " ")))
  }

  /** The normalised text is one line of single-spaced words (no newline,
      no whitespace at either end); normalising fails only when the text
      opens with `(QUOTE` followed by another word. */
  lemma NormalizeTextShape(raw: string)
    ensures NormalizeText(raw).Failure? <==> (|SplitWs(raw)| >= 2 && SplitWs(raw)[0] == "(QUOTE")
    ensures NormalizeText(raw).Success? ==> SingleSpaced(NormalizeText(raw).value)
  {
    MergeQuotesFails(SplitWs(raw));
    if NormalizeText(raw).Success? {
      var ws := MergeQuotes(SplitWs(raw)).value.words;
      MergeQuotesKept(SplitWs(raw));
      JoinShape(ws);
      CapitalizeSingleSpaced(Join(ws, " "));
    }
  }

  /** Without `(QUOTE`, normalising is joining the words with single spaces
      and capitalizing. */
  lemma NormalizePlain(ws: seq<string>)
    requires Words(ws) && forall i :: 0 <= i < |ws| ==> ws[i] != "(QUOTE"
    ensures NormalizeText(Join(ws, " ")) == Success(Capitalize(Join(ws, " ")))
  {
    SplitJoin(ws);
    MergeFromPlain(QuoteState([], false), ws);
    assert [] + ws == ws;
  }

  /** The worked example of the notation: `can (QUOTE t) go` reads "Can't go". */
  lemma NormalizeContraction(raw: string)
    requires raw == "can (QUOTE t) go"
    ensures NormalizeText(raw) == Success("Can't go")
  {
    var ws := ["can", "(QUOTE", "t)", "go"];
    var merged := ["can't", "go"];
    ContractionWords(raw, ws);
    ContractionSteps(ws, merged);
    ContractionCapitalized(merged);
    NormalizeMerged(raw, ws, merged, "Can't go");
  }

  lemma NormalizeMerged(raw: string, ws: seq<string>, merged: seq<string>, t: string)
    requires SplitWs(raw) == ws && MergeQuotes(ws) == Some(QuoteState(merged, false))
    requires Capitalize(Join(merged, " ")) == t
    ensures NormalizeText(raw) == Success(t)
  {
  }

  lemma ContractionWords(raw: string, ws: seq<string>)
    requires raw == "can (QUOTE t) go" && ws == ["can", "(QUOTE", "t)", "go"]
    ensures SplitWs(raw) == ws
  {
    assert Words(ws);
    SplitJoin(ws);
    JoinExample(ws, raw);
  }

  lemma ContractionCapitalized(merged: seq<string>)
    requires merged == ["can't", "go"]
    ensures Capitalize(Join(merged, " ")) == "Can't go"
  {
    assert Join(merged, " ") == "can't" + " " + "go";
    CapitalizeExample(Join(merged, " "));
  }

  lemma JoinExample(ws: seq<string>, raw: string)
    requires ws == ["can", "(QUOTE", "t)", "go"] && raw == "can (QUOTE t) go"
    ensures Join(ws, " ") == raw
  {
    assert Join(ws[3..], " ") == "go";
    assert Join(ws[2..], " ") == "t)" + " " + "go";
    assert Join(ws[1..], " ") == "(QUOTE" + " " + ("t)" + " " + "go");
    assert Join(ws, " ") == "can" + " " + ("(QUOTE" + " " + ("t)" + " " + "go"));
  }

  lemma ContractionSteps(ws: seq<string>, merged: seq<string>)
    requires ws == ["can", "(QUOTE", "t)", "go"] && merged == ["can't", "go"]
    ensures MergeQuotes(ws) == Some(QuoteState(merged, false))
  {
    var s0 := QuoteState([], false);
    var s1 := QuoteState(s0.words + [ws[0]], false);
    var s2 := QuoteState(s1.words, true);
    var s3 := QuoteState(s2.words[..0] + [s2.words[0] + "'" + DropLast(ws[2])], false);
    var s4 := QuoteState(s3.words + [ws[3]], false);
    assert ws[0] != "(QUOTE" && ws[3] != "(QUOTE";
    assert QuoteStep(s0, ws[0]) == Some(s1);
    assert QuoteStep(s1, ws[1]) == Some(s2);
    assert QuoteStep(s2, ws[2]) == Some(s3);
    assert QuoteStep(s3, ws[3]) == Some(s4);
    assert MergeFrom(s4, ws[4..]) == Some(s4);
    assert MergeFrom(s3, ws[3..]) == Some(s4);
    assert MergeFrom(s2, ws[2..]) == Some(s4);
    assert MergeFrom(s1, ws[1..]) == Some(s4);
    assert DropLast(ws[2]) == "t";
    assert s2.words == ["can"];
    assert s2.words[0] + "'" + "t" == "can't";
    assert s3.words == ["can't"];
    assert s4.words == merged;
  }

  lemma CapitalizeExample(s: string)
    requires s == "can't go"
    ensures Capitalize(s) == "Can't go"
  {
    var c := Capitalize(s);
    assert c[0] == 'C';
    forall i | 1 <= i < |c| ensures c[i] == s[i] {
      assert c[i] == Lower(s[i]);
    }
  }

  // ---------------------------------------------------------------------
  // Fields

  /** `part.split(tag)[1].removesuffix(')').strip()` for a part that starts
      with `tag`. */
  function FieldValue(part: string, tag: string): string
    requires tag != [] && StartsWith(part, tag)
  {
    Strip(RemoveSuffix(Before(part[|tag|..], tag), ")"))
  }

  /** `[float(time) for time in tokens]`; the first token `float` rejects
      is the error. */
  function ParseTimes(tokens: seq<string>): (r: Result<seq<nat>, ParseError>)
    ensures r.Success? ==> |r.value| == |tokens|
  {
    Traverse(tokens, ParseMillis, BadTimeOf)
  }

  function BadTimeOf(token: string): ParseError {
    BadTime(token)
  }

  /** The times are read exactly when every token is a number; time `i` is
      then the value of token `i`, and otherwise the error names a token
      `float` rejects. */
  lemma ParseTimesSpec(tokens: seq<string>)
    ensures ParseTimes(tokens).Success? <==> forall i :: 0 <= i < |tokens| ==> ParseMillis(tokens[i]).Some?
    ensures ParseTimes(tokens).Success? ==>
      forall i :: 0 <= i < |tokens| ==> ParseMillis(tokens[i]) == Some(ParseTimes(tokens).value[i])
    ensures ParseTimes(tokens).Failure? ==>
      exists i :: 0 <= i < |tokens| && ParseMillis(tokens[i]).None? && ParseTimes(tokens).error == BadTime(tokens[i])
  {
    TraverseOk(tokens, ParseMillis, BadTimeOf);
    if ParseTimes(tokens).Success? {
      TraverseValues(tokens, ParseMillis, BadTimeOf);
    } else {
      TraverseError(tokens, ParseMillis, BadTimeOf);
    }
  }

  /** The comment loop over `parts[6:]`: every part must be a `(COMMENT`
      field; the first that is not ends the program (`exit(2)`). */
  function ParseComments(parts: seq<string>): (r: Result<seq<string>, ParseError>)
    ensures r.Success? ==> |r.value| == |parts|
  {
    Traverse(parts, CommentValue, BadCommentOf)
  }

  /** The text of a COMMENT part, `None` for a part of any other kind. */
  function CommentValue(part: string): Option<string> {
    if StartsWith(part, "(COMMENT") then Some(FieldValue(part, "(COMMENT")) else None
  }

  /** The error for a part in the comment position that is not a COMMENT. */
  function BadCommentOf(part: string): ParseError {
    ExpectedComment(part)
  }

  /** The comment loop succeeds exactly when every part is a COMMENT. */
  lemma ParseCommentsOk(parts: seq<string>)
    ensures ParseComments(parts).Success? <==> forall i :: 0 <= i < |parts| ==> StartsWith(parts[i], "(COMMENT")
  {
    TraverseOk(parts, CommentValue, BadCommentOf);
    assert forall i :: 0 <= i < |parts| ==> (CommentValue(parts[i]).Some? <==> StartsWith(parts[i], "(COMMENT"));
  }

  /** Comment `i` is the value of part `i`. */
  lemma ParseCommentsValues(parts: seq<string>)
    requires ParseComments(parts).Success?
    ensures Pairwise(parts, ParseComments(parts).value, CommentOf)
  {
    var cs := ParseComments(parts).value;
    TraverseValues(parts, CommentValue, BadCommentOf);
    forall k | 0 <= k < |parts|
      ensures CommentOf(parts[k], cs[k])
    {
      assert CommentValue(parts[k]) == Some(cs[k]);
    }
  }

  /** `c` is the text of the COMMENT field `part`. */
  predicate CommentOf(part: string, c: string) {
    StartsWith(part, "(COMMENT") && c == FieldValue(part, "(COMMENT")
  }

  /** `parts` once `parse` has inserted the placeholder for a missing NUM. */
  function Aligned(parts: seq<string>): seq<string>
    requires |parts| >= 2
  {
    if StartsWith(parts[1], "(NUM") then parts else parts[..1] + [""] + parts[1..]
  }

  /** `parts[6:]`: the parts read as comments; the part at index 5 is
      never read. */
  function CommentParts(parts: seq<string>): seq<string> {
    if |parts| > 6 then parts[6..] else []
  }

  /** What `Exchange.parse` does with its list of parts, in the order Python
      evaluates it: FROM and NUM first, which decide the alignment of the
      rest. */
  function ExchangeOfParts(parts: seq<string>): Result<Exchange, ParseError> {
    if |parts| < 1 then Failure(MissingPart(0))
    else
      var source := if StartsWith(parts[0], "(FROM") then Some(FieldValue(parts[0], "(FROM")) else None;
      if |parts| < 2 then Failure(MissingPart(1))
      else
        var num := if StartsWith(parts[1], "(NUM") then FieldValue(parts[1], "(NUM") else "none";
        AlignedFields(Aligned(parts), source, num)
  }

  /** TO and TEXT, read from the aligned parts. */
  function AlignedFields(parts: seq<string>, source: Option<string>, num: string): Result<Exchange, ParseError> {
    if |parts| < 3 then Failure(MissingPart(2))
    else
      var destination := if StartsWith(parts[2], "(TO") then Some(FieldValue(parts[2], "(TO")) else None;
      if |parts| < 4 then Failure(MissingPart(3))
      else if !StartsWith(parts[3], "(TEXT") then Failure(ExpectedText(parts[3]))
      else
        match NormalizeText(FieldValue(parts[3], "(TEXT"))
        case Failure(e) => Failure(e)
        case Success(text) => TimedFields(parts, Exchange(source, destination, num, text, [], []))
  }

  /** TIMES and the comments, completing `e`. */
  function TimedFields(parts: seq<string>, e: Exchange): Result<Exchange, ParseError> {
    if |parts| < 5 then Failure(MissingPart(4))
    else TimesAndComments(parts[4], CommentParts(parts), e)
  }

  /** The TIMES part, then the comment parts. */
  function TimesAndComments(timesPart: string, commentParts: seq<string>, e: Exchange): Result<Exchange, ParseError> {
    if !StartsWith(timesPart, "(TIMES ") then Failure(ExpectedTimes(timesPart))
    else
      match ParseTimes(SplitWs(FieldValue(timesPart, "(TIMES ")))
      case Failure(err) => Failure(err)
      case Success(times) =>
        match ParseComments(commentParts)
        case Failure(err) => Failure(err)
        case Success(comments) => Success(e.(times := times, comments := comments))
  }

  /** `Exchange.parse` as a function of the raw item. */
  function ParseExchange(raw: string): Result<Exchange, ParseError> {
    ExchangeOfParts(PartsOf(RemovePrefix(raw, "(")))
  }

  /** The text of an exchange `parse` accepts is trimmed and holds no
      newline. */
  lemma ParsedTextOneLine(raw: string)
    requires ParseExchange(raw).Success?
    ensures Trimmed(ParseExchange(raw).value.text) && '\n' !in ParseExchange(raw).value.text
  {
    var parts := PartsOf(RemovePrefix(raw, "("));
    var source := if StartsWith(parts[0], "(FROM") then Some(FieldValue(parts[0], "(FROM")) else None;
    var num := if StartsWith(parts[1], "(NUM") then FieldValue(parts[1], "(NUM") else "none";
    var aligned := Aligned(parts);
    AlignedFieldsSpec(aligned, source, num);
    NormalizeTextShape(FieldValue(aligned[3], "(TEXT"));
    SingleSpacedOneLine(ParseExchange(raw).value.text);
  }

  /** The comment loop of `Exchange.parse`. */
  method ReadComments(parts: seq<string>) returns (r: Result<seq<string>, ParseError>)
    ensures r == ParseComments(CommentParts(parts))
  {
    var comments: seq<string> := [];
    if |parts| <= 6 {
      return Success(comments);
    }
    var i := 6;
    PrependNothing(ParseComments(parts[6..]));
    while i < |parts|
      invariant 6 <= i <= |parts|
      invariant ParseComments(parts[6..]) == PrependComments(comments, ParseComments(parts[i..]))
    {
      var part := parts[i];
      if !StartsWith(part, "(COMMENT") {
        return Failure(ExpectedComment(part));
      }
      CommentStep(comments, parts[i..]);
      assert parts[i..][1..] == parts[i + 1..];
      assert ParseComments(parts[6..]) == PrependComments(comments + [FieldValue(part, "(COMMENT")], ParseComments(parts[i + 1..]));
      comments := comments + [FieldValue(part, "(COMMENT")];
      i := i + 1;
    }
    assert parts[i..] == [];
    assert comments + [] == comments;
    r := Success(comments);
  }

  lemma PrependNothing(r: Result<seq<string>, ParseError>)
    ensures PrependComments([], r) == r
  {
    if r.Success? {
      assert [] + r.value == r.value;
    }
  }

  lemma CommentStep(cs: seq<string>, ps: seq<string>)
    requires ps != [] && StartsWith(ps[0], "(COMMENT")
    ensures PrependComments(cs, ParseComments(ps))
         == PrependComments(cs + [FieldValue(ps[0], "(COMMENT")], ParseComments(ps[1..]))
  {
    if ParseComments(ps[1..]).Success? {
      assert cs + ([FieldValue(ps[0], "(COMMENT")] + ParseComments(ps[1..]).value)
          == cs + [FieldValue(ps[0], "(COMMENT")] + ParseComments(ps[1..]).value;
    }
  }

  /** Comments already read in front of the result of reading the rest. */
  function PrependComments(cs: seq<string>, r: Result<seq<string>, ParseError>): Result<seq<string>, ParseError> {
    match r
    case Failure(e) => Failure(e)
    case Success(rest) => Success(cs + rest)
  }

  /** `Exchange.parse`: split the item into parts, insert the placeholder for
      a missing NUM, then read the fields in their fixed order. */
  method Parse(raw: string) returns (r: Result<Exchange, ParseError>)
    ensures r == ParseExchange(raw)
  {
    var parts := SplitParts(raw);
    ghost var read := parts;
    if |parts| < 1 {
      return Failure(MissingPart(0));
    }
    var source: Option<string> := None;
    if StartsWith(parts[0], "(FROM") {
      source := Some(FieldValue(parts[0], "(FROM"));
    }
    if |parts| < 2 {
      return Failure(MissingPart(1));
    }
    var num: string;
    if StartsWith(parts[1], "(NUM") {
      num := FieldValue(parts[1], "(NUM");
    } else {
      num := "none";
      parts := parts[..1] + [""] + parts[1..];
    }
    AlignedParse(read, parts, source, num);
    r := ReadAligned(parts, source, num);
  }

  /** With at least two parts, the result is decided by the aligned parts,
      the FROM value and the NUM value or its placeholder. */
  lemma AlignedParse(read: seq<string>, parts: seq<string>, source: Option<string>, num: string)
    requires |read| >= 2
    requires source == if StartsWith(read[0], "(FROM") then Some(FieldValue(read[0], "(FROM")) else None
    requires num == if StartsWith(read[1], "(NUM") then FieldValue(read[1], "(NUM") else "none"
    requires parts == if StartsWith(read[1], "(NUM") then read else read[..1] + [""] + read[1..]
    ensures ExchangeOfParts(read) == AlignedFields(parts, source, num)
  {
  }

  /** The part of `Exchange.parse` after the NUM placeholder: TO, TEXT with
      its word loop, TIMES and the comment loop. */
  method ReadAligned(parts: seq<string>, source: Option<string>, num: string) returns (r: Result<Exchange, ParseError>)
    ensures r == AlignedFields(parts, source, num)
  {
    if |parts| < 3 {
      return Failure(MissingPart(2));
    }
    var destination: Option<string> := None;
    if StartsWith(parts[2], "(TO") {
      destination := Some(FieldValue(parts[2], "(TO"));
    }
    if |parts| < 4 {
      return Failure(MissingPart(3));
    }
    if !StartsWith(parts[3], "(TEXT") {
      return Failure(ExpectedText(parts[3]));
    }
    var finalWords := JoinQuotes(SplitWs(FieldValue(parts[3], "(TEXT")));
    if finalWords.None? {
      return Failure(QuoteBeforeWord);
    }
    var text := Capitalize(Join(finalWords.value, " "));
    var e := Exchange(source, destination, num, text, [], []);
    if |parts| < 5 {
      return Failure(MissingPart(4));
    }
    if !StartsWith(parts[4], "(TIMES ") {
      return Failure(ExpectedTimes(parts[4]));
    }
    var times := ParseTimes(SplitWs(FieldValue(parts[4], "(TIMES ")));
    if times.Failure? {
      return Failure(times.error);
    }
    var comments := ReadComments(parts);
    if comments.Failure? {
      return Failure(comments.error);
    }
    r := Success(e.(times := times.value, comments := comments.value));
  }

  // ---------------------------------------------------------------------
  // What `parse` reads from which part

  /** The optional fields: a missing FROM or TO leaves the field `None`
      without stopping the parse. */
  function OptionalField(part: string, tag: string): (r: Option<string>)
    requires tag != []
    ensures r.None? <==> !StartsWith(part, tag)
  {
    if StartsWith(part, tag) then Some(FieldValue(part, tag)) else None
  }

  /** The comment loop over the parts from index `k` on: it succeeds
      exactly when each of them is a COMMENT. */
  lemma CommentsFrom(parts: seq<string>, k: nat)
    ensures ParseComments(if |parts| > k then parts[k..] else []).Success?
        <==> forall i :: k <= i < |parts| ==> StartsWith(parts[i], "(COMMENT")
  {
    if |parts| > k {
      var c := parts[k..];
      ParseCommentsOk(c);
      assert forall i :: k <= i < |parts| ==> parts[i] == c[i - k];
      assert forall i :: 0 <= i < |c| ==> c[i] == parts[i + k];
    }
  }

  /** TIMES and the comments: the exchange is completed exactly when part 4
      is a TIMES field that reads cleanly and the comments do. */
  lemma TimedFieldsSpec(parts: seq<string>, e: Exchange)
    ensures var r := TimedFields(parts, e);
      (r.Success? <==> (|parts| >= 5 && StartsWith(parts[4], "(TIMES ")
        && ParseTimes(SplitWs(FieldValue(parts[4], "(TIMES "))).Success?
        && ParseComments(CommentParts(parts)).Success?))
      && (r.Success? ==>
        r.value.source == e.source && r.value.destination == e.destination
        && r.value.num == e.num && r.value.text == e.text
        && Success(r.value.times) == ParseTimes(SplitWs(FieldValue(parts[4], "(TIMES ")))
        && Success(r.value.comments) == ParseComments(CommentParts(parts)))
  {
  }

  /** TO and TEXT, then TIMES and the comments, from aligned parts. */
  lemma AlignedFieldsSpec(parts: seq<string>, source: Option<string>, num: string)
    ensures var r := AlignedFields(parts, source, num);
      (r.Success? <==> (|parts| >= 5 && StartsWith(parts[3], "(TEXT") && StartsWith(parts[4], "(TIMES ")
        && NormalizeText(FieldValue(parts[3], "(TEXT")).Success?
        && ParseTimes(SplitWs(FieldValue(parts[4], "(TIMES "))).Success?
        && ParseComments(CommentParts(parts)).Success?))
      && (r.Success? ==>
        r.value.source == source && r.value.num == num
        && r.value.destination == OptionalField(parts[2], "(TO")
        && Success(r.value.text) == NormalizeText(FieldValue(parts[3], "(TEXT"))
        && Success(r.value.times) == ParseTimes(SplitWs(FieldValue(parts[4], "(TIMES ")))
        && Success(r.value.comments) == ParseComments(CommentParts(parts)))
  {
    var r := AlignedFields(parts, source, num);
    if |parts| >= 4 && StartsWith(parts[3], "(TEXT") {
      var n := NormalizeText(FieldValue(parts[3], "(TEXT"));
      if n.Success? {
        var e := Exchange(source, OptionalField(parts[2], "(TO"), num, n.value, [], []);
        assert r == TimedFields(parts, e);
        TimedFieldsSpec(parts, e);
      } else {
        assert r == Failure(n.error);
      }
    } else {
      assert r.Failure?;
    }
  }

  /** With NUM present, `parse` succeeds exactly when TEXT and TIMES sit at
      indices 3 and 4 and read cleanly and every part from index 6 on is a
      COMMENT. */
  lemma ParseWithNum(parts: seq<string>)
    requires |parts| >= 2 && StartsWith(parts[1], "(NUM")
    ensures ExchangeOfParts(parts).Success? <==>
      (|parts| >= 5 && StartsWith(parts[3], "(TEXT") && StartsWith(parts[4], "(TIMES ")
       && NormalizeText(FieldValue(parts[3], "(TEXT")).Success?
       && ParseTimes(SplitWs(FieldValue(parts[4], "(TIMES "))).Success?
       && forall i :: 6 <= i < |parts| ==> StartsWith(parts[i], "(COMMENT"))
  {
    WithNumAligned(parts);
    CommentsFrom(parts, 6);
  }

  /** With NUM present, each field of a parsed exchange comes from its own
      part, in order (the shape required here is the one `ParseWithNum`
      shows every successful parse to have). */
  lemma ParseWithNumFields(parts: seq<string>)
    requires |parts| >= 5 && StartsWith(parts[1], "(NUM") && ExchangeOfParts(parts).Success?
    requires StartsWith(parts[3], "(TEXT") && StartsWith(parts[4], "(TIMES ")
    requires forall i :: 6 <= i < |parts| ==> StartsWith(parts[i], "(COMMENT")
    ensures var e := ExchangeOfParts(parts).value;
      e.source == OptionalField(parts[0], "(FROM")
      && e.num == FieldValue(parts[1], "(NUM")
      && e.destination == OptionalField(parts[2], "(TO")
      && Success(e.text) == NormalizeText(FieldValue(parts[3], "(TEXT"))
      && Success(e.times) == ParseTimes(SplitWs(FieldValue(parts[4], "(TIMES ")))
      && Pairwise(if |parts| > 6 then parts[6..] else [], e.comments, CommentOf)
  {
    WithNumAligned(parts);
    var e := ExchangeOfParts(parts).value;
    var r := ParseComments(if |parts| > 6 then parts[6..] else []);
    assert Success(e.comments) == r;
    ParseCommentsValues(if |parts| > 6 then parts[6..] else []);
  }

  lemma WithNumAligned(parts: seq<string>)
    requires |parts| >= 2 && StartsWith(parts[1], "(NUM")
    ensures var source, num := OptionalField(parts[0], "(FROM"), FieldValue(parts[1], "(NUM");
      var r := AlignedFields(parts, source, num);
      && ExchangeOfParts(parts) == r
      && (r.Success? <==> (|parts| >= 5 && StartsWith(parts[3], "(TEXT") && StartsWith(parts[4], "(TIMES ")
        && NormalizeText(FieldValue(parts[3], "(TEXT")).Success?
        && ParseTimes(SplitWs(FieldValue(parts[4], "(TIMES "))).Success?
        && ParseComments(if |parts| > 6 then parts[6..] else []).Success?))
      && (r.Success? ==>
        r.value.source == source && r.value.num == num
        && r.value.destination == OptionalField(parts[2], "(TO")
        && Success(r.value.text) == NormalizeText(FieldValue(parts[3], "(TEXT"))
        && Success(r.value.times) == ParseTimes(SplitWs(FieldValue(parts[4], "(TIMES ")))
        && Success(r.value.comments) == ParseComments(if |parts| > 6 then parts[6..] else []))
  {
    var source, num := OptionalField(parts[0], "(FROM"), FieldValue(parts[1], "(NUM");
    assert Aligned(parts) == parts;
    AlignedFieldsSpec(parts, source, num);
    assert CommentParts(parts) == if |parts| > 6 then parts[6..] else [];
  }

  /** Without NUM, `num` is "none" and the placeholder shifts every later
      field by one: `parse` succeeds exactly when TEXT and TIMES sit at the
      original indices 2 and 3 and read cleanly and every part from the
      original index 5 on is a COMMENT. */
  lemma ParseWithoutNum(parts: seq<string>)
    requires |parts| >= 2 && !StartsWith(parts[1], "(NUM")
    ensures ExchangeOfParts(parts).Success? <==>
      (|parts| >= 4 && StartsWith(parts[2], "(TEXT") && StartsWith(parts[3], "(TIMES ")
       && NormalizeText(FieldValue(parts[2], "(TEXT")).Success?
       && ParseTimes(SplitWs(FieldValue(parts[3], "(TIMES "))).Success?
       && forall i :: 5 <= i < |parts| ==> StartsWith(parts[i], "(COMMENT"))
  {
    WithoutNumAligned(parts);
    CommentsFrom(parts, 5);
  }

  /** Without NUM, TO, TEXT and TIMES are read from the original parts 1, 2
      and 3, and the comments from the original index 5 on (the shape
      required here is the one `ParseWithoutNum` shows every successful
      parse to have). */
  lemma ParseWithoutNumFields(parts: seq<string>)
    requires |parts| >= 4 && !StartsWith(parts[1], "(NUM") && ExchangeOfParts(parts).Success?
    requires StartsWith(parts[2], "(TEXT") && StartsWith(parts[3], "(TIMES ")
    requires forall i :: 5 <= i < |parts| ==> StartsWith(parts[i], "(COMMENT")
    ensures var e := ExchangeOfParts(parts).value;
      e.source == OptionalField(parts[0], "(FROM")
      && e.num == "none"
      && e.destination == OptionalField(parts[1], "(TO")
      && Success(e.text) == NormalizeText(FieldValue(parts[2], "(TEXT"))
      && Success(e.times) == ParseTimes(SplitWs(FieldValue(parts[3], "(TIMES ")))
      && Pairwise(if |parts| > 5 then parts[5..] else [], e.comments, CommentOf)
  {
    WithoutNumAligned(parts);
    var e := ExchangeOfParts(parts).value;
    var r := ParseComments(if |parts| > 5 then parts[5..] else []);
    assert Success(e.comments) == r;
    ParseCommentsValues(if |parts| > 5 then parts[5..] else []);
  }

  lemma WithoutNumAligned(parts: seq<string>)
    requires |parts| >= 2 && !StartsWith(parts[1], "(NUM")
    ensures var source := OptionalField(parts[0], "(FROM");
      var r := AlignedFields(Aligned(parts), source, "none");
      && ExchangeOfParts(parts) == r
      && (r.Success? <==> (|parts| >= 4 && StartsWith(parts[2], "(TEXT") && StartsWith(parts[3], "(TIMES ")
        && NormalizeText(FieldValue(parts[2], "(TEXT")).Success?
        && ParseTimes(SplitWs(FieldValue(parts[3], "(TIMES "))).Success?
        && ParseComments(if |parts| > 5 then parts[5..] else []).Success?))
      && (r.Success? ==>
        r.value.source == source && r.value.num == "none"
        && r.value.destination == OptionalField(parts[1], "(TO")
        && Success(r.value.text) == NormalizeText(FieldValue(parts[2], "(TEXT"))
        && Success(r.value.times) == ParseTimes(SplitWs(FieldValue(parts[3], "(TIMES ")))
        && Success(r.value.comments) == ParseComments(if |parts| > 5 then parts[5..] else []))
  {
    var aligned := Aligned(parts);
    var source := OptionalField(parts[0], "(FROM");
    AlignedShift(parts);
    assert ExchangeOfParts(parts) == AlignedFields(aligned, source, "none");
    AlignedFieldsSpec(aligned, source, "none");
  }

  /** Where the placeholder puts the original parts. */
  lemma AlignedShift(parts: seq<string>)
    requires |parts| >= 2 && !StartsWith(parts[1], "(NUM")
    ensures |Aligned(parts)| == |parts| + 1
    ensures forall i :: 1 <= i < |parts| ==> Aligned(parts)[i + 1] == parts[i]
    ensures CommentParts(Aligned(parts)) == if |parts| > 5 then parts[5..] else []
  {
    var aligned := parts[..1] + [""] + parts[1..];
    assert Aligned(parts) == aligned;
    assert forall i :: 1 <= i < |parts| ==> aligned[i + 1] == parts[i];
    if |parts| > 5 {
      assert aligned[6..] == parts[5..];
    }
  }

  /** The part at index 5 (after alignment) is never read. */
  lemma IndexFiveUnread(parts: seq<string>, other: string, source: Option<string>, num: string)
    requires |parts| > 5
    ensures AlignedFields(parts[5 := other], source, num) == AlignedFields(parts, source, num)
  {
    var q := parts[5 := other];
    assert |q| == |parts| && q[2] == parts[2] && q[3] == parts[3] && q[4] == parts[4];
    assert CommentParts(q) == CommentParts(parts);
  }

  /** An item written as `(`, whitespace-separated groups and `)` is
      parsed from exactly those groups. */
  lemma ParseJoinedItem(groups: seq<string>, gaps: seq<string>)
    requires |groups| == |gaps| + 1 && Groups(groups) && Gaps(gaps)
    ensures ParseExchange("(" + Joined(groups, gaps) + ")") == ExchangeOfParts(groups)
  {
    var x := Joined(groups, gaps) + ")";
    assert "(" + Joined(groups, gaps) + ")" == "(" + x;
    assert StartsWith("(" + x, "(");
    assert RemovePrefix("(" + x, "(") == x;
    PartsOfJoined(groups, gaps);
  }

  // ---------------------------------------------------------------------
  // Rendering

  /** `divmod(t, 3600)` then `divmod(remainder, 60)`, in milliseconds. */
  function Decompose(ms: nat): (r: (nat, nat, nat))
    ensures r.0 * 3600000 + r.1 * 60000 + r.2 == ms
    ensures r.1 < 60 && r.2 < 60000
  {
    (ms / 3600000, ms % 3600000 / 60000, ms % 3600000 % 60000)
  }

  /** `Exchange._time_to_vtt`: hours with at least one digit, minutes with
      two, seconds with three decimals and no padding of the whole seconds. */
  function TimeToVtt(ms: nat): string {
    var (h, m, s) := Decompose(ms);
    ZeroPad(h, 1) + ":" + ZeroPad(m, 2) + ":" + FormatMillis(s)
  }

  /** The three fields of a rendered time, as `split(':')` sees them. */
  lemma TimeToVttFields(ms: nat)
    ensures var (h, m, s) := Decompose(ms);
      SplitOn(TimeToVtt(ms), ':') == [NatToString(h), ZeroPad(m, 2), FormatMillis(s)]
      && |ZeroPad(m, 2)| == 2
      && FormatMillis(s) == NatToString(s / 1000) + "." + ZeroPad(s % 1000, 3)
      && |ZeroPad(s % 1000, 3)| == 3
      && (s < 10000 ==> |NatToString(s / 1000)| == 1)
  {
    var (h, m, s) := Decompose(ms);
    NatToStringLength(m, 2);
    NatToStringLength(s % 1000, 3);
    if s < 10000 {
      NatToStringLength(s / 1000, 1);
    }
    var hs, ms2, ss := ZeroPad(h, 1), ZeroPad(m, 2), FormatMillis(s);
    assert hs == NatToString(h);
    DigitsNoColon(hs);
    DigitsNoColon(ms2);
    FormatNoColon(s);
    SplitThree(hs, ms2, ss);
  }

  lemma FormatNoColon(s: nat)
    ensures ':' !in FormatMillis(s)
  {
    DigitsNoColon(NatToString(s / 1000));
    DigitsNoColon(ZeroPad(s % 1000, 3));
  }

  /** `Exchange.to_vtt`: one cue block from the first two times and the text. */
  function ExchangeToVtt(e: Exchange): string
    requires |e.times| >= 2
  {
    TimeToVtt(e.times[0]) + " --> " + TimeToVtt(e.times[1]) + "\n" + e.text + "\n\n"
  }

  /** A cue block depends only on the first two times and the text. */
  lemma ExchangeToVttReads(e: Exchange, f: Exchange)
    requires |e.times| >= 2 && |f.times| >= 2
    requires e.times[..2] == f.times[..2] && e.text == f.text
    ensures ExchangeToVtt(e) == ExchangeToVtt(f)
  {
    assert e.times[0] == e.times[..2][0] && e.times[1] == e.times[..2][1];
    assert f.times[0] == f.times[..2][0] && f.times[1] == f.times[..2][1];
  }
}
