/** parse-transcripts.py, the earlier converter. It cuts items and fields
    with the same depth scans as transcripts-to-vtt.py, but its field
    tokenizer does not strip the remainder, NUM is a required field, TEXT is
    cleaned by a chain of `replace` calls and TIMES is split on single
    spaces. Its item loop drops no comment lines. */
module Legacy {
  import opened Wrappers
  import opened Text
  import opened Numerals
  import opened Tokenizer
  import opened Lists
  import Exchanges
  import Transcripts

  /** An exchange as the earlier script builds it: every field it reads
      with a tag test is `None` when the tag is missing. Times are in
      milliseconds. */
  datatype Exchange = Exchange(
    source: Option<string>,
    num: Option<string>,
    destination: Option<string>,
    text: Option<string>,
    times: seq<nat>,
    comments: seq<string>)

  /** Why `Exchange.parse` raises. */
  datatype ParseError =
    | MissingPart(index: nat)     // IndexError on parts[index]
    | BadTime(token: string)      // ValueError from float()
    | UnboundTimes(part: string)  // UnboundLocalError: TIMES never assigned

  /** Why `Transcript.parse_from_file` raises. */
  datatype TranscriptError =
    | NoHeaderQuote
    | CommentWithoutQuote(item: string)
    | TailWithoutQuote(item: string)
    | BadExchange(item: string, error: ParseError)

  // ---------------------------------------------------------------------
  // Field tokenizer

  /** What this `_get_one_part` returns: the part up to where the depth scan
      stops, stripped, and the rest after one more dropped character, NOT
      stripped. */
  function NextPart(content: string): (r: (string, string))
    ensures content != [] ==> |r.1| < |content|
  {
    var k := CutIndex(content);
    (Strip(content[..k]), Drop(content, k + 1))
  }

  /** The later tokenizer is this one with the remainder stripped. */
  lemma StrippedRemainder(content: string)
    ensures Exchanges.NextPart(content) == (NextPart(content).0, Strip(NextPart(content).1))
  {
  }

  /** `Exchange._get_one_part` of parse-transcripts.py. */
  method GetOnePart(content: string) returns (part: string, rest: string)
    ensures part == Strip(content[..CutIndex(content)])
    ensures rest == Drop(content, CutIndex(content) + 1)
    ensures content != [] ==> |rest| < |content|
    ensures (part, rest) == NextPart(content)
  {
    var raw, index := ScanPart(content);
    part := Strip(raw);
    rest := Drop(content, index + 1);
  }

  /** The parts the loop of `parse` collects from `rest`. */
  function PartsOf(rest: string): seq<string>
    decreases |rest|
  {
    if Exchanges.AtClose(rest) then []
    else
      var (part, next) := NextPart(rest);
      [part] + PartsOf(next)
  }

  lemma PartsOfStep(rest: string, done: seq<string>, part: string, next: string)
    requires !Exchanges.AtClose(rest) && (part, next) == NextPart(rest)
    ensures done + PartsOf(rest) == (done + [part]) + PartsOf(next)
  {
    PartsOfCons(rest, part, next);
    AppendAssoc(done, [part], PartsOf(next));
  }

  /** Away from the end, the parts are the next part and the parts after it. */
  lemma PartsOfCons(rest: string, part: string, next: string)
    requires !Exchanges.AtClose(rest) && (part, next) == NextPart(rest)
    ensures PartsOf(rest) == [part] + PartsOf(next)
  {
  }

  /** The `while` loop of `Exchange.parse` that splits an item into parts. */
  method SplitParts(raw: string) returns (parts: seq<string>)
    ensures parts == PartsOf(RemovePrefix(raw, "("))
  {
    var rest := RemovePrefix(raw, "(");
    ghost var all := PartsOf(rest);
    parts := [];
    while !Exchanges.AtClose(rest)
      invariant parts + PartsOf(rest) == all
      decreases |rest|
    {
      var part, next := GetOnePart(rest);
      PartsOfStep(rest, parts, part, next);
      parts, rest := parts + [part], next;
    }
    assert PartsOf(rest) == [];
  }

  // ---------------------------------------------------------------------
  // What the unstripped remainder does to whitespace between fields

  /** Runs of one or two whitespace characters. */
  predicate NarrowGaps(gaps: seq<string>) {
    Exchanges.Gaps(gaps) && forall i :: 0 <= i < |gaps| ==> |gaps[i]| <= 2
  }

  /** At most one whitespace character. */
  predicate ShortLead(lead: string) {
    |lead| <= 1 && forall j :: 0 <= j < |lead| ==> IsSpace(lead[j])
  }

  lemma {:induction false} DepthAppend(a: string, b: string)
    ensures Depth(a + b) == Depth(a) + Depth(b)
    decreases |b|
  {
    if b == [] {
      assert a + b == a;
    } else {
      var init := b[..|b| - 1];
      DepthAppend(a, init);
      assert a + b == (a + init) + [b[|b| - 1]];
      DepthSnoc(a + init, b[|b| - 1]);
    }
  }

  /** A scan that starts at most one whitespace character before a group
      stops at the end of the group, returns the group, and drops the
      character after it. */
  lemma NextPartAfterLead(lead: string, g: string, x: string)
    requires ShortLead(lead) && Exchanges.Group(g) && x != []
    ensures !Exchanges.AtClose(lead + g + x)
    ensures NextPart(lead + g + x) == (g, x[1..])
  {
    LeadCut(lead, g, x);
    StripAfterLead(lead, g, x);
  }

  /** The scan over `lead + g + x` stops after `g`, keeps `g` and leaves
      what follows one more character. */
  lemma LeadCut(lead: string, g: string, x: string)
    requires ShortLead(lead) && Exchanges.Group(g) && x != []
    ensures NextPart(lead + g + x) == (g, x[1..])
  {
    var s, k := lead + g + x, |lead| + |g|;
    CutAfterLead(lead, g, x);
    PrefixAndDrop(lead + g, x);
    assert s[..k] == lead + g;
    Exchanges.GroupEnds(g);
    assert g[0] in "()";
    Exchanges.StripSpaces(lead, g);
    NextPartIs(s, k, g, x[1..]);
  }

  /** `NextPart` from where the scan stops, what that prefix strips to, and
      what follows one more character. */
  lemma NextPartIs(s: string, k: nat, part: string, rest: string)
    requires CutIndex(s) == k && Strip(s[..k]) == part && Drop(s, k + 1) == rest
    ensures NextPart(s) == (part, rest)
  {
  }

  /** The front of `a + x` is `a`; past `a` and one more character, the rest
      of `x`. */
  lemma PrefixAndDrop(a: string, x: string)
    requires x != []
    ensures (a + x)[..|a|] == a && Drop(a + x, |a| + 1) == x[1..]
  {
    assert (a + x)[|a| + 1..] == x[1..];
  }

  lemma CutAfterLead(lead: string, g: string, x: string)
    requires ShortLead(lead) && Exchanges.Group(g)
    ensures CutIndex(lead + g + x) == |lead| + |g|
  {
    if lead == [] {
      assert lead + g + x == g + x;
      Exchanges.CutAtGroup(g, x);
    } else {
      assert lead == [lead[0]];
      CutAfterBlank(lead[0], g, x);
    }
  }

  lemma CutAfterBlank(c: char, g: string, x: string)
    requires IsSpace(c) && Exchanges.Group(g)
    ensures CutIndex([c] + g + x) == 1 + |g|
  {
    var s := [c] + g + x;
    var k := 1 + |g|;
    assert Depth([c]) == 0 by {
      assert [c] == [] + [c];
      DepthSnoc([], c);
    }
    forall j | 2 <= j < k
      ensures Depth(s[..j]) != 0
    {
      assert s[..j] == [c] + g[..j - 1];
      DepthAppend([c], g[..j - 1]);
      assert Depth(g[..j - 1]) > 0;
    }
    assert s[..k] == [c] + g;
    DepthAppend([c], g);
    CutIndexUnique(s, k);
  }

  /** What follows a short lead is not only a closing parenthesis. */
  lemma StripAfterLead(lead: string, g: string, x: string)
    requires ShortLead(lead) && Exchanges.Group(g)
    ensures !Exchanges.AtClose(lead + g + x)
  {
    var s := lead + g + x;
    LStripBlank(lead, g + x);
    assert s == lead + (g + x);
    assert (g + x)[0] == g[0] && !IsSpace(g[0]);
    RStripKeepsFirst(g + x);
  }

  /** Groups with one or two whitespace characters between them (and at
      most one in front) are split back into those groups: the first
      whitespace character is the one dropped, the second is stripped from
      the next part. */
  lemma PartsOfNarrow(lead: string, groups: seq<string>, gaps: seq<string>)
    requires ShortLead(lead)
    requires |groups| == |gaps| + 1 && Exchanges.Groups(groups) && NarrowGaps(gaps)
    ensures PartsOf(lead + Exchanges.Joined(groups, gaps) + ")") == groups
  {
    PartsOfNarrowClosed(lead, groups, gaps, ")");
  }

  lemma {:induction false} PartsOfNarrowClosed(lead: string, groups: seq<string>, gaps: seq<string>, close: string)
    requires ShortLead(lead) && close == ")"
    requires |groups| == |gaps| + 1 && Exchanges.Groups(groups) && NarrowGaps(gaps)
    ensures PartsOf(lead + Exchanges.Joined(groups, gaps) + close) == groups
    decreases |groups|
  {
    if |groups| == 1 {
      NarrowLast(lead, groups, gaps, close);
    } else {
      NarrowStep(lead, groups, gaps, close);
      NarrowRest(groups, gaps);
      PartsOfNarrowClosed(gaps[0][1..], groups[1..], gaps[1..], close);
      Cons(groups, PartsOf(lead + Exchanges.Joined(groups, gaps) + close),
        PartsOf(gaps[0][1..] + Exchanges.Joined(groups[1..], gaps[1..]) + close));
    }
  }

  lemma NarrowLast(lead: string, groups: seq<string>, gaps: seq<string>, close: string)
    requires ShortLead(lead) && close == ")"
    requires |groups| == |gaps| + 1 == 1 && Exchanges.Groups(groups)
    ensures PartsOf(lead + Exchanges.Joined(groups, gaps) + close) == groups
  {
    var g := groups[0];
    assert lead + Exchanges.Joined(groups, gaps) + close == lead + g + close;
    PartsAfterLead(lead, g, close);
    assert close[1..] == [] && groups[1..] == [];
    assert PartsOf([]) == [];
    Cons(groups, PartsOf(lead + g + close), PartsOf(close[1..]));
  }

  lemma NarrowStep(lead: string, groups: seq<string>, gaps: seq<string>, close: string)
    requires ShortLead(lead) && close == ")"
    requires |groups| == |gaps| + 1 && |groups| > 1 && Exchanges.Groups(groups) && NarrowGaps(gaps)
    ensures PartsOf(lead + Exchanges.Joined(groups, gaps) + close)
         == [groups[0]] + PartsOf(gaps[0][1..] + Exchanges.Joined(groups[1..], gaps[1..]) + close)
  {
    var g, gap, j := groups[0], gaps[0], Exchanges.Joined(groups[1..], gaps[1..]);
    var rest := j + close;
    var x := gap + rest;
    assert Exchanges.Joined(groups, gaps) == (g + gap) + j;
    AppendAssoc(g, gap, j);
    AppendAssoc(lead, g, gap + j);
    AppendAssoc(lead + g, gap + j, close);
    AppendAssoc(gap, j, close);
    PartsAfterLead(lead, g, x);
    DropFirst(gap, rest);
    AppendAssoc(gap[1..], j, close);
  }

  /** The parts after a short lead and a group: the group, then the parts
      of what follows the dropped character. */
  lemma PartsAfterLead(lead: string, g: string, x: string)
    requires ShortLead(lead) && Exchanges.Group(g) && x != []
    ensures PartsOf(lead + g + x) == [g] + PartsOf(x[1..])
  {
    NextPartAfterLead(lead, g, x);
    PartsOfCons(lead + g + x, g, x[1..]);
  }

  lemma NarrowRest(groups: seq<string>, gaps: seq<string>)
    requires |groups| == |gaps| + 1 && |groups| > 1 && Exchanges.Groups(groups) && NarrowGaps(gaps)
    ensures ShortLead(gaps[0][1..])
    ensures Exchanges.Groups(groups[1..]) && NarrowGaps(gaps[1..])
  {
    assert forall i :: 0 <= i < |groups| - 1 ==> groups[1..][i] == groups[i + 1];
    assert forall i :: 0 <= i < |gaps| - 1 ==> gaps[1..][i] == gaps[i + 1];
  }

  /** Three whitespace characters between two groups are too many: the scan
      after the first group stops at the two remaining whitespace
      characters, which give an empty part. */
  lemma WideGapEmptyPart(g: string, gap: string, h: string)
    requires Exchanges.Group(g) && Exchanges.Group(h)
    requires |gap| == 3 && forall j :: 0 <= j < 3 ==> IsSpace(gap[j])
    ensures |PartsOf(g + gap + h + ")")| >= 2
    ensures PartsOf(g + gap + h + ")")[..2] == [g, ""]
  {
    var y := h + ")";
    assert y[0] == h[0];
    WideGapBefore(g, gap, y);
    AppendAssoc(g + gap, h, ")");
    SameParts(g + gap + h + ")", g + gap + y);
  }

  lemma SameParts(a: string, b: string)
    requires a == b
    ensures PartsOf(a) == PartsOf(b)
  {
  }

  lemma WideGapBefore(g: string, gap: string, y: string)
    requires Exchanges.Group(g) && y != [] && y[0] == '('
    requires |gap| == 3 && forall j :: 0 <= j < 3 ==> IsSpace(gap[j])
    ensures |PartsOf(g + gap + y)| >= 2
    ensures PartsOf(g + gap + y)[..2] == [g, ""]
  {
    var x := gap + y;
    AppendAssoc(g, gap, y);
    assert [] + g == g;
    PartsAfterLead([], g, x);
    DropFirst(gap, y);
    var b := gap[1..];
    assert IsSpace(gap[1]) && IsSpace(gap[2]);
    assert |b| == 2 && b[0] == gap[1] && b[1] == gap[2];
    PartsAfterBlanks(b, y);
    FirstTwo(PartsOf(g + gap + y), PartsOf(x[1..]), PartsOf(y[1..]), g, "");
  }

  lemma Cons(groups: seq<string>, ps: seq<string>, qs: seq<string>)
    requires |groups| > 0 && ps == [groups[0]] + qs && qs == groups[1..]
    ensures ps == groups
  {
  }

  lemma FirstTwo(ps: seq<string>, qs: seq<string>, rs: seq<string>, a: string, b: string)
    requires ps == [a] + qs && qs == [b] + rs
    ensures |ps| >= 2 && ps[..2] == [a, b]
  {
    assert ps == [a, b] + rs;
  }

  lemma PartsAfterBlanks(b: string, y: string)
    requires |b| == 2 && IsSpace(b[0]) && IsSpace(b[1])
    requires y != [] && y[0] == '('
    ensures PartsOf(b + y) == [""] + PartsOf(y[1..])
  {
    TwoBlanksEmptyPart(b, y);
    PartsOfCons(b + y, "", y[1..]);
  }

  lemma DropFirst(a: string, b: string)
    requires a != []
    ensures (a + b)[1..] == a[1..] + b
  {
  }

  /** Two whitespace characters in front of a group are a part of their
      own, which strips to nothing; the scan then drops the group's opening
      parenthesis. */
  lemma TwoBlanksEmptyPart(b: string, y: string)
    requires |b| == 2 && IsSpace(b[0]) && IsSpace(b[1])
    requires y != [] && y[0] == '('
    ensures !Exchanges.AtClose(b + y)
    ensures NextPart(b + y) == ("", y[1..])
  {
    var t := b + y;
    BlankPair(b);
    PrefixAndDrop(b, y);
    CutIndexUnique(t, 2);
    NextPartIs(t, 2, "", y[1..]);
    OpenNotAtClose(b, y);
  }

  /** Two whitespace characters have depth zero and strip to nothing. */
  lemma BlankPair(b: string)
    requires |b| == 2 && IsSpace(b[0]) && IsSpace(b[1])
    ensures Depth(b) == 0 && Strip(b) == []
  {
    var b1 := b[..1];
    assert b1[..0] == [] && b1[0] == b[0] && b[..|b| - 1] == b1;
    assert Depth(b1) == Delta(b[0]) == 0;
    assert Delta(b[1]) == 0;
    forall i | 0 <= i < |b|
      ensures IsSpace(b[i])
    {
      if i != 0 {
        assert i == 1;
      }
    }
    StripEmpty(b);
  }

  /** Text that is whitespace and then an opening parenthesis is not the
      end of the part loop. */
  lemma OpenNotAtClose(sp: string, y: string)
    requires forall j :: 0 <= j < |sp| ==> IsSpace(sp[j])
    requires y != [] && y[0] == '('
    ensures !Exchanges.AtClose(sp + y)
  {
    LStripBlank(sp, y);
    RStripKeepsFirst(y);
    assert Strip(sp + y)[0] == '(';
  }

  // ---------------------------------------------------------------------
  // Fields

  /** `part.split(tag)[1].removesuffix(')')` for a part that starts with
      `tag`; unlike the later script, the value is not stripped. */
  function FieldText(part: string, tag: string): string
    requires tag != [] && StartsWith(part, tag)
  {
    RemoveSuffix(Before(part[|tag|..], tag), ")")
  }

  /** A field read only when the part carries its tag; `None` (after a
      printed diagnostic) otherwise. */
  function OptField(part: string, tag: string): (r: Option<string>)
    requires tag != []
    ensures r.Some? <==> StartsWith(part, tag)
  {
    if StartsWith(part, tag) then Some(FieldText(part, tag)) else None
  }

  /** The two `replace('  ', ' ')` passes. */
  function Collapse(t: string): string {
    Replace(Replace(t, "  ", " "), "  ", " ")
  }

  /** The `replace` chain that cleans TEXT: the contraction marker becomes
      an apostrophe, every `)` and every newline goes, and runs of spaces
      are halved twice. */
  function CleanText(text: string): string {
    Collapse(Replace(Replace(Replace(text, " (QUOTE ", "'"), ")", ""), "\n", ""))
  }

  /** No `)` and no newline survive the cleaning. */
  lemma CleanTextClean(text: string)
    ensures ')' !in CleanText(text) && '\n' !in CleanText(text)
  {
    var t1 := Replace(text, " (QUOTE ", "'");
    var t2 := Replace(t1, ")", "");
    ReplaceDeletes(t1, ')');
    var t3 := Replace(t2, "\n", "");
    ReplaceKeepsOut(t2, "\n", "", ')');
    ReplaceDeletes(t2, '\n');
    ReplaceKeepsOut(t3, "  ", " ", ')');
    ReplaceKeepsOut(t3, "  ", " ", '\n');
    ReplaceKeepsOut(Replace(t3, "  ", " "), "  ", " ", ')');
    ReplaceKeepsOut(Replace(t3, "  ", " "), "  ", " ", '\n');
  }

  /** `replace` copies a stretch in which the pattern cannot start. */
  lemma {:induction false} ReplaceSkip(w: string, t: string, pat: string, rep: string)
    requires pat != [] && pat[0] !in w
    ensures Replace(w + t, pat, rep) == w + Replace(t, pat, rep)
    decreases |w|
  {
    if w != [] {
      var s := w + t;
      assert s[0] == w[0];
      if |s| >= |pat| {
        assert s[..|pat|] != pat;
        assert s[1..] == w[1..] + t;
        ReplaceSkip(w[1..], t, pat, rep);
      } else {
        ReplaceSkip(w[1..], t, pat, rep);
        assert |w[1..] + t| < |pat|;
      }
    } else {
      assert w + t == t;
    }
  }

  lemma ReplaceNothing(w: string, pat: string, rep: string)
    requires pat != [] && pat[0] !in w
    ensures Replace(w, pat, rep) == w
  {
    ReplaceSkip(w, [], pat, rep);
    assert w + [] == w;
  }

  /** A contraction written `a (QUOTE b)`, with `a` and `b` plain words,
      comes out as `a'b`. */
  lemma QuotedContraction(a: string, b: string)
    requires ' ' !in a && ' ' !in b
    requires ')' !in a && ')' !in b && '\n' !in a && '\n' !in b
    ensures CleanText(a + " (QUOTE " + b + ")") == a + "'" + b
  {
    var m := " (QUOTE ";
    var s := a + m + b + ")";
    assert s == a + (m + (b + ")"));
    ReplaceSkip(a, m + (b + ")"), m, "'");
    assert (m + (b + ")"))[..|m|] == m;
    assert (m + (b + ")"))[|m|..] == b + ")";
    assert ' ' !in b + ")";
    ReplaceNothing(b + ")", m, "'");
    var t1 := a + "'" + b + ")";
    assert Replace(s, m, "'") == t1;
    var w := a + "'" + b;
    assert t1 == w + ")";
    ReplaceSkip(w, ")", ")", "");
    assert Replace(")", ")", "") == "" + Replace("", ")", "");
    assert Replace(t1, ")", "") == w;
    ReplaceNothing(w, "\n", "");
    ReplaceNothing(w, "  ", " ");
  }

  /** `n` spaces. */
  function Spaces(n: nat): (s: string)
    ensures |s| == n && forall i :: 0 <= i < n ==> s[i] == ' '
  {
    if n == 0 then [] else " " + Spaces(n - 1)
  }

  /** One `replace('  ', ' ')` pass leaves `ceil(n / 2)` of a run of `n`
      spaces. */
  function Halve(n: nat): nat {
    (n + 1) / 2
  }

  lemma {:induction false} ReplaceRun(n: nat, rest: string)
    requires rest == [] || rest[0] != ' '
    ensures Replace(Spaces(n) + rest, "  ", " ") == Spaces(Halve(n)) + Replace(rest, "  ", " ")
    decreases n
  {
    var s := Spaces(n) + rest;
    if n >= 2 {
      assert s[..2] == "  ";
      assert s[2..] == Spaces(n - 2) + rest by {
        assert Spaces(n) == "  " + Spaces(n - 2);
      }
      ReplaceRun(n - 2, rest);
      var tail := Replace(rest, "  ", " ");
      assert Replace(s, "  ", " ") == " " + Replace(s[2..], "  ", " ");
      assert Halve(n) == 1 + Halve(n - 2);
      assert Spaces(Halve(n)) == " " + Spaces(Halve(n - 2));
      AppendAssoc(" ", Spaces(Halve(n - 2)), tail);
    } else if n == 1 {
      assert Spaces(Halve(n)) == " ";
      if |s| >= 2 {
        assert s[..2] != "  " by { assert s[1] == rest[0]; }
        assert s[1..] == rest;
        assert Replace(s, "  ", " ") == " " + Replace(rest, "  ", " ");
      } else {
        assert rest == [] && s == " ";
        assert Replace(s, "  ", " ") == " ";
        assert Replace(rest, "  ", " ") == [];
      }
    } else {
      assert s == rest;
    }
  }

  /** Two words separated by a run of `n` spaces keep
      `ceil(ceil(n / 2) / 2)` of them: runs of two to four spaces become
      one, runs of five or more keep at least two. */
  lemma CollapseRun(w1: string, n: nat, w2: string)
    requires ' ' !in w1 && ' ' !in w2
    ensures Collapse(w1 + Spaces(n) + w2) == w1 + Spaces(Halve(Halve(n))) + w2
    ensures 1 <= n <= 4 ==> Collapse(w1 + Spaces(n) + w2) == w1 + " " + w2
    ensures n >= 5 ==> Halve(Halve(n)) >= 2
  {
    HalveRun(w1, n, w2);
    HalveRun(w1, Halve(n), w2);
    if 1 <= n <= 4 {
      assert Halve(Halve(n)) == 1;
      assert Spaces(1) == " ";
    }
  }

  /** One pass over two words and the run of spaces between them. */
  lemma HalveRun(w1: string, n: nat, w2: string)
    requires ' ' !in w1 && ' ' !in w2
    ensures Replace(w1 + Spaces(n) + w2, "  ", " ") == w1 + Spaces(Halve(n)) + w2
  {
    assert w1 + Spaces(n) + w2 == w1 + (Spaces(n) + w2);
    ReplaceSkip(w1, Spaces(n) + w2, "  ", " ");
    ReplaceRun(n, w2);
    ReplaceNothing(w2, "  ", " ");
    assert w1 + (Spaces(Halve(n)) + w2) == w1 + Spaces(Halve(n)) + w2;
  }

  /** `float(token)` in milliseconds: Python's `float` ignores whitespace
      around the number, so a token is read stripped. */
  function TimeValue(token: string): Option<nat> {
    ParseMillis(Strip(token))
  }

  /** `[float(time) for time in tokens]`; the first token `float` rejects
      is the error. */
  function ParseTimes(tokens: seq<string>): (r: Result<seq<nat>, ParseError>)
    ensures r.Success? ==> |r.value| == |tokens|
  {
    Traverse(tokens, TimeValue, BadTimeOf)
  }

  function BadTimeOf(token: string): ParseError {
    BadTime(token)
  }

  /** The times are read exactly when every token is a number; time `i` is
      then the value of token `i`, and otherwise the error names a token
      `float` rejects. */
  lemma ParseTimesSpec(tokens: seq<string>)
    ensures ParseTimes(tokens).Success? <==> forall i :: 0 <= i < |tokens| ==> TimeValue(tokens[i]).Some?
    ensures ParseTimes(tokens).Success? ==>
      forall i :: 0 <= i < |tokens| ==> TimeValue(tokens[i]) == Some(ParseTimes(tokens).value[i])
    ensures ParseTimes(tokens).Failure? ==>
      exists i :: 0 <= i < |tokens| && TimeValue(tokens[i]).None? && ParseTimes(tokens).error == BadTime(tokens[i])
  {
    TraverseOk(tokens, TimeValue, BadTimeOf);
    if ParseTimes(tokens).Success? {
      TraverseValues(tokens, TimeValue, BadTimeOf);
    } else {
      TraverseError(tokens, TimeValue, BadTimeOf);
    }
  }

  /** TIMES is split on single spaces, so two spaces in a row give an
      empty token, which `float` rejects. */
  lemma DoubleSpaceTimes(a: string, b: string)
    requires ' ' !in a
    ensures ParseTimes(SplitOn(a + "  " + b, ' ')).Failure?
  {
    var tokens := SplitOn(a + "  " + b, ' ');
    DoubleSpaceTokens(a, b);
    assert TimeValue(tokens[1]).None?;
    TraverseOk(tokens, TimeValue, BadTimeOf);
  }

  lemma DoubleSpaceTokens(a: string, b: string)
    requires ' ' !in a
    ensures |SplitOn(a + "  " + b, ' ')| >= 2 && SplitOn(a + "  " + b, ' ')[1] == []
  {
    var sb := " " + b;
    assert [' '] + " " == "  ";
    AppendAssoc(a, [' '], " ");
    AppendAssoc(a + [' '], " ", b);
    SplitOnCons(a, ' ', sb);
    SplitOnLeadingSep(' ', b);
  }

  /** The comments loop over `parts[6:]`: parts tagged `(COMMENT ` give
      their text, in order; any other part is reported and skipped. */
  function Comments(parts: seq<string>): (r: seq<string>)
    ensures |r| <= |parts|
  {
    if parts == [] then []
    else
      var last := parts[|parts| - 1];
      Comments(parts[..|parts| - 1])
      + if StartsWith(last, "(COMMENT ") then [FieldText(last, "(COMMENT ")] else []
  }

  /** Comments of consecutive stretches of parts are concatenated. */
  lemma {:induction false} CommentsAppend(a: seq<string>, b: seq<string>)
    ensures Comments(a + b) == Comments(a) + Comments(b)
    decreases |b|
  {
    if b == [] {
      assert a + b == a;
    } else {
      var init, last := b[..|b| - 1], b[|b| - 1];
      var own := if StartsWith(last, "(COMMENT ") then [FieldText(last, "(COMMENT ")] else [];
      CommentsAppend(a, init);
      assert (a + b)[..|a + b| - 1] == a + init;
      assert (a + b)[|a + b| - 1] == last;
      assert Comments(a + b) == Comments(a + init) + own;
      assert Comments(b) == Comments(init) + own;
      AppendAssoc(Comments(a), Comments(init), own);
    }
  }

  /** When every part is a comment, each gives exactly one comment, in
      order. */
  lemma {:induction false} CommentsAllTagged(parts: seq<string>)
    requires forall i :: 0 <= i < |parts| ==> StartsWith(parts[i], "(COMMENT ")
    ensures |Comments(parts)| == |parts|
    ensures forall i :: 0 <= i < |parts| ==> Comments(parts)[i] == FieldText(parts[i], "(COMMENT ")
  {
    if parts != [] {
      var init, last := parts[..|parts| - 1], parts[|parts| - 1];
      assert parts == init + [last];
      CommentsAllTagged(init);
      CommentsSnoc(init, last);
      var cs, ci := Comments(parts), Comments(init);
      forall i | 0 <= i < |parts|
        ensures cs[i] == FieldText(parts[i], "(COMMENT ")
      {
        if i < |init| {
          assert cs[i] == ci[i] && parts[i] == init[i];
        }
      }
    }
  }

  /** Parts without the comment tag give no comment. */
  lemma {:induction false} CommentsNoneTagged(parts: seq<string>)
    requires forall i :: 0 <= i < |parts| ==> !StartsWith(parts[i], "(COMMENT ")
    ensures Comments(parts) == []
  {
    if parts != [] {
      var init := parts[..|parts| - 1];
      assert forall i :: 0 <= i < |init| ==> init[i] == parts[i];
      CommentsNoneTagged(init);
    }
  }

  /** What `Exchange.parse` does with its list of parts. The fields stay at
      fixed positions: a missing NUM is not made up for. The TIMES part
      is read before the comments, but a TIMES part without its tag only
      fails at the end, where the unassigned `times` is used. */
  function ExchangeOfParts(parts: seq<string>): Result<Exchange, ParseError> {
    // parts[0] to parts[4] are read in turn; the first missing one raises
    if |parts| < 5 then Failure(MissingPart(|parts|))
    else
      match TimesField(parts[4])
      case Failure(e) => Failure(e)
      case Success(times) =>
        Success(Exchange(OptField(parts[0], "(FROM "), OptField(parts[1], "(NUM "), OptField(parts[2], "(TO "),
                         TextField(parts[3]), times, Comments(Exchanges.CommentParts(parts))))
  }

  /** The TEXT field, cleaned, when the part carries its tag. */
  function TextField(part: string): (r: Option<string>)
    ensures r.Some? <==> StartsWith(part, "(TEXT ")
  {
    if StartsWith(part, "(TEXT ") then Some(CleanText(FieldText(part, "(TEXT "))) else None
  }

  /** The TIMES field: its tokens as numbers, the first bad token, or the
      untagged part itself, which leaves `times` unassigned. */
  function TimesField(part: string): Result<seq<nat>, ParseError> {
    if !StartsWith(part, "(TIMES ") then Failure(UnboundTimes(part))
    else ParseTimes(TimeTokens(part))
  }

  /** `times.split(' ')` of a TIMES part. */
  function TimeTokens(part: string): seq<string>
    requires StartsWith(part, "(TIMES ")
  {
    SplitOn(FieldText(part, "(TIMES "), ' ')
  }

  /** An untagged part leaves `times` unbound. A tagged part is read exactly
      when every token is a number, time `i` being the value of token `i`;
      otherwise the error names a token `float` rejects. */
  lemma TimesFieldSpec(part: string)
    ensures !StartsWith(part, "(TIMES ") ==> TimesField(part) == Failure(UnboundTimes(part))
    ensures StartsWith(part, "(TIMES ") ==>
      (TimesField(part).Success? <==> forall i :: 0 <= i < |TimeTokens(part)| ==> TimeValue(TimeTokens(part)[i]).Some?)
    ensures TimesField(part).Success? ==>
      StartsWith(part, "(TIMES ") && |TimesField(part).value| == |TimeTokens(part)|
      && forall i :: 0 <= i < |TimeTokens(part)| ==> TimeValue(TimeTokens(part)[i]) == Some(TimesField(part).value[i])
    ensures StartsWith(part, "(TIMES ") && TimesField(part).Failure? ==>
      exists i :: 0 <= i < |TimeTokens(part)| && TimeValue(TimeTokens(part)[i]).None?
        && TimesField(part).error == BadTime(TimeTokens(part)[i])
  {
    if StartsWith(part, "(TIMES ") {
      ParseTimesSpec(TimeTokens(part));
    }
  }

  /** `Exchange.parse` of parse-transcripts.py as a function of the raw item. */
  function ParseExchange(raw: string): Result<Exchange, ParseError> {
    ExchangeOfParts(PartsOf(RemovePrefix(raw, "(")))
  }

  /** `Exchange.parse` succeeds exactly when there are five parts, the fifth
      is a TIMES field and every time in it is a number. Each field is then
      read from its own position whatever the others hold (time `i` being
      the value of token `i`), an untagged fifth part fails on the unbound
      `times`, the part at
      index 5 is never read and the comments are those of the parts from
      index 6 on. */
  lemma ExchangeOfPartsSpec(parts: seq<string>)
    ensures ExchangeOfParts(parts).Success? <==>
      |parts| >= 5 && StartsWith(parts[4], "(TIMES ")
      && ParseTimes(SplitOn(FieldText(parts[4], "(TIMES "), ' ')).Success?
    ensures ExchangeOfParts(parts).Success? ==>
      var e := ExchangeOfParts(parts).value;
      var tokens := SplitOn(FieldText(parts[4], "(TIMES "), ' ');
      |parts| >= 5
      && e.source == OptField(parts[0], "(FROM ")
      && e.num == OptField(parts[1], "(NUM ")
      && e.destination == OptField(parts[2], "(TO ")
      && e.text == TextField(parts[3])
      && e.times == ParseTimes(tokens).value
      && |e.times| == |tokens| && (forall i :: 0 <= i < |tokens| ==> TimeValue(tokens[i]) == Some(e.times[i]))
      && e.comments == Comments(if |parts| > 6 then parts[6..] else [])
    ensures |parts| >= 5 && !StartsWith(parts[4], "(TIMES ") ==> ExchangeOfParts(parts) == Failure(UnboundTimes(parts[4]))
    ensures |parts| < 5 ==> ExchangeOfParts(parts) == Failure(MissingPart(|parts|))
  {
    if |parts| >= 5 && StartsWith(parts[4], "(TIMES ") {
      ParseTimesSpec(SplitOn(FieldText(parts[4], "(TIMES "), ' '));
    }
  }

  /** Changing the part at index 5 changes nothing. */
  lemma IndexFiveUnread(parts: seq<string>, other: string)
    requires |parts| > 5
    ensures ExchangeOfParts(parts[5 := other]) == ExchangeOfParts(parts)
  {
    var q := parts[5 := other];
    assert q[..5] == parts[..5];
    assert Exchanges.CommentParts(q) == Exchanges.CommentParts(parts) by {
      if |parts| > 6 {
        assert q[6..] == parts[6..];
      }
    }
  }

  /** The comments loop of `parse`. */
  method ReadComments(parts: seq<string>) returns (comments: seq<string>)
    ensures comments == Comments(Exchanges.CommentParts(parts))
  {
    comments := [];
    if |parts| > 5 {
      for i := 6 to |parts|
        invariant comments == Comments(parts[6..i])
      {
        var part := parts[i];
        assert parts[6..i + 1] == parts[6..i] + [part];
        CommentsSnoc(parts[6..i], part);
        if StartsWith(part, "(COMMENT ") {
          comments := comments + [FieldText(part, "(COMMENT ")];
        }
      }
      assert parts[6..|parts|] == Exchanges.CommentParts(parts);
    }
  }

  lemma CommentsSnoc(ps: seq<string>, part: string)
    ensures Comments(ps + [part])
         == Comments(ps) + if StartsWith(part, "(COMMENT ") then [FieldText(part, "(COMMENT ")] else []
  {
    assert (ps + [part])[..|ps|] == ps;
  }

  /** `Exchange.parse` of parse-transcripts.py. */
  method Parse(raw: string) returns (r: Result<Exchange, ParseError>)
    ensures r == ParseExchange(raw)
  {
    var parts := SplitParts(raw);
    r := ReadExchange(parts);
  }

  /** The body of `parse` once the parts are cut. */
  method ReadExchange(parts: seq<string>) returns (r: Result<Exchange, ParseError>)
    ensures r == ExchangeOfParts(parts)
  {
    if |parts| < 5 {
      return Failure(MissingPart(|parts|));
    }
    var source := OptField(parts[0], "(FROM ");
    var num := OptField(parts[1], "(NUM ");
    var destination := OptField(parts[2], "(TO ");
    var text := TextField(parts[3]);
    var times: Option<seq<nat>> := None;
    if StartsWith(parts[4], "(TIMES ") {
      var ts := ParseTimes(SplitOn(FieldText(parts[4], "(TIMES "), ' '));
      if ts.Failure? {
        return Failure(ts.error);
      }
      times := Some(ts.value);
    }
    var comments := ReadComments(parts);
    if times.None? {
      return Failure(UnboundTimes(parts[4]));
    }
    r := Success(Exchange(source, num, destination, text, times.value, comments));
  }

  // ---------------------------------------------------------------------
  // Items and their classification

  /** What the classification loop has collected so far. */
  datatype Collected = Collected(comments: seq<string>, exchanges: seq<Exchange>, tail: string)

  /** One iteration of the classification loop: COMMENT and TAPE-TAIL
      items both give their first quoted text and raise without one. */
  function ClassifyItem(acc: Collected, item: string): Result<Collected, TranscriptError> {
    if Transcripts.IsComment(item) then
      match SplitSecond(item, "\"")
      case None => Failure(CommentWithoutQuote(item))
      case Some(c) => Success(acc.(comments := acc.comments + [c]))
    else if Transcripts.IsExchange(item) then
      match ParseExchange(item)
      case Failure(e) => Failure(BadExchange(item, e))
      case Success(x) => Success(acc.(exchanges := acc.exchanges + [x]))
    else if Transcripts.IsTail(item) then
      match SplitSecond(item, "\"")
      case None => Failure(TailWithoutQuote(item))
      case Some(t) => Success(acc.(tail := t))
    else Success(acc)
  }

  /** The classification loop over `items`, from nothing collected. */
  function Classify(items: seq<string>): Result<Collected, TranscriptError> {
    if items == [] then Success(Collected([], [], ""))
    else
      match Classify(items[..|items| - 1])
      case Failure(e) => Failure(e)
      case Success(acc) => ClassifyItem(acc, items[|items| - 1])
  }

  /** The classification loop of `parse_from_file`. */
  method ClassifyItems(items: seq<string>) returns (r: Result<Collected, TranscriptError>)
    ensures r == Classify(items)
  {
    var tail := "";
    var exchanges: seq<Exchange> := [];
    var comments: seq<string> := [];
    for i := 0 to |items|
      invariant Classify(items[..i]) == Success(Collected(comments, exchanges, tail))
    {
      var item := items[i];
      assert items[..i + 1][..i] == items[..i];
      if Transcripts.IsComment(item) {
        var c := SplitSecond(item, "\"");
        if c.None? {
          ClassifyFails(items, i + 1);
          return Failure(CommentWithoutQuote(item));
        }
        comments := comments + [c.value];
      } else if Transcripts.IsExchange(item) {
        var x := Parse(item);
        if x.Failure? {
          ClassifyFails(items, i + 1);
          return Failure(BadExchange(item, x.error));
        }
        exchanges := exchanges + [x.value];
      } else if Transcripts.IsTail(item) {
        var t := SplitSecond(item, "\"");
        if t.None? {
          ClassifyFails(items, i + 1);
          return Failure(TailWithoutQuote(item));
        }
        tail := t.value;
      }
    }
    assert items[..|items|] == items;
    return Success(Collected(comments, exchanges, tail));
  }

  /** Once an item fails, the whole loop fails with that error. */
  lemma {:induction false} ClassifyFails(items: seq<string>, k: nat)
    requires k <= |items| && Classify(items[..k]).Failure?
    ensures Classify(items) == Classify(items[..k])
    decreases |items| - k
  {
    if k < |items| {
      assert items[..k + 1][..k] == items[..k];
      ClassifyFails(items, k + 1);
    } else {
      assert items[..k] == items;
    }
  }

  /** Every COMMENT and TAPE-TAIL item has a quote and every exchange item
      parses. */
  predicate ItemOk(item: string) {
    ((Transcripts.IsComment(item) || Transcripts.IsTail(item)) ==> Contains(item, "\""))
    && (Transcripts.IsExchange(item) ==> ParseExchange(item).Success?)
  }

  /** The first quoted text of the last TAPE-TAIL item, or "" when there is
      none. */
  function LastTail(items: seq<string>): string {
    if items == [] then ""
    else
      var last := items[|items| - 1];
      if Transcripts.IsTail(last) && Contains(last, "\"") then SplitSecond(last, "\"").value
      else if Transcripts.IsTail(last) then ""
      else LastTail(items[..|items| - 1])
  }


  /** The loop succeeds exactly when every item is well formed. */
  lemma ClassifyOk(items: seq<string>)
    ensures Classify(items).Success? <==> forall i :: 0 <= i < |items| ==> ItemOk(items[i])
  {
    ClassifyAllOk(items);
    AllEach(items, ItemOk);
  }

  lemma {:induction false} ClassifyAllOk(items: seq<string>)
    ensures Classify(items).Success? <==> All(items, ItemOk)
  {
    if items != [] {
      var init, last := items[..|items| - 1], items[|items| - 1];
      ClassifyAllOk(init);
      if Classify(init).Success? {
        ClassifyItemOk(Classify(init).value, last);
      }
    }
  }

  /** One item is accepted exactly when it is well formed. */
  lemma ClassifyItemOk(acc: Collected, item: string)
    ensures ClassifyItem(acc, item).Success? <==> ItemOk(item)
  {
    Transcripts.KindsDisjoint(item);
    Transcripts.ContainsSecond(item);
  }

  /** After a successful loop it holds the quoted text of each COMMENT item
      in order, one parsed exchange per exchange item in order, and the first quoted text
      of the last TAPE-TAIL item. */
  lemma ClassifyValues(items: seq<string>)
    requires Classify(items).Success?
    ensures Classify(items).value.comments == Transcripts.CommentsOf(items)
    ensures Pairwise(Transcripts.ExchangeItems(items), Classify(items).value.exchanges, Parses)
    ensures Classify(items).value.tail == LastTail(items)
  {
    ClassifyComments(items);
    ClassifyExchanges(items);
    ClassifyTail(items);
  }

  lemma {:induction false} ClassifyComments(items: seq<string>)
    requires Classify(items).Success?
    ensures Classify(items).value.comments == Transcripts.CommentsOf(items)
  {
    if items != [] {
      var init, last := items[..|items| - 1], items[|items| - 1];
      assert Classify(init).Success?;
      ClassifyComments(init);
      ClassifyItemValues(Classify(init).value, last);
    }
  }

  lemma {:induction false} ClassifyExchanges(items: seq<string>)
    requires Classify(items).Success?
    ensures Pairwise(Transcripts.ExchangeItems(items), Classify(items).value.exchanges, Parses)
  {
    if items != [] {
      var init, last := items[..|items| - 1], items[|items| - 1];
      assert Classify(init).Success?;
      ClassifyExchanges(init);
      var acc := Classify(init).value;
      ClassifyItemValues(acc, last);
      if Transcripts.IsExchange(last) {
        PairwiseSnoc(Transcripts.ExchangeItems(init), acc.exchanges, last, ParseExchange(last).value, Parses);
      }
    }
  }

  /** `ParseExchange` reads `x` from `item`. */
  predicate Parses(item: string, x: Exchange) {
    ParseExchange(item) == Success(x)
  }

  lemma {:induction false} ClassifyTail(items: seq<string>)
    requires Classify(items).Success?
    ensures Classify(items).value.tail == LastTail(items)
  {
    if items != [] {
      var init, last := items[..|items| - 1], items[|items| - 1];
      assert Classify(init).Success?;
      ClassifyTail(init);
      ClassifyItemValues(Classify(init).value, last);
    }
  }

  /** One successful step of the loop adds a comment for a COMMENT item,
      the parsed exchange for an exchange item, and replaces the tail for a
      TAPE-TAIL item. */
  lemma ClassifyItemValues(acc: Collected, item: string)
    requires ClassifyItem(acc, item).Success?
    ensures var next := ClassifyItem(acc, item).value;
      && (Transcripts.IsComment(item) ==>
            Contains(item, "\"") && next.comments == acc.comments + [SplitSecond(item, "\"").value])
      && (!Transcripts.IsComment(item) ==> next.comments == acc.comments)
      && (Transcripts.IsExchange(item) ==> (ParseExchange(item).Success?
          && next.exchanges == acc.exchanges + [ParseExchange(item).value]))
      && (!Transcripts.IsExchange(item) ==> next.exchanges == acc.exchanges)
      && (Transcripts.IsTail(item) ==> Contains(item, "\"") && next.tail == SplitSecond(item, "\"").value)
      && (!Transcripts.IsTail(item) ==> next.tail == acc.tail)
  {
    Transcripts.KindsDisjoint(item);
    Transcripts.ContainsSecond(item);
  }

  // ---------------------------------------------------------------------
  // Reading a file

  /** The result `parse_from_file` assembles (the script itself returns
      nothing). */
  datatype Transcript = Transcript(header: string, comments: seq<string>, exchanges: seq<Exchange>, tail: string)

  /** `f.readline()` followed by `f.read()`: the first line with its
      newline, and everything after it. */
  function FirstLine(content: string): (r: (string, string))
    ensures r.0 + r.1 == content
    ensures forall i :: 0 <= i < |r.0| - 1 ==> r.0[i] != '\n'
    ensures r.1 != [] ==> r.0 != [] && r.0[|r.0| - 1] == '\n'
  {
    if content == [] then ("", "")
    else
      var k := LineLen(content);
      assert content[..k] + content[k..] == content;
      (content[..k], content[k..])
  }

  /** `Transcript.parse_from_file` of parse-transcripts.py: the header is the
      first quoted text of the first line; everything after that line,
      comment lines included, is cut into items and classified. */
  function ParseTranscript(content: string): Result<Transcript, TranscriptError> {
    var lines := FirstLine(content);
    var headerLine, body := lines.0, lines.1;
    match SplitSecond(headerLine, "\"")
    case None => Failure(NoHeaderQuote)
    case Some(header) =>
      match Classify(Transcripts.ItemsOf(body))
      case Failure(e) => Failure(e)
      case Success(acc) => Success(Transcript(header, acc.comments, acc.exchanges, acc.tail))
  }

  /** `Transcript.parse_from_file`, the file given as its text. */
  method ParseFromFile(content: string) returns (r: Result<Transcript, TranscriptError>)
    ensures r == ParseTranscript(content)
  {
    var lines := FirstLine(content);
    var headerLine, body := lines.0, lines.1;
    var header := SplitSecond(headerLine, "\"");
    if header.None? {
      return Failure(NoHeaderQuote);
    }
    var items := Transcripts.SplitItems(body);
    var acc := ClassifyItems(items);
    if acc.Failure? {
      return Failure(acc.error);
    }
    r := Success(Transcript(header.value, acc.value.comments, acc.value.exchanges, acc.value.tail));
  }
}
