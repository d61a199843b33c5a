/** The document written by `Transcript.to_vtt` is read back by `parse_vtt`
    of split-audio.py and to-pickles.py: one caption per exchange, in order,
    holding the exchange's text and its first two times. */
module ReadBack {
  import opened Wrappers
  import opened Text
  import opened Numerals
  import opened Exchanges
  import opened Transcripts
  import opened Captions
  import opened Lists

  // ---------------------------------------------------------------------
  // Times

  /** `vtt_time_to_float` reads back the time `_time_to_vtt` wrote. */
  lemma VttTimeOfTimeToVtt(ms: nat)
    ensures VttTimeToMillis(TimeToVtt(ms)) == Some(ms)
  {
    var d := Decompose(ms);
    var time := TimeToVtt(ms);
    TimeToVttFields(ms);
    var parts := SplitOn(time, ':');
    ParseNatOf(NatToString(d.0));
    ParseNatOf(ZeroPad(d.1, 2));
    ParseFormatMillis(d.2);
    VttTimeOfFields(time, d.0, d.1, d.2, ms);
  }

  /** Three fields read as hours, minutes and seconds give the time. */
  lemma VttTimeOfFields(time: string, h: nat, m: nat, s: nat, ms: nat)
    requires |SplitOn(time, ':')| >= 3
    requires ParseNat(SplitOn(time, ':')[0]) == Some(h) && ParseNat(SplitOn(time, ':')[1]) == Some(m)
    requires ParseMillis(SplitOn(time, ':')[2]) == Some(s)
    requires h * 3600000 + m * 60000 + s == ms
    ensures VttTimeToMillis(time) == Some(ms)
  {
  }

  /** `int()` reads a non-empty digit string as its value. */
  lemma ParseNatOf(d: string)
    requires d != [] && AllDigits(d)
    ensures ParseNat(d) == Some(Value(d))
  {
  }

  lemma NoSpaceAppend(a: string, b: string)
    requires NoSpace(a) && NoSpace(b)
    ensures NoSpace(a + b)
  {
    assert forall i :: 0 <= i < |a| ==> (a + b)[i] == a[i];
    assert forall i :: |a| <= i < |a| + |b| ==> (a + b)[i] == b[i - |a|];
  }

  lemma DigitsNoSpace(d: string)
    requires AllDigits(d)
    ensures NoSpace(d)
  {
    assert forall i :: 0 <= i < |d| ==> !IsSpace(d[i]);
  }

  /** A rendered time is one word: digits, colons and a point. */
  lemma TimeIsWord(ms: nat)
    ensures TimeToVtt(ms) != [] && NoSpace(TimeToVtt(ms))
  {
    var (h, m, s) := Decompose(ms);
    var hs, mm, w, f := ZeroPad(h, 1), ZeroPad(m, 2), NatToString(s / 1000), ZeroPad(s % 1000, 3);
    DigitsNoSpace(hs);
    DigitsNoSpace(mm);
    DigitsNoSpace(w);
    DigitsNoSpace(f);
    assert NoSpace(":") && NoSpace(".");
    NoSpaceAppend(w, ".");
    NoSpaceAppend(w + ".", f);
    assert FormatMillis(s) == w + "." + f;
    NoSpaceAppend(hs, ":");
    NoSpaceAppend(hs + ":", mm);
    NoSpaceAppend(hs + ":" + mm, ":");
    NoSpaceAppend(hs + ":" + mm + ":", FormatMillis(s));
    assert TimeToVtt(ms) == hs + ":" + mm + ":" + FormatMillis(s);
    assert |NatToString(h)| >= 1;
  }

  // ---------------------------------------------------------------------
  // The timestamp line of a cue block

  function TimeLine(e: Exchange): string
    requires |e.times| >= 2
  {
    TimeToVtt(e.times[0]) + " --> " + TimeToVtt(e.times[1])
  }

  /** The timestamp line is one trimmed line holding `-->`, whose first and
      third words read back as the start and end. */
  lemma TimeLineReads(e: Exchange)
    requires |e.times| >= 2
    ensures Trimmed(TimeLine(e)) && '\n' !in TimeLine(e)
    ensures Contains(TimeLine(e), "-->")
    ensures LineTimes(TimeLine(e)) == Success((e.times[0], e.times[1]))
  {
    var a, b := TimeToVtt(e.times[0]), TimeToVtt(e.times[1]);
    TimeIsWord(e.times[0]);
    TimeIsWord(e.times[1]);
    ArrowLine(a, b);
    var ws := [a, "-->", b];
    JoinShape(ws);
    SingleSpacedOneLine(Join(ws, " "));
    SplitJoin(ws);
    VttTimeOfTimeToVtt(e.times[0]);
    VttTimeOfTimeToVtt(e.times[1]);
  }

  /** Two words either side of ` --> ` are three words joined by spaces,
      and the line holds `-->`. */
  lemma ArrowLine(a: string, b: string)
    requires a != [] && NoSpace(a) && b != [] && NoSpace(b)
    ensures Words([a, "-->", b])
    ensures a + " --> " + b == Join([a, "-->", b], " ")
    ensures Contains(a + " --> " + b, "-->")
  {
    var ws := [a, "-->", b];
    assert NoSpace("-->");
    assert Words(ws) by {
      assert forall i :: 0 <= i < 3 ==> ws[i] == a || ws[i] == "-->" || ws[i] == b;
    }
    JoinCons(ws, " ");
    assert ws[1..] == ["-->", b];
    JoinCons(ws[1..], " ");
    assert ws[1..][1..] == [b];
    assert " --> " == " " + ("-->" + " ");
    AppendAssoc(a, " ", "-->" + (" " + b));
    AppendAssoc("-->", " ", b);
    AppendAssoc(" ", "-->", " " + b);
    AppendAssoc(" ", "-->", " ");
    AppendAssoc(" " + "-->", " ", b);
    AppendAssoc(a, " --> ", b);
    SliceMiddle(a + " ", "-->", " " + b);
    AppendAssoc(a + " ", "-->", " " + b);
    ContainsAt(a + " --> " + b, "-->", |a| + 1);
  }

  // ---------------------------------------------------------------------
  // Lines of the document, as `parse_vtt` sees them

  /** The stripped lines of the cue blocks of `exchanges`: the timestamp
      line, the text and an empty line for each. */
  function CueLines(exchanges: seq<Exchange>): seq<string>
    requires Timed(exchanges)
  {
    if exchanges == [] then []
    else
      var last := exchanges[|exchanges| - 1];
      CueLines(exchanges[..|exchanges| - 1]) + [TimeLine(last), last.text, ""]
  }

  /** What the reader should find: each exchange's text and first two times. */
  function CaptionsFor(exchanges: seq<Exchange>): (cs: seq<Caption>)
    requires Timed(exchanges)
    ensures |cs| == |exchanges|
  {
    if exchanges == [] then []
    else
      var last := exchanges[|exchanges| - 1];
      CaptionsFor(exchanges[..|exchanges| - 1]) + [Caption(last.text, last.times[0], last.times[1])]
  }

  /** One text per line: no newline, nothing for `strip` to remove. */
  predicate TextsOnOneLine(exchanges: seq<Exchange>) {
    forall i :: 0 <= i < |exchanges| ==> Trimmed(exchanges[i].text) && '\n' !in exchanges[i].text
  }

  /** Three lines ending in newlines, read and stripped. */
  lemma ReadThree(x: string, y: string, z: string, rest: string)
    requires '\n' !in x && '\n' !in y && '\n' !in z
    ensures StripAll(ReadLines(x + "\n" + (y + "\n" + (z + "\n" + rest))))
         == [Strip(x + "\n"), Strip(y + "\n"), Strip(z + "\n")] + StripAll(ReadLines(rest))
  {
    ReadLinesCons(z, rest);
    ReadLinesCons(y, z + "\n" + rest);
    ReadLinesCons(x, y + "\n" + (z + "\n" + rest));
    var r := ReadLines(rest);
    assert ReadLines(x + "\n" + (y + "\n" + (z + "\n" + rest))) == [x + "\n"] + ([y + "\n"] + ([z + "\n"] + r));
    StripAllCons(z + "\n", r);
    StripAllCons(y + "\n", [z + "\n"] + r);
    StripAllCons(x + "\n", [y + "\n"] + ([z + "\n"] + r));
    var a, b, c := Strip(x + "\n"), Strip(y + "\n"), Strip(z + "\n");
    ConsThree(a, b, c, StripAll(r));
  }

  lemma StripAllCons(x: string, rest: seq<string>)
    ensures StripAll([x] + rest) == [Strip(x)] + StripAll(rest)
  {
    assert ([x] + rest)[1..] == rest;
  }

  /** A cue block as three lines. */
  lemma BlockLines(e: Exchange, rest: string)
    requires |e.times| >= 2
    ensures ExchangeToVtt(e) + rest == TimeLine(e) + "\n" + (e.text + "\n" + ("" + "\n" + rest))
  {
    var line, text := TimeLine(e), e.text;
    assert ExchangeToVtt(e) == line + "\n" + text + "\n\n";
    assert "\n\n" == "\n" + ("" + "\n");
    AppendAssoc(line + "\n" + text, "\n\n", rest);
    AppendAssoc(line + "\n", text, "\n\n" + rest);
    AppendAssoc(line, "\n", text + ("\n\n" + rest));
    AppendAssoc("\n", "" + "\n", rest);
    AppendAssoc(text, "\n", "" + "\n" + rest);
  }

  /** The last exchange split off: the rest keeps the conditions, and the
      cue lines and captions end with those of the last exchange. */
  lemma SplitLast(exchanges: seq<Exchange>)
    requires exchanges != [] && Timed(exchanges) && TextsOnOneLine(exchanges)
    ensures var init, last := exchanges[..|exchanges| - 1], exchanges[|exchanges| - 1];
      && Timed(init) && TextsOnOneLine(init)
      && |last.times| >= 2 && Trimmed(last.text) && '\n' !in last.text
      && Blocks(exchanges) == Blocks(init) + ExchangeToVtt(last)
      && CueLines(exchanges) == CueLines(init) + [TimeLine(last), last.text, ""]
      && CaptionsFor(exchanges) == CaptionsFor(init) + [Caption(last.text, last.times[0], last.times[1])]
  {
  }

  /** One cue block followed by any text reads as its three lines. */
  lemma BlockRead(e: Exchange, rest: string)
    requires |e.times| >= 2 && Trimmed(e.text) && '\n' !in e.text
    ensures StripAll(ReadLines(ExchangeToVtt(e) + rest)) == [TimeLine(e), e.text, ""] + StripAll(ReadLines(rest))
  {
    var line := TimeLine(e);
    TimeLineReads(e);
    BlockLines(e, rest);
    ReadThree(line, e.text, "", rest);
    StripLine(line);
    StripLine(e.text);
    StripLine("");
  }

  /** The blocks, followed by any text, read as the cue lines followed by
      the lines of that text. */
  lemma {:induction false} BlocksRead(exchanges: seq<Exchange>, rest: string)
    requires Timed(exchanges) && TextsOnOneLine(exchanges)
    ensures StripAll(ReadLines(Blocks(exchanges) + rest)) == CueLines(exchanges) + StripAll(ReadLines(rest))
    decreases |exchanges|
  {
    if exchanges == [] {
      AppendNil(rest);
      AppendNil(StripAll(ReadLines(rest)));
    } else {
      var n := |exchanges| - 1;
      var init, last := exchanges[..n], exchanges[n];
      SplitLast(exchanges);
      var block := ExchangeToVtt(last);
      AppendAssoc(Blocks(init), block, rest);
      BlocksRead(init, block + rest);
      BlockRead(last, rest);
      AppendAssoc(CueLines(init), [TimeLine(last), last.text, ""], StripAll(ReadLines(rest)));
    }
  }

  /** One block of cue lines yields its caption. */
  lemma BlockCues(e: Exchange, rest: seq<string>)
    requires |e.times| >= 2 && Trimmed(e.text)
    ensures Cues([TimeLine(e), e.text, ""] + rest) == Prepend([Caption(e.text, e.times[0], e.times[1])], Cues(rest))
  {
    var line := TimeLine(e);
    TimeLineReads(e);
    TwoThenOne(line, e.text, "", rest);
    CuesTextLine(line, e.text, [""] + rest);
    NoArrow("");
    CuesSkipOne("", rest);
  }

  /** The cue lines followed by any lines yield the captions of the
      exchanges followed by those of the lines. */
  lemma {:induction false} CueLinesRead(exchanges: seq<Exchange>, rest: seq<string>)
    requires Timed(exchanges) && TextsOnOneLine(exchanges)
    ensures Cues(CueLines(exchanges) + rest) == Prepend(CaptionsFor(exchanges), Cues(rest))
    decreases |exchanges|
  {
    if exchanges == [] {
      AppendNil(rest);
      if Cues(rest).Success? {
        AppendNil(Cues(rest).value);
      }
    } else {
      var n := |exchanges| - 1;
      var init, last := exchanges[..n], exchanges[n];
      SplitLast(exchanges);
      var block := [TimeLine(last), last.text, ""];
      AppendAssoc(CueLines(init), block, rest);
      CueLinesRead(init, block + rest);
      BlockCues(last, rest);
      PrependTwice(CaptionsFor(init), [Caption(last.text, last.times[0], last.times[1])], Cues(rest));
    }
  }

  /** No line of `lines` holds `-->`, so `parse_vtt` passes over them all. */
  predicate Unstamped(lines: seq<string>) {
    forall i :: 0 <= i < |lines| ==> !Contains(lines[i], "-->")
  }

  /** `strip` leaves no `-->` in a line that had none. */
  lemma StripNoArrow(s: string)
    requires '\n' !in s && !Contains(s, "-->")
    ensures !Contains(Strip(s + "\n"), "-->")
  {
    ContainsBeforeNewline(s, "-->");
    StripContains(s + "\n", "-->");
  }

  /** A line without `>` holds no `-->`. */
  lemma {:induction false} NoArrow(s: string)
    requires '>' !in s
    ensures !Contains(s, "-->")
    decreases |s|
  {
    if s != [] {
      if |s| >= 3 {
        assert s[..3][2] == s[2] != '>';
      }
      NoArrow(s[1..]);
    }
  }

  /** The NOTE block of `s`, read and stripped, holds no timestamp line. */
  lemma NoteRead(s: string, rest: string) returns (plain: seq<string>)
    requires '\n' !in s && !Contains(s, "-->")
    ensures StripAll(ReadLines(Note(s) + rest)) == plain + StripAll(ReadLines(rest))
    ensures Unstamped(plain)
  {
    ReadThree("NOTE", s, "", rest);
    NoteLines(s, rest);
    plain := [Strip("NOTE" + "\n"), Strip(s + "\n"), Strip("" + "\n")];
    NoteStripped(s);
  }

  /** The stripped lines of a NOTE block hold no `-->`. */
  lemma NoteStripped(s: string)
    requires '\n' !in s && !Contains(s, "-->")
    ensures Unstamped([Strip("NOTE" + "\n"), Strip(s + "\n"), Strip("" + "\n")])
  {
    NoteWordLine();
    EmptyLine();
    StripNoArrow(s);
    UnstampedThree(Strip("NOTE" + "\n"), Strip(s + "\n"), Strip("" + "\n"));
  }

  /** Three lines without `-->`. */
  lemma UnstampedThree(a: string, b: string, c: string)
    requires !Contains(a, "-->") && !Contains(b, "-->") && !Contains(c, "-->")
    ensures Unstamped([a, b, c])
  {
  }

  /** The `NOTE` line, stripped, holds no `-->`. */
  lemma NoteWordLine()
    ensures Strip("NOTE" + "\n") == "NOTE" && !Contains("NOTE", "-->")
  {
    StripLine("NOTE");
    NoArrow("NOTE");
  }

  /** An empty line, stripped, holds no `-->`. */
  lemma EmptyLine()
    ensures Strip("" + "\n") == "" && !Contains("", "-->")
  {
    StripLine("");
    NoArrow("");
  }

  /** The NOTE block as three lines. */
  lemma NoteLines(s: string, rest: string)
    ensures Note(s) + rest == "NOTE" + "\n" + (s + "\n" + ("" + "\n" + rest))
  {
    assert "NOTE\n" == "NOTE" + "\n";
    assert "\n\n" == "\n" + ("" + "\n");
    AppendAssoc("NOTE" + "\n", s, "\n\n");
    AppendAssoc("NOTE" + "\n" + s, "\n\n", rest);
    AppendAssoc("NOTE" + "\n", s, "\n\n" + rest);
    AppendAssoc("\n", "" + "\n", rest);
    AppendAssoc(s, "\n", "" + "\n" + rest);
  }

  // ---------------------------------------------------------------------
  // The round trip

  /** Every transcript `parse_from_file` accepts has its exchange texts on
      one line each, so the round trip below needs of it only a header and
      a tail `parse_vtt` passes over. */
  lemma ParsedTextsOnOneLine(path: string, content: string)
    requires ParseTranscript(path, content).Success?
    ensures TextsOnOneLine(ParseTranscript(path, content).value.exchanges)
  {
    var lines := ReadLines(content);
    var body := Concat(Uncommented(if lines == [] then [] else lines[1..]));
    var items := ItemsOf(body);
    ClassifyValues(items);
    var xs, es := ExchangeItems(items), Classify(items).value.exchanges;
    assert es == ParseTranscript(path, content).value.exchanges;
    forall i | 0 <= i < |es|
      ensures Trimmed(es[i].text) && '\n' !in es[i].text
    {
      assert Parses(xs[i], es[i]);
      ParsedTextOneLine(xs[i]);
    }
  }

  /** A header and tail that `parse_vtt` passes over, and exchange texts on
      one line each. */
  predicate Readable(t: Transcript) {
    '\n' !in t.header && !Contains(t.header, "-->")
    && '\n' !in t.tail && !Contains(t.tail, "-->")
    && TextsOnOneLine(t.exchanges)
  }

  /** `parse_vtt` of the document `Transcript.to_vtt` writes yields one
      caption per exchange, in order, with the exchange's text and its
      first two times to the millisecond. */
  lemma ReadBackDocument(t: Transcript)
    requires Timed(t.exchanges) && Readable(t)
    ensures CaptionsOf("WEBVTT\n\n" + Note(t.header) + Blocks(t.exchanges) + Note(t.tail))
         == Success(CaptionsFor(t.exchanges))
  {
    var es := t.exchanges;
    var doc := "WEBVTT\n\n" + Note(t.header) + Blocks(es) + Note(t.tail);
    var afterHeader := Blocks(es) + Note(t.tail);
    DocumentShape(Note(t.header), Blocks(es), Note(t.tail));
    var lead := LeadRead(Note(t.header) + afterHeader);
    var plain := NoteRead(t.header, afterHeader);
    BlocksRead(es, Note(t.tail));
    var post := LastNoteRead(t.tail);
    CaptionsOfCues(doc);
    DocumentCues(lead, plain, es, post);
  }

  /** Passing over the NOTE lines, the grammar yields the captions of the
      cue lines. */
  lemma DocumentCues(lead: seq<string>, plain: seq<string>, es: seq<Exchange>, post: seq<string>)
    requires Unstamped(lead) && Unstamped(plain) && Unstamped(post)
    requires Timed(es) && TextsOnOneLine(es)
    ensures Cues(lead + (plain + (CueLines(es) + post))) == Success(CaptionsFor(es))
  {
    CuesSkip(lead, plain + (CueLines(es) + post));
    CuesSkip(plain, CueLines(es) + post);
    CueLinesRead(es, post);
    AppendNil(post);
    CuesSkip(post, []);
    AppendNil(CaptionsFor(es));
  }

  /** The final NOTE block, read and stripped. */
  lemma LastNoteRead(s: string) returns (post: seq<string>)
    requires '\n' !in s && !Contains(s, "-->")
    ensures StripAll(ReadLines(Note(s))) == post && Unstamped(post)
  {
    AppendNil(Note(s));
    post := NoteRead(s, []);
    AppendNil(post);
    assert StripAll(ReadLines([])) == [];
  }

  /** The document as its first two lines followed by the rest. */
  lemma DocumentShape(x: string, y: string, z: string)
    ensures "WEBVTT\n\n" + x + y + z == "WEBVTT" + "\n" + ("" + "\n" + (x + (y + z)))
  {
    assert "WEBVTT\n\n" == "WEBVTT" + "\n" + ("" + "\n");
    AppendAssoc("WEBVTT\n\n" + x, y, z);
    AppendAssoc("WEBVTT\n\n", x, y + z);
    AppendAssoc("WEBVTT" + "\n", "" + "\n", x + (y + z));
  }

  /** The first two lines read as `WEBVTT` and an empty line. */
  lemma LeadRead(rest: string) returns (lead: seq<string>)
    ensures StripAll(ReadLines("WEBVTT" + "\n" + ("" + "\n" + rest))) == lead + StripAll(ReadLines(rest))
    ensures Unstamped(lead)
  {
    LeadLines(rest);
    LeadStripped(ReadLines(rest));
    lead := ["WEBVTT", ""];
    LeadUnstamped();
  }

  lemma LeadUnstamped()
    ensures Unstamped(["WEBVTT", ""])
  {
    NoArrow("WEBVTT");
    NoArrow("");
  }

  lemma LeadLines(rest: string)
    ensures ReadLines("WEBVTT" + "\n" + ("" + "\n" + rest)) == ["WEBVTT" + "\n"] + (["" + "\n"] + ReadLines(rest))
  {
    ReadLinesCons("", rest);
    ReadLinesCons("WEBVTT", "" + "\n" + rest);
  }

  lemma LeadStripped(r: seq<string>)
    ensures StripAll(["WEBVTT" + "\n"] + (["" + "\n"] + r)) == ["WEBVTT", ""] + StripAll(r)
  {
    StripLine("WEBVTT");
    StripLine("");
    StripAllCons("" + "\n", r);
    StripAllCons("WEBVTT" + "\n", ["" + "\n"] + r);
    ConsTwo("WEBVTT", "", StripAll(r));
  }
}
