/** The WebVTT reader shared, line for line, by split-audio.py and
    to-pickles.py: `vtt_time_to_float` and the line loop of `parse_vtt`.
    Times are whole milliseconds. */
module Captions {
  import opened Wrappers
  import opened Text
  import opened Numerals

  /** `Caption`: the text of a cue and its start and end. */
  datatype Caption = Caption(text: string, start: nat, end: nat)

  /** Why `parse_vtt` raises. */
  datatype VttError =
    | ShortTimeLine(line: string)   // IndexError on `vtt_times[2]`
    | BadTime(time: string)         // IndexError or ValueError in `vtt_time_to_float`

  // ---------------------------------------------------------------------
  // Times

  /** `vtt_time_to_float`: `time.split(':')`, whole hours and minutes from
      the first two fields and decimal seconds from the third, recombined as
      `h*3600 + m*60 + s`; fields after the third are not read. `None` where
      Python raises. */
  function VttTimeToMillis(time: string): Option<nat> {
    var parts := SplitOn(time, ':');
    if |parts| < 3 then None
    else
      match (ParseNat(parts[0]), ParseNat(parts[1]), ParseMillis(parts[2]))
      case (Some(h), Some(m), Some(s)) => Some(h * 3600000 + m * 60000 + s)
      case _ => None
  }

  /** A time written as hours, minutes and seconds fields reads back as
      `h*3600 + m*60 + s`, whatever the widths of the fields. */
  lemma VttTimeRecombines(h: string, m: string, s: string)
    requires h != [] && AllDigits(h) && m != [] && AllDigits(m)
    requires ':' !in s && ParseMillis(s).Some?
    ensures VttTimeToMillis(h + ":" + m + ":" + s) == Some(Value(h) * 3600000 + Value(m) * 60000 + ParseMillis(s).value)
  {
    DigitsNoColon(h);
    DigitsNoColon(m);
    SplitThree(h, m, s);
  }

  // ---------------------------------------------------------------------
  // The line loop

  /** The start and end of a timestamp line: its first and third
      whitespace-separated tokens. */
  function LineTimes(line: string): Result<(nat, nat), VttError> {
    var tokens := SplitWs(line);
    if |tokens| < 3 then Failure(ShortTimeLine(line))
    else
      match VttTimeToMillis(tokens[0])
      case None => Failure(BadTime(tokens[0]))
      case Some(start) =>
        match VttTimeToMillis(tokens[2])
        case None => Failure(BadTime(tokens[2]))
        case Some(end) => Success((start, end))
  }

  /** The variables of the loop: `is_caption`, `times` and `captions`. */
  datatype Reader = Reader(isCaption: bool, start: nat, end: nat, captions: seq<Caption>)

  /** One iteration of the loop: the line after a timestamp line is the
      caption text, whatever it holds; otherwise a line containing `-->`
      sets the times, and any other line is passed over. */
  function Step(r: Reader, line: string): Result<Reader, VttError> {
    if r.isCaption then
      Success(Reader(false, r.start, r.end, r.captions + [Caption(Strip(line), r.start, r.end)]))
    else if Contains(line, "-->") then
      match LineTimes(line)
      case Failure(e) => Failure(e)
      case Success((start, end)) => Success(Reader(true, start, end, r.captions))
    else Success(r)
  }

  /** The loop from state `r` over the remaining `lines`. */
  function Run(r: Reader, lines: seq<string>): Result<Reader, VttError>
    decreases |lines|
  {
    if lines == [] then Success(r)
    else
      match Step(r, lines[0])
      case Failure(e) => Failure(e)
      case Success(next) => Run(next, lines[1..])
  }

  /** `[l.strip() for l in f.readlines()]` */
  function StripAll(lines: seq<string>): (r: seq<string>)
    ensures |r| == |lines|
    ensures forall i :: 0 <= i < |r| ==> r[i] == Strip(lines[i])
  {
    if lines == [] then [] else [Strip(lines[0])] + StripAll(lines[1..])
  }

  /** `parse_vtt` on the text of the file. */
  function CaptionsOf(content: string): Result<seq<Caption>, VttError> {
    match Run(Reader(false, 0, 0, []), StripAll(ReadLines(content)))
    case Failure(e) => Failure(e)
    case Success(r) => Success(r.captions)
  }

  /** `parse_vtt`, the file given as its text; `times` is the two-element
      list the loop updates in place. */
  method ParseVtt(content: string) returns (r: Result<seq<Caption>, VttError>)
    ensures r == CaptionsOf(content)
  {
    var lines := StripAll(ReadLines(content));
    var times := new nat[2];
    times[0], times[1] := 0, 0;
    var isCaption := false;
    var captions: seq<Caption> := [];
    ghost var start := Reader(false, 0, 0, []);
    for i := 0 to |lines|
      invariant Run(start, lines) == Run(Reader(isCaption, times[0], times[1], captions), lines[i..])
    {
      var line := lines[i];
      ghost var here := Reader(isCaption, times[0], times[1], captions);
      RunStep(here, lines, i);
      if isCaption {
        var text := Strip(line);
        captions := captions + [Caption(text, times[0], times[1])];
        isCaption := false;
        assert Step(here, line) == Success(Reader(isCaption, times[0], times[1], captions));
        continue;
      }
      if Contains(line, "-->") {
        var vttTimes := SplitWs(line);
        if |vttTimes| < 3 {
          assert Step(here, line) == Failure(ShortTimeLine(line));
          return Failure(ShortTimeLine(line));
        }
        var vttStart, vttEnd := vttTimes[0], vttTimes[2];
        var s := VttTimeToMillis(vttStart);
        if s.None? {
          assert Step(here, line) == Failure(BadTime(vttStart));
          return Failure(BadTime(vttStart));
        }
        times[0] := s.value;
        var e := VttTimeToMillis(vttEnd);
        if e.None? {
          assert Step(here, line) == Failure(BadTime(vttEnd));
          return Failure(BadTime(vttEnd));
        }
        times[1] := e.value;
        isCaption := true;
        assert Step(here, line) == Success(Reader(isCaption, times[0], times[1], captions));
      } else {
        assert Step(here, line) == Success(here);
      }
    }
    assert lines[|lines|..] == [];
    r := Success(captions);
  }

  /** The loop over `lines[i..]` is one step followed by the loop over
      `lines[i + 1..]`. */
  lemma RunStep(r: Reader, lines: seq<string>, i: nat)
    requires i < |lines|
    ensures Run(r, lines[i..]) == match Step(r, lines[i])
      case Failure(e) => Failure(e)
      case Success(next) => Run(next, lines[i + 1..])
  {
    assert lines[i..][0] == lines[i] && lines[i..][1..] == lines[i + 1..];
  }

  // ---------------------------------------------------------------------
  // The captions as a grammar over lines

  /** A timestamp line followed by any line is one caption, in file order;
      a timestamp line with nothing after it yields nothing; every other
      line is skipped. */
  function Cues(lines: seq<string>): Result<seq<Caption>, VttError>
    decreases |lines|
  {
    if lines == [] then Success([])
    else if !Contains(lines[0], "-->") then Cues(lines[1..])
    else
      match LineTimes(lines[0])
      case Failure(e) => Failure(e)
      case Success((start, end)) =>
        if |lines| == 1 then Success([])
        else Prepend([Caption(Strip(lines[1]), start, end)], Cues(lines[2..]))
  }

  /** `cs` in front of the captions of a successful read. */
  function Prepend(cs: seq<Caption>, r: Result<seq<Caption>, VttError>): Result<seq<Caption>, VttError> {
    match r
    case Failure(e) => Failure(e)
    case Success(rest) => Success(cs + rest)
  }

  /** The captions collected by the loop. */
  function Collected(r: Result<Reader, VttError>): Result<seq<Caption>, VttError> {
    match r
    case Failure(e) => Failure(e)
    case Success(reader) => Success(reader.captions)
  }

  /** The loop, started between captions with `acc` collected, collects
      `acc` followed by the captions of the grammar, or fails with the same
      error. */
  lemma {:induction false} RunCues(acc: seq<Caption>, start: nat, end: nat, lines: seq<string>)
    ensures Collected(Run(Reader(false, start, end, acc), lines)) == Prepend(acc, Cues(lines))
    decreases |lines|
  {
    var r := Reader(false, start, end, acc);
    if lines == [] {
      assert acc + [] == acc;
    } else if !Contains(lines[0], "-->") {
      RunCues(acc, start, end, lines[1..]);
    } else {
      match LineTimes(lines[0])
      case Failure(e) =>
      case Success((s, e)) =>
        var open := Reader(true, s, e, acc);
        assert Step(r, lines[0]) == Success(open);
        if |lines| == 1 {
          assert Run(open, []) == Success(open);
          assert acc + [] == acc;
        } else {
          var c := Caption(Strip(lines[1]), s, e);
          var rest := lines[1..];
          assert Run(r, lines) == Run(open, rest);
          assert Step(open, rest[0]) == Success(Reader(false, s, e, acc + [c]));
          assert rest[1..] == lines[2..];
          assert Run(open, rest) == Run(Reader(false, s, e, acc + [c]), lines[2..]);
          RunCues(acc + [c], s, e, lines[2..]);
          PrependTwice(acc, [c], Cues(lines[2..]));
        }
    }
  }

  lemma PrependTwice(a: seq<Caption>, b: seq<Caption>, r: Result<seq<Caption>, VttError>)
    ensures Prepend(a + b, r) == Prepend(a, Prepend(b, r))
  {
    if r.Success? {
      assert (a + b) + r.value == a + (b + r.value);
    }
  }

  /** `parse_vtt` reads the captions the grammar gives for the stripped
      lines of the file. */
  lemma CaptionsOfCues(content: string)
    ensures CaptionsOf(content) == Cues(StripAll(ReadLines(content)))
  {
    var lines := StripAll(ReadLines(content));
    RunCues([], 0, 0, lines);
    var c := Cues(lines);
    if c.Success? {
      assert [] + c.value == c.value;
    }
  }

  /** Lines without `-->` yield nothing, wherever they stand before the
      next timestamp line. */
  lemma {:induction false} CuesSkip(plain: seq<string>, rest: seq<string>)
    requires forall i :: 0 <= i < |plain| ==> !Contains(plain[i], "-->")
    ensures Cues(plain + rest) == Cues(rest)
    decreases |plain|
  {
    if plain == [] {
      assert plain + rest == rest;
    } else {
      assert !Contains((plain + rest)[0], "-->");
      assert (plain + rest)[1..] == plain[1..] + rest;
      CuesSkip(plain[1..], rest);
    }
  }

  /** One line without `-->` yields nothing. */
  lemma CuesSkipOne(line: string, rest: seq<string>)
    requires !Contains(line, "-->")
    ensures Cues([line] + rest) == Cues(rest)
  {
    var lines := [line] + rest;
    assert lines[0] == line && lines[1..] == rest;
  }

  /** The line after a timestamp line is taken as the text of one caption,
      even when it is empty or holds `-->` itself. */
  lemma {:induction false} CuesTextLine(stamp: string, text: string, rest: seq<string>)
    requires Contains(stamp, "-->") && LineTimes(stamp).Success?
    ensures Cues([stamp, text] + rest)
         == Prepend([Caption(Strip(text), LineTimes(stamp).value.0, LineTimes(stamp).value.1)], Cues(rest))
  {
    var lines := [stamp, text] + rest;
    assert lines[0] == stamp && lines[1] == text && lines[2..] == rest;
  }

  /** A successful read yields at most one caption per two lines. */
  lemma {:induction false} CuesCount(lines: seq<string>)
    requires Cues(lines).Success?
    ensures 2 * |Cues(lines).value| <= |lines|
    decreases |lines|
  {
    if lines != [] {
      if !Contains(lines[0], "-->") {
        CuesCount(lines[1..]);
      } else if |lines| > 1 {
        CuesCount(lines[2..]);
      }
    }
  }
}
