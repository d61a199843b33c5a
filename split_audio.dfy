/** `main` of split-audio.py: pick the `.wav` recordings and `.vtt`
    transcripts, match each recording to a transcript whose path holds its
    stem, then cut one part per caption, numbered from 1, into the tape's
    output directory. The audio itself is not modelled: a part is its output
    path and its window in milliseconds. */
module SplitAudio {
  import opened Wrappers
  import opened Text
  import opened Paths
  import opened Captions
  import opened Lists

  // ---------------------------------------------------------------------
  // Picking files by extension

  /** The entries of a directory listing whose name has extension `ext`,
      in listing order. */
  function Picked(entries: seq<string>, ext: string): seq<string> {
    if entries == [] then []
    else
      var init := Picked(entries[..|entries| - 1], ext);
      var last := entries[|entries| - 1];
      if Extension(BaseName(last)) == ext then init + [last] else init
  }

  /** The `os.scandir` loops: keep the paths whose name has extension `ext`. */
  method CollectFiles(entries: seq<string>, ext: string) returns (files: seq<string>)
    ensures files == Picked(entries, ext)
  {
    files := [];
    for i := 0 to |entries|
      invariant files == Picked(entries[..i], ext)
    {
      assert entries[..i + 1][..i] == entries[..i];
      if Extension(BaseName(entries[i])) == ext {
        files := files + [entries[i]];
      }
    }
    assert entries[..|entries|] == entries;
  }

  /** A path is picked exactly when it is listed and has the extension. */
  lemma {:induction false} PickedMembers(entries: seq<string>, ext: string, p: string)
    ensures p in Picked(entries, ext) <==> p in entries && Extension(BaseName(p)) == ext
  {
    if entries != [] {
      var init, last := entries[..|entries| - 1], entries[|entries| - 1];
      PickedMembers(init, ext, p);
      FrontAndLast(entries);
      if Extension(BaseName(last)) == ext {
        assert Picked(entries, ext) == Picked(init, ext) + [last];
      } else {
        assert Picked(entries, ext) == Picked(init, ext);
      }
    }
  }

  /** Nothing is picked exactly when no listed name has the extension. */
  lemma PickedEmpty(entries: seq<string>, ext: string)
    ensures Picked(entries, ext) == [] <==> forall i :: 0 <= i < |entries| ==> Extension(BaseName(entries[i])) != ext
  {
    if Picked(entries, ext) != [] {
      var p := Picked(entries, ext)[0];
      PickedMembers(entries, ext, p);
    } else {
      forall i | 0 <= i < |entries|
        ensures Extension(BaseName(entries[i])) != ext
      {
        PickedMembers(entries, ext, entries[i]);
      }
    }
  }

  // ---------------------------------------------------------------------
  // The `matches` dictionary

  /** `matches[tape] = {"audio": audio, "transcript": transcript}` */
  datatype Entry = Entry(tape: string, audio: string, transcript: string)

  /** The keys of the dictionary, in insertion order. */
  function Tapes(m: seq<Entry>): (ks: seq<string>)
    ensures |ks| == |m|
    ensures forall i :: 0 <= i < |m| ==> ks[i] == m[i].tape
  {
    if m == [] then [] else [m[0].tape] + Tapes(m[1..])
  }

  /** `matches.get(tape)` */
  function Lookup(m: seq<Entry>, tape: string): Option<Entry> {
    if m == [] then None
    else if m[0].tape == tape then Some(m[0])
    else Lookup(m[1..], tape)
  }

  /** Assignment `matches[e.tape] = e`: an existing key keeps its place and
      takes the new value; a new key goes last. */
  function Put(m: seq<Entry>, e: Entry): seq<Entry> {
    if m == [] then [e]
    else if m[0].tape == e.tape then [e] + m[1..]
    else [m[0]] + Put(m[1..], e)
  }

  /** After the assignment the key maps to the new value and every other
      key to what it mapped to before. */
  lemma {:induction false} PutLookup(m: seq<Entry>, e: Entry, k: string)
    ensures Lookup(Put(m, e), k) == if k == e.tape then Some(e) else Lookup(m, k)
  {
    if m != [] && m[0].tape != e.tape {
      PutLookup(m[1..], e, k);
      assert Put(m, e)[1..] == Put(m[1..], e);
    }
  }

  /** The keys after the assignment: unchanged when the key was present,
      otherwise the new key appended. */
  lemma {:induction false} PutTapes(m: seq<Entry>, e: Entry)
    ensures Tapes(Put(m, e)) == if e.tape in Tapes(m) then Tapes(m) else Tapes(m) + [e.tape]
  {
    if m != [] {
      var rest := m[1..];
      assert Tapes(m) == [m[0].tape] + Tapes(rest);
      if m[0].tape == e.tape {
        assert Tapes(Put(m, e)) == [e.tape] + Tapes(rest);
      } else {
        PutTapes(rest, e);
        assert Tapes(Put(m, e)) == [m[0].tape] + Tapes(Put(rest, e));
        assert e.tape in Tapes(m) <==> e.tape in Tapes(rest);
      }
    }
  }

  /** Keys stay distinct under assignment. */
  lemma PutDistinct(m: seq<Entry>, e: Entry)
    requires Distinct(Tapes(m))
    ensures Distinct(Tapes(Put(m, e)))
  {
    PutTapes(m, e);
    if e.tape !in Tapes(m) {
      DistinctSnoc(Tapes(m), e.tape);
    }
  }

  /** A second assignment to the same key overrides the first. */
  lemma {:induction false} PutPut(m: seq<Entry>, e: Entry, f: Entry)
    requires e.tape == f.tape
    ensures Put(Put(m, e), f) == Put(m, f)
  {
    if m != [] && m[0].tape != e.tape {
      PutPut(m[1..], e, f);
      assert Put(m, e) == [m[0]] + Put(m[1..], e);
      assert Put(Put(m, e), f) == [m[0]] + Put(Put(m[1..], e), f);
    }
  }

  /** Every entry after the assignment is the new one or an old one. */
  lemma {:induction false} PutEntries(m: seq<Entry>, e: Entry, x: Entry)
    requires x in Put(m, e)
    ensures x == e || x in m
  {
    if m != [] && m[0].tape != e.tape && x != m[0] {
      PutEntries(m[1..], e, x);
    }
  }

  /** No tape holds a `/`. */
  predicate SlashFree(m: seq<Entry>) {
    forall i :: 0 <= i < |m| ==> '/' !in m[i].tape
  }

  // ---------------------------------------------------------------------
  // Matching

  /** The last transcript path that holds `name`. */
  function LastContaining(ts: seq<string>, name: string): Option<string> {
    if ts == [] then None
    else if Contains(ts[|ts| - 1], name) then Some(ts[|ts| - 1])
    else LastContaining(ts[..|ts| - 1], name)
  }

  /** The last recording whose stem is `name`. */
  function LastWithStem(audio: seq<string>, name: string): Option<string> {
    if audio == [] then None
    else if Stem(audio[|audio| - 1]) == name then Some(audio[|audio| - 1])
    else LastWithStem(audio[..|audio| - 1], name)
  }

  /** The inner loop for one recording: every transcript path holding its
      stem is assigned in turn. */
  function MatchOne(m: seq<Entry>, audio: string, ts: seq<string>): seq<Entry> {
    if ts == [] then m
    else
      var before := MatchOne(m, audio, ts[..|ts| - 1]);
      var t := ts[|ts| - 1];
      if Contains(t, Stem(audio)) then Put(before, Entry(Stem(audio), audio, t)) else before
  }

  /** The dictionary after the nested loops over recordings and transcripts. */
  function MatchTable(audio: seq<string>, ts: seq<string>): seq<Entry> {
    if audio == [] then []
    else MatchOne(MatchTable(audio[..|audio| - 1], ts), audio[|audio| - 1], ts)
  }

  /** The nested loops of `main` that fill `matches`. */
  method MatchFiles(audio: seq<string>, ts: seq<string>) returns (matches: seq<Entry>)
    ensures matches == MatchTable(audio, ts)
  {
    matches := [];
    for i := 0 to |audio|
      invariant matches == MatchTable(audio[..i], ts)
    {
      var file := audio[i];
      var name := Stem(file);
      ghost var before := matches;
      for j := 0 to |ts|
        invariant matches == MatchOne(before, file, ts[..j])
      {
        MatchOneStep(before, file, ts, j);
        if Contains(ts[j], name) {
          matches := Put(matches, Entry(name, file, ts[j]));
        }
      }
      assert ts[..|ts|] == ts;
      MatchTableStep(audio, ts, i);
    }
    assert audio[..|audio|] == audio;
  }

  /** One more transcript path in the inner loop. */
  lemma MatchOneStep(m: seq<Entry>, audio: string, ts: seq<string>, j: nat)
    requires j < |ts|
    ensures MatchOne(m, audio, ts[..j + 1]) ==
      if Contains(ts[j], Stem(audio)) then Put(MatchOne(m, audio, ts[..j]), Entry(Stem(audio), audio, ts[j]))
      else MatchOne(m, audio, ts[..j])
  {
    var t := ts[..j + 1];
    assert t[..|t| - 1] == ts[..j] && t[|t| - 1] == ts[j];
  }

  /** One more recording in the outer loop. */
  lemma MatchTableStep(audio: seq<string>, ts: seq<string>, i: nat)
    requires i < |audio|
    ensures MatchTable(audio[..i + 1], ts) == MatchOne(MatchTable(audio[..i], ts), audio[i], ts)
  {
    var a := audio[..i + 1];
    assert a[..|a| - 1] == audio[..i] && a[|a| - 1] == audio[i];
  }

  /** The last transcript path holding `name` is a listed path that holds
      it, and no later path does; there is none exactly when no path holds
      `name`. */
  lemma {:induction false} LastContainingSpec(ts: seq<string>, name: string)
    ensures LastContaining(ts, name).None? <==> forall i :: 0 <= i < |ts| ==> !Contains(ts[i], name)
    ensures LastContaining(ts, name).Some? ==>
      exists i :: 0 <= i < |ts| && ts[i] == LastContaining(ts, name).value && Contains(ts[i], name)
        && forall j :: i < j < |ts| ==> !Contains(ts[j], name)
  {
    if ts != [] {
      var init := ts[..|ts| - 1];
      LastContainingSpec(init, name);
      assert forall i :: 0 <= i < |init| ==> ts[i] == init[i];
    }
  }

  /** The inner loop leaves the dictionary alone when no path holds the
      stem, and otherwise assigns the last such path. */
  lemma {:induction false} MatchOneLast(m: seq<Entry>, audio: string, ts: seq<string>)
    ensures MatchOne(m, audio, ts) == match LastContaining(ts, Stem(audio))
      case None => m
      case Some(t) => Put(m, Entry(Stem(audio), audio, t))
  {
    if ts != [] {
      var init, t := ts[..|ts| - 1], ts[|ts| - 1];
      MatchOneLast(m, audio, init);
      if Contains(t, Stem(audio)) {
        match LastContaining(init, Stem(audio))
        case None =>
        case Some(u) =>
          PutPut(m, Entry(Stem(audio), audio, u), Entry(Stem(audio), audio, t));
      }
    }
  }

  /** A tape is in the dictionary exactly when some recording has it as its
      stem and some transcript path holds it; its entry pairs the last such
      recording with the last such path. */
  lemma {:induction false} MatchTableLookup(audio: seq<string>, ts: seq<string>, k: string)
    ensures Lookup(MatchTable(audio, ts), k) ==
      match (LastWithStem(audio, k), LastContaining(ts, k))
      case (Some(a), Some(t)) => Some(Entry(k, a, t))
      case _ => None
  {
    if audio != [] {
      var init, last := audio[..|audio| - 1], audio[|audio| - 1];
      MatchTableLookup(init, ts, k);
      MatchOneLast(MatchTable(init, ts), last, ts);
      match LastContaining(ts, Stem(last))
      case None =>
      case Some(t) =>
        PutLookup(MatchTable(init, ts), Entry(Stem(last), last, t), k);
    }
  }

  /** Each tape appears once, in the order its first matching recording was
      listed. */
  lemma {:induction false} MatchTableDistinct(audio: seq<string>, ts: seq<string>)
    ensures Distinct(Tapes(MatchTable(audio, ts)))
  {
    if audio != [] {
      var init, last := audio[..|audio| - 1], audio[|audio| - 1];
      MatchTableDistinct(init, ts);
      MatchOneLast(MatchTable(init, ts), last, ts);
      match LastContaining(ts, Stem(last))
      case None =>
      case Some(t) =>
        PutDistinct(MatchTable(init, ts), Entry(Stem(last), last, t));
    }
  }

  /** Tapes are stems of recordings, so none holds a `/`. */
  lemma {:induction false} MatchTableSlashFree(audio: seq<string>, ts: seq<string>)
    ensures SlashFree(MatchTable(audio, ts))
  {
    if audio != [] {
      var init, last := audio[..|audio| - 1], audio[|audio| - 1];
      var before := MatchTable(init, ts);
      MatchTableSlashFree(init, ts);
      MatchOneLast(before, last, ts);
      match LastContaining(ts, Stem(last))
      case None =>
      case Some(t) =>
        var e := Entry(Stem(last), last, t);
        var after := Put(before, e);
        forall i | 0 <= i < |after|
          ensures '/' !in after[i].tape
        {
          PutEntries(before, e, after[i]);
        }
    }
  }

  /** A recording either adds its stem at the end of the dictionary, or
      leaves the order of the tapes as it was. */
  lemma MatchTableOrder(audio: seq<string>, ts: seq<string>, file: string)
    ensures Tapes(MatchTable(audio + [file], ts)) ==
      if LastContaining(ts, Stem(file)).None? || Stem(file) in Tapes(MatchTable(audio, ts))
      then Tapes(MatchTable(audio, ts))
      else Tapes(MatchTable(audio, ts)) + [Stem(file)]
  {
    var all := audio + [file];
    assert all[..|all| - 1] == audio;
    MatchOneLast(MatchTable(audio, ts), file, ts);
    match LastContaining(ts, Stem(file))
    case None =>
    case Some(t) =>
      PutTapes(MatchTable(audio, ts), Entry(Stem(file), file, t));
  }

  /** Without transcripts nothing is matched. */
  lemma {:induction false} NoTranscriptsNoMatches(audio: seq<string>)
    ensures MatchTable(audio, []) == []
  {
    if audio != [] {
      NoTranscriptsNoMatches(audio[..|audio| - 1]);
    }
  }

  // ---------------------------------------------------------------------
  // Cutting one tape

  /** One exported part: its output file and its window `[start, end)` in
      milliseconds. */
  datatype Part = Part(path: string, start: nat, end: nat)

  const SplitRoot: string := "/home/luke/split-test/"

  /** `f'/home/luke/split-test/{tape}/part-{current}.mp3'` */
  function OutputPath(tape: string, n: nat): string {
    SplitRoot + tape + "/" + PartName(n)
  }

  /** Output paths of tapes without `/` differ whenever the tape or the
      part number differs. */
  lemma OutputPathInjective(t1: string, n1: nat, t2: string, n2: nat)
    requires '/' !in t1 && '/' !in t2
    requires OutputPath(t1, n1) == OutputPath(t2, n2)
    ensures t1 == t2 && n1 == n2
  {
    TapeDirSplit(t1, PartName(n1), t2, PartName(n2));
    PartNameInjective(n1, n2);
  }

  /** Under the split root, a slash-free tape directory and the name inside
      it are recovered from the path. */
  lemma TapeDirSplit(t1: string, x1: string, t2: string, x2: string)
    requires '/' !in t1 && '/' !in t2
    requires SplitRoot + t1 + "/" + x1 == SplitRoot + t2 + "/" + x2
    ensures t1 == t2 && x1 == x2
  {
    var x, y := t1 + "/" + x1, t2 + "/" + x2;
    assert SplitRoot + x == SplitRoot + t1 + "/" + x1;
    assert SplitRoot + y == SplitRoot + t2 + "/" + x2;
    CancelLeft(SplitRoot, x, y);
    SlashSplit(t1, x1, t2, x2);
  }

  /** The text before the first `/` is the same on both sides. */
  lemma SlashSplit(a: string, b: string, c: string, d: string)
    requires '/' !in a && '/' !in c && a + "/" + b == c + "/" + d
    ensures a == c && b == d
  {
    var s := a + ['/'] + b;
    assert s == c + ['/'] + d;
    SplitOnCons(a, '/', b);
    SplitOnCons(c, '/', d);
    assert SplitOn(s, '/')[0] == a;
    assert SplitOn(s, '/')[0] == c;
    CancelLeft(a + "/", b, d);
  }

  /** The parts of one tape: caption `i` becomes part `i + 1`. */
  function TapeParts(tape: string, captions: seq<Caption>): (parts: seq<Part>)
    ensures |parts| == |captions|
    ensures forall i :: 0 <= i < |parts| ==> parts[i] == Part(OutputPath(tape, i + 1), captions[i].start, captions[i].end)
  {
    seq(|captions|, i requires 0 <= i < |captions| => Part(OutputPath(tape, i + 1), captions[i].start, captions[i].end))
  }

  /** The caption loop of `main` for one tape: each caption's window is cut
      and exported as the next part, counting from 1. */
  method SplitTape(tape: string, captions: seq<Caption>) returns (parts: seq<Part>)
    ensures |parts| == |captions|
    ensures forall i :: 0 <= i < |parts| ==>
      parts[i].path == OutputPath(tape, i + 1) && parts[i].start == captions[i].start && parts[i].end == captions[i].end
    ensures '/' !in tape ==> forall i, j :: 0 <= i < j < |parts| ==> parts[i].path != parts[j].path
  {
    parts := [];
    var current := 1;
    for k := 0 to |captions|
      invariant current == k + 1 && |parts| == k
      invariant forall i :: 0 <= i < k ==> parts[i] == Part(OutputPath(tape, i + 1), captions[i].start, captions[i].end)
    {
      var caption := captions[k];
      var startMillis, endMillis := caption.start, caption.end;
      parts := parts + [Part(OutputPath(tape, current), startMillis, endMillis)];
      current := current + 1;
    }
    if '/' !in tape {
      forall i, j | 0 <= i < j < |parts|
        ensures parts[i].path != parts[j].path
      {
        if parts[i].path == parts[j].path {
          OutputPathInjective(tape, i + 1, tape, j + 1);
        }
      }
    }
  }

  // ---------------------------------------------------------------------
  // The whole run

  /** How `main` ends. */
  datatype Outcome =
    | Done
    | NoTranscripts                                   // the early return
    | BadTranscript(path: string, error: VttError)    // raised in `parse_vtt`

  /** What `parse_vtt` makes of the transcript at a path. */
  type Parse = string -> Result<seq<Caption>, VttError>

  /** `parse_vtt` on the file at a path; `read` gives the text of a file. */
  function ReadCaptions(read: string -> string): Parse {
    path => CaptionsOf(read(path))
  }

  /** Parts exported before a run that goes on as `r`. */
  function Then(done: seq<Part>, r: (seq<Part>, Outcome)): (seq<Part>, Outcome) {
    (done + r.0, r.1)
  }

  /** The parts exported for the matched tapes, in dictionary order, up to
      the first transcript `parse_vtt` cannot read. */
  function Exports(matches: seq<Entry>, parse: Parse): (seq<Part>, Outcome) {
    if matches == [] then ([], Done)
    else
      match parse(matches[0].transcript)
      case Failure(e) => ([], BadTranscript(matches[0].transcript, e))
      case Success(cs) => Then(TapeParts(matches[0].tape, cs), Exports(matches[1..], parse))
  }

  /** The run on two directory listings; `read` gives the text of a file. */
  function SplitRun(audioEntries: seq<string>, transcriptEntries: seq<string>, read: string -> string): (seq<Part>, Outcome) {
    var ts := Picked(transcriptEntries, ".vtt");
    if ts == [] then ([], NoTranscripts)
    else Exports(MatchTable(Picked(audioEntries, ".wav"), ts), ReadCaptions(read))
  }

  /** The loop of `main` over `matches.items()`: each tape is cut in
      dictionary order, and an unreadable transcript ends the run with the
      parts of the earlier tapes already exported. */
  method ExportAll(matches: seq<Entry>, read: string -> string) returns (exports: seq<Part>, outcome: Outcome)
    ensures (exports, outcome) == Exports(matches, ReadCaptions(read))
  {
    exports := [];
    assert matches[0..] == matches;
    assert [] + Exports(matches, ReadCaptions(read)).0 == Exports(matches, ReadCaptions(read)).0;
    for i := 0 to |matches|
      invariant Exports(matches, ReadCaptions(read)) == Then(exports, Exports(matches[i..], ReadCaptions(read)))
    {
      var data := matches[i];
      ExportsStep(matches, i, ReadCaptions(read));
      var captions := ParseVtt(read(data.transcript));
      assert captions == ReadCaptions(read)(data.transcript);
      if captions.Failure? {
        assert exports + [] == exports;
        return exports, BadTranscript(data.transcript, captions.error);
      }
      var parts := SplitTape(data.tape, captions.value);
      assert parts == TapeParts(data.tape, captions.value);
      ThenThen(exports, parts, Exports(matches[i + 1..], ReadCaptions(read)));
      exports := exports + parts;
    }
    assert matches[|matches|..] == [];
    assert exports + [] == exports;
    outcome := Done;
  }

  lemma ThenThen(a: seq<Part>, b: seq<Part>, r: (seq<Part>, Outcome))
    ensures Then(a, Then(b, r)) == Then(a + b, r)
  {
    assert a + (b + r.0) == (a + b) + r.0;
  }

  /** The loop over `matches[i..]` is tape `i` followed by the loop over
      `matches[i + 1..]`. */
  lemma ExportsStep(matches: seq<Entry>, i: nat, parse: Parse)
    requires i < |matches|
    ensures Exports(matches[i..], parse) ==
      match parse(matches[i].transcript)
      case Failure(e) => ([], BadTranscript(matches[i].transcript, e))
      case Success(cs) => Then(TapeParts(matches[i].tape, cs), Exports(matches[i + 1..], parse))
  {
    assert matches[i..][0] == matches[i] && matches[i..][1..] == matches[i + 1..];
  }

  /** The output paths of a run of parts. */
  function PathsOf(parts: seq<Part>): (paths: seq<string>)
    ensures |paths| == |parts|
    ensures forall i :: 0 <= i < |parts| ==> paths[i] == parts[i].path
  {
    seq(|parts|, i requires 0 <= i < |parts| => parts[i].path)
  }

  /** Each exported part belongs to one matched tape. */
  lemma {:induction false} ExportOwner(matches: seq<Entry>, parse: Parse, k: nat) returns (i: nat, n: nat)
    requires k < |Exports(matches, parse).0|
    ensures i < |matches| && Exports(matches, parse).0[k].path == OutputPath(matches[i].tape, n)
  {
    assert matches != [];
    var r := parse(matches[0].transcript);
    assert r.Success?;
    var here := TapeParts(matches[0].tape, r.value);
    var tail := matches[1..];
    var rest := Exports(tail, parse).0;
    var exported := Exports(matches, parse).0;
    assert exported == here + rest;
    if k < |here| {
      assert exported[k] == here[k];
      i, n := 0, k + 1;
    } else {
      assert exported[k] == rest[k - |here|];
      var j, m := ExportOwner(tail, parse, k - |here|);
      assert tail[j] == matches[j + 1];
      i, n := j + 1, m;
    }
  }

  /** The parts of one tape go to different files. */
  lemma TapePartsDistinct(tape: string, captions: seq<Caption>)
    requires '/' !in tape
    ensures Distinct(PathsOf(TapeParts(tape, captions)))
  {
    var paths := PathsOf(TapeParts(tape, captions));
    forall i, j | 0 <= i < j < |paths|
      ensures paths[i] != paths[j]
    {
      if paths[i] == paths[j] {
        OutputPathInjective(tape, i + 1, tape, j + 1);
      }
    }
  }

  /** With distinct tapes free of `/`, no two exported parts are written
      to the same file. */
  lemma {:induction false} ExportsDistinct(matches: seq<Entry>, parse: Parse)
    requires Distinct(Tapes(matches)) && SlashFree(matches)
    ensures Distinct(PathsOf(Exports(matches, parse).0))
  {
    if matches != [] {
      var r := parse(matches[0].transcript);
      if r.Success? {
        var tape := matches[0].tape;
        var here := TapeParts(tape, r.value);
        var tail := matches[1..];
        var rest := Exports(tail, parse).0;
        assert Tapes(tail) == Tapes(matches)[1..];
        DistinctTail(Tapes(matches));
        ExportsDistinct(tail, parse);
        TapePartsDistinct(tape, r.value);
        ExportsDisjoint(tape, r.value, tail, parse);
        PathsAppend(here, rest);
        assert Exports(matches, parse).0 == here + rest;
      }
    }
  }

  /** Two runs of parts with distinct paths and no path in common. */
  lemma PathsAppend(a: seq<Part>, b: seq<Part>)
    requires Distinct(PathsOf(a)) && Distinct(PathsOf(b))
    requires forall x, y :: 0 <= x < |a| && 0 <= y < |b| ==> PathsOf(a)[x] != PathsOf(b)[y]
    ensures Distinct(PathsOf(a + b))
  {
    DistinctAppend(PathsOf(a), PathsOf(b));
    assert PathsOf(a + b) == PathsOf(a) + PathsOf(b);
  }

  /** The parts of a tape go to other files than those of later tapes. */
  lemma ExportsDisjoint(tape: string, captions: seq<Caption>, tail: seq<Entry>, parse: Parse)
    requires '/' !in tape && tape !in Tapes(tail) && SlashFree(tail)
    ensures forall x, y :: 0 <= x < |captions| && 0 <= y < |Exports(tail, parse).0| ==>
      PathsOf(TapeParts(tape, captions))[x] != PathsOf(Exports(tail, parse).0)[y]
  {
    var a, b := PathsOf(TapeParts(tape, captions)), PathsOf(Exports(tail, parse).0);
    forall x, y | 0 <= x < |a| && 0 <= y < |b|
      ensures a[x] != b[y]
    {
      var i, n := ExportOwner(tail, parse, y);
      assert Tapes(tail)[i] == tail[i].tape;
      if a[x] == b[y] {
        OutputPathInjective(tape, x + 1, tail[i].tape, n);
      }
    }
  }

  /** A whole run never writes two parts to the same file. */
  lemma SplitRunDistinct(audioEntries: seq<string>, transcriptEntries: seq<string>, read: string -> string)
    ensures Distinct(PathsOf(SplitRun(audioEntries, transcriptEntries, read).0))
  {
    var ts := Picked(transcriptEntries, ".vtt");
    if ts != [] {
      var audio := Picked(audioEntries, ".wav");
      MatchTableDistinct(audio, ts);
      MatchTableSlashFree(audio, ts);
      ExportsDistinct(MatchTable(audio, ts), ReadCaptions(read));
    }
  }

  /** `main` given the two directory listings. */
  method SplitAll(audioEntries: seq<string>, transcriptEntries: seq<string>, read: string -> string)
    returns (exports: seq<Part>, outcome: Outcome)
    ensures (exports, outcome) == SplitRun(audioEntries, transcriptEntries, read)
  {
    var audioFiles := CollectFiles(audioEntries, ".wav");
    var transcriptFiles := CollectFiles(transcriptEntries, ".vtt");
    if |transcriptFiles| == 0 {
      return [], NoTranscripts;
    }
    var matches := MatchFiles(audioFiles, transcriptFiles);
    exports, outcome := ExportAll(matches, read);
  }
}
