/** The data assembly of to-pickles.py: the part files listed for each tape
    directory, and `join_dicts`, which lines up caption texts with audio
    parts, airport by airport and log by log. */
module Pickles {
  import opened Wrappers
  import opened Paths
  import opened Lists
  import Captions
  import SplitAudio

  // ---------------------------------------------------------------------
  // The part files of one tape directory

  /** The files named for a directory of `n` entries: `part-1.mp3` up to
      `part-n.mp3`, in order. */
  function PartFiles(dir: string, n: nat): (files: seq<string>)
    ensures |files| == n
    ensures forall i :: 0 <= i < n ==> files[i] == PathJoin(dir, PartName(i + 1))
  {
    if n == 0 then [] else PartFiles(dir, n - 1) + [PathJoin(dir, PartName(n))]
  }

  /** The loop of `get_audio_from_airport` for one directory holding
      `numFiles` entries. */
  method ListParts(dir: string, numFiles: nat) returns (files: seq<string>)
    ensures files == PartFiles(dir, numFiles)
  {
    files := [];
    for i := 0 to numFiles
      invariant files == PartFiles(dir, i)
    {
      files := files + [PathJoin(dir, PartName(i + 1))];
    }
  }

  /** No file is listed twice. */
  lemma PartFilesDistinct(dir: string, n: nat)
    ensures Distinct(PartFiles(dir, n))
  {
    var files := PartFiles(dir, n);
    forall i, j | 0 <= i < j < n
      ensures files[i] != files[j]
    {
      if files[i] == files[j] {
        PathJoinInjective(dir, PartName(i + 1), PartName(j + 1));
        PartNameInjective(i + 1, j + 1);
      }
    }
  }

  /** A tape directory written by split-audio.py for its captions is read
      back as exactly the parts it wrote, in caption order. */
  lemma PartFilesOfSplit(tape: string, captions: seq<Captions.Caption>)
    requires tape != [] && '/' !in tape
    ensures PartFiles(SplitAudio.SplitRoot + tape, |captions|) == SplitAudio.PathsOf(SplitAudio.TapeParts(tape, captions))
  {
    var dir := SplitAudio.SplitRoot + tape;
    var listed, written := PartFiles(dir, |captions|), SplitAudio.PathsOf(SplitAudio.TapeParts(tape, captions));
    assert dir[|dir| - 1] == tape[|tape| - 1];
    assert dir != [] && dir[|dir| - 1] != '/';
    forall i | 0 <= i < |captions|
      ensures listed[i] == written[i]
    {
      var name := PartName(i + 1);
      assert listed[i] == dir + "/" + name;
      assert written[i] == SplitAudio.OutputPath(tape, i + 1);
    }
  }

  // ---------------------------------------------------------------------
  // join_dicts

  /** The logs of one airport: log name and caption texts, in dictionary
      order. */
  type Logs = seq<(string, seq<string>)>

  /** `transcripts_dict`: airport name and its logs, in dictionary order. */
  type Transcripts = seq<(string, Logs)>

  /** `audio_dict`: airport, then log, to the list of part files. */
  type AudioFiles = map<string, map<string, seq<string>>>

  /** The key `audio_dict[airport][log]` fails on. */
  datatype JoinError =
    | MissingAirport(airport: string)
    | MissingLog(airport: string, log: string)

  type Joined = Result<(seq<string>, seq<string>), JoinError>

  /** Two stages run one after the other: the first error stops the run,
      otherwise the texts and the audio files are concatenated. */
  function Both(first: Joined, second: Joined): Joined {
    match first
    case Failure(e) => Failure(e)
    case Success(p) =>
      match second
      case Failure(e) => Failure(e)
      case Success(q) => Success((p.0 + q.0, p.1 + q.1))
  }

  /** One log: its captions, and the audio files found under its airport
      and name. */
  function JoinLog(airport: string, log: string, captions: seq<string>, audio: AudioFiles): Joined {
    if airport !in audio then Failure(MissingAirport(airport))
    else if log !in audio[airport] then Failure(MissingLog(airport, log))
    else Success((captions, audio[airport][log]))
  }

  /** The logs of one airport, in order. */
  function JoinLogs(airport: string, logs: Logs, audio: AudioFiles): Joined {
    if logs == [] then Success(([], []))
    else
      var last := logs[|logs| - 1];
      Both(JoinLogs(airport, logs[..|logs| - 1], audio), JoinLog(airport, last.0, last.1, audio))
  }

  /** All airports, in order. */
  function JoinAll(transcripts: Transcripts, audio: AudioFiles): Joined {
    if transcripts == [] then Success(([], []))
    else
      var last := transcripts[|transcripts| - 1];
      Both(JoinAll(transcripts[..|transcripts| - 1], audio), JoinLogs(last.0, last.1, audio))
  }

  /** `join_dicts`: every caption of every log is appended to `text`, then
      every audio file of the same log to `audio`; a log without audio
      raises `KeyError`. */
  method JoinDicts(transcripts: Transcripts, audio: AudioFiles) returns (r: Joined)
    ensures r == JoinAll(transcripts, audio)
  {
    var text: seq<string> := [];
    var audioOut: seq<string> := [];
    for i := 0 to |transcripts|
      invariant JoinAll(transcripts[..i], audio) == Success((text, audioOut))
    {
      var airport := transcripts[i].0;
      var logs := transcripts[i].1;
      ghost var done := JoinAll(transcripts[..i], audio);
      assert logs[..0] == [];
      assert text + [] == text && audioOut + [] == audioOut;
      for j := 0 to |logs|
        invariant Both(done, JoinLogs(airport, logs[..j], audio)) == Success((text, audioOut))
      {
        var log := logs[j].0;
        var captions := logs[j].1;
        ghost var before := (text, audioOut);
        text := Extend(text, captions);
        JoinLogsStep(airport, logs, j, audio);
        if airport !in audio {
          JoinStops(transcripts, i, j, audio);
          return Failure(MissingAirport(airport));
        }
        if log !in audio[airport] {
          JoinStops(transcripts, i, j, audio);
          return Failure(MissingLog(airport, log));
        }
        audioOut := Extend(audioOut, audio[airport][log]);
        BothAssoc(done, JoinLogs(airport, logs[..j], audio), JoinLog(airport, log, captions, audio));
      }
      assert logs[..|logs|] == logs;
      JoinAllStep(transcripts, i, audio);
    }
    assert transcripts[..|transcripts|] == transcripts;
    r := Success((text, audioOut));
  }

  /** `for x in items: acc.append(x)` */
  method Extend(acc: seq<string>, items: seq<string>) returns (r: seq<string>)
    ensures r == acc + items
  {
    r := acc;
    for k := 0 to |items|
      invariant r == acc + items[..k]
    {
      r := r + [items[k]];
    }
    assert items[..|items|] == items;
  }

  lemma BothAssoc(a: Joined, b: Joined, c: Joined)
    ensures Both(Both(a, b), c) == Both(a, Both(b, c))
  {
    if a.Success? && b.Success? && c.Success? {
      AppendAssoc(a.value.0, b.value.0, c.value.0);
      AppendAssoc(a.value.1, b.value.1, c.value.1);
    }
  }

  /** One more log in the loop over an airport's logs. */
  lemma JoinLogsStep(airport: string, logs: Logs, j: nat, audio: AudioFiles)
    requires j < |logs|
    ensures JoinLogs(airport, logs[..j + 1], audio) ==
      Both(JoinLogs(airport, logs[..j], audio), JoinLog(airport, logs[j].0, logs[j].1, audio))
  {
    var l := logs[..j + 1];
    assert l[..|l| - 1] == logs[..j] && l[|l| - 1] == logs[j];
  }

  /** One more airport in the outer loop. */
  lemma JoinAllStep(transcripts: Transcripts, i: nat, audio: AudioFiles)
    requires i < |transcripts|
    ensures JoinAll(transcripts[..i + 1], audio) ==
      Both(JoinAll(transcripts[..i], audio), JoinLogs(transcripts[i].0, transcripts[i].1, audio))
  {
    var t := transcripts[..i + 1];
    assert t[..|t| - 1] == transcripts[..i] && t[|t| - 1] == transcripts[i];
  }

  /** An error in log `j` of airport `i`, after everything before it
      succeeded, is the error of the whole run. */
  lemma JoinStops(transcripts: Transcripts, i: nat, j: nat, audio: AudioFiles)
    requires i < |transcripts| && j < |transcripts[i].1|
    requires JoinAll(transcripts[..i], audio).Success?
    requires JoinLogs(transcripts[i].0, transcripts[i].1[..j], audio).Success?
    requires JoinLog(transcripts[i].0, transcripts[i].1[j].0, transcripts[i].1[j].1, audio).Failure?
    ensures JoinAll(transcripts, audio) == JoinLog(transcripts[i].0, transcripts[i].1[j].0, transcripts[i].1[j].1, audio)
  {
    var airport, logs := transcripts[i].0, transcripts[i].1;
    var failure := JoinLog(airport, logs[j].0, logs[j].1, audio);
    JoinLogsStep(airport, logs, j, audio);
    JoinLogsStuck(airport, logs, j + 1, audio);
    JoinAllStep(transcripts, i, audio);
    JoinAllStuck(transcripts, i + 1, audio);
  }

  /** Once an airport's logs fail, later logs do not change the error. */
  lemma {:induction false} JoinLogsStuck(airport: string, logs: Logs, j: nat, audio: AudioFiles)
    requires j <= |logs| && JoinLogs(airport, logs[..j], audio).Failure?
    ensures JoinLogs(airport, logs, audio) == JoinLogs(airport, logs[..j], audio)
    decreases |logs| - j
  {
    if j < |logs| {
      JoinLogsStep(airport, logs, j, audio);
      JoinLogsStuck(airport, logs, j + 1, audio);
    } else {
      assert logs[..j] == logs;
    }
  }

  /** Once the airports fail, later airports do not change the error. */
  lemma {:induction false} JoinAllStuck(transcripts: Transcripts, i: nat, audio: AudioFiles)
    requires i <= |transcripts| && JoinAll(transcripts[..i], audio).Failure?
    ensures JoinAll(transcripts, audio) == JoinAll(transcripts[..i], audio)
    decreases |transcripts| - i
  {
    if i < |transcripts| {
      JoinAllStep(transcripts, i, audio);
      JoinAllStuck(transcripts, i + 1, audio);
    } else {
      assert transcripts[..i] == transcripts;
    }
  }

  // ---------------------------------------------------------------------
  // What join_dicts returns

  /** `audio_dict[airport][log]` exists. */
  predicate HasLog(audio: AudioFiles, airport: string, log: string) {
    airport in audio && log in audio[airport]
  }

  /** Every log of the airport has audio. */
  predicate LogsCovered(airport: string, logs: Logs, audio: AudioFiles) {
    forall j :: 0 <= j < |logs| ==> HasLog(audio, airport, logs[j].0)
  }

  /** Every log of every airport has audio. */
  predicate Covered(transcripts: Transcripts, audio: AudioFiles) {
    forall i :: 0 <= i < |transcripts| ==> LogsCovered(transcripts[i].0, transcripts[i].1, audio)
  }

  /** The caption texts of the logs, one after the other. */
  function LogTexts(logs: Logs): seq<string> {
    if logs == [] then [] else LogTexts(logs[..|logs| - 1]) + logs[|logs| - 1].1
  }

  /** The caption texts of all airports, one after the other. */
  function Texts(transcripts: Transcripts): seq<string> {
    if transcripts == [] then []
    else Texts(transcripts[..|transcripts| - 1]) + LogTexts(transcripts[|transcripts| - 1].1)
  }

  /** The audio files of the logs, one after the other. */
  function LogAudio(airport: string, logs: Logs, audio: AudioFiles): seq<string>
    requires LogsCovered(airport, logs, audio)
  {
    if logs == [] then []
    else
      assert HasLog(audio, airport, logs[|logs| - 1].0);
      LogAudio(airport, logs[..|logs| - 1], audio) + audio[airport][logs[|logs| - 1].0]
  }

  /** The audio files of all airports, one after the other. */
  function AllAudio(transcripts: Transcripts, audio: AudioFiles): seq<string>
    requires Covered(transcripts, audio)
  {
    if transcripts == [] then []
    else
      var last := transcripts[|transcripts| - 1];
      assert LogsCovered(last.0, last.1, audio);
      AllAudio(transcripts[..|transcripts| - 1], audio) + LogAudio(last.0, last.1, audio)
  }

  /** The number of captions of the logs. */
  function LogCount(logs: Logs): nat {
    if logs == [] then 0 else LogCount(logs[1..]) + |logs[0].1|
  }

  /** The number of captions of all airports. */
  function CaptionCount(transcripts: Transcripts): nat {
    if transcripts == [] then 0 else CaptionCount(transcripts[1..]) + LogCount(transcripts[0].1)
  }

  /** An airport's logs join when every log has audio, and then give its
      captions and its audio files. */
  lemma {:induction false} JoinLogsValue(airport: string, logs: Logs, audio: AudioFiles)
    ensures JoinLogs(airport, logs, audio).Success? <==> LogsCovered(airport, logs, audio)
    ensures LogsCovered(airport, logs, audio) ==>
      JoinLogs(airport, logs, audio) == Success((LogTexts(logs), LogAudio(airport, logs, audio)))
  {
    if logs != [] {
      var init := logs[..|logs| - 1];
      JoinLogsValue(airport, init, audio);
      assert forall j :: 0 <= j < |init| ==> init[j] == logs[j];
    }
  }

  /** `join_dicts` succeeds exactly when every log of every airport has
      audio, and then returns all captions and all audio files, both in
      transcript order. */
  lemma {:induction false} JoinAllValue(transcripts: Transcripts, audio: AudioFiles)
    ensures JoinAll(transcripts, audio).Success? <==> Covered(transcripts, audio)
    ensures Covered(transcripts, audio) ==>
      JoinAll(transcripts, audio) == Success((Texts(transcripts), AllAudio(transcripts, audio)))
  {
    if transcripts != [] {
      var init, last := transcripts[..|transcripts| - 1], transcripts[|transcripts| - 1];
      JoinAllValue(init, audio);
      JoinLogsValue(last.0, last.1, audio);
      assert forall i :: 0 <= i < |init| ==> init[i] == transcripts[i];
    }
  }

  /** The logs' texts hold one entry per caption. */
  lemma {:induction false} LogTextsCount(logs: Logs)
    ensures |LogTexts(logs)| == LogCount(logs)
  {
    if logs != [] {
      var init := logs[..|logs| - 1];
      LogTextsCount(init);
      LogCountSnoc(init, logs[|logs| - 1]);
      assert init + [logs[|logs| - 1]] == logs;
    }
  }

  lemma {:induction false} LogCountSnoc(logs: Logs, log: (string, seq<string>))
    ensures LogCount(logs + [log]) == LogCount(logs) + |log.1|
  {
    if logs != [] {
      assert (logs + [log])[1..] == logs[1..] + [log];
      LogCountSnoc(logs[1..], log);
    }
  }

  /** `len(text)` is the total number of captions. */
  lemma {:induction false} TextsCount(transcripts: Transcripts)
    ensures |Texts(transcripts)| == CaptionCount(transcripts)
  {
    if transcripts != [] {
      var init, last := transcripts[..|transcripts| - 1], transcripts[|transcripts| - 1];
      TextsCount(init);
      LogTextsCount(last.1);
      CaptionCountSnoc(init, last);
      assert init + [last] == transcripts;
    }
  }

  lemma {:induction false} CaptionCountSnoc(transcripts: Transcripts, airport: (string, Logs))
    ensures CaptionCount(transcripts + [airport]) == CaptionCount(transcripts) + LogCount(airport.1)
  {
    if transcripts != [] {
      assert (transcripts + [airport])[1..] == transcripts[1..] + [airport];
      CaptionCountSnoc(transcripts[1..], airport);
    }
  }

  /** The error names the first log without audio, in transcript order:
      its airport when the airport is missing, otherwise the log. */
  lemma {:induction false} JoinAllError(transcripts: Transcripts, audio: AudioFiles) returns (i: nat, j: nat)
    requires JoinAll(transcripts, audio).Failure?
    ensures i < |transcripts| && j < |transcripts[i].1|
    ensures !HasLog(audio, transcripts[i].0, transcripts[i].1[j].0)
    ensures forall i' :: 0 <= i' < i ==> LogsCovered(transcripts[i'].0, transcripts[i'].1, audio)
    ensures forall j' :: 0 <= j' < j ==> HasLog(audio, transcripts[i].0, transcripts[i].1[j'].0)
    ensures JoinAll(transcripts, audio).error ==
      if transcripts[i].0 !in audio then MissingAirport(transcripts[i].0)
      else MissingLog(transcripts[i].0, transcripts[i].1[j].0)
  {
    var init, last := transcripts[..|transcripts| - 1], transcripts[|transcripts| - 1];
    if JoinAll(init, audio).Failure? {
      i, j := JoinAllError(init, audio);
      assert init[i] == transcripts[i];
    } else {
      JoinAllValue(init, audio);
      i := |transcripts| - 1;
      j := JoinLogsError(last.0, last.1, audio);
      assert forall i' :: 0 <= i' < i ==> init[i'] == transcripts[i'];
    }
  }

  /** The error of an airport's logs names its first log without audio. */
  lemma {:induction false} JoinLogsError(airport: string, logs: Logs, audio: AudioFiles) returns (j: nat)
    requires JoinLogs(airport, logs, audio).Failure?
    ensures j < |logs| && !HasLog(audio, airport, logs[j].0)
    ensures forall j' :: 0 <= j' < j ==> HasLog(audio, airport, logs[j'].0)
    ensures JoinLogs(airport, logs, audio).error ==
      if airport !in audio then MissingAirport(airport) else MissingLog(airport, logs[j].0)
  {
    var init, last := logs[..|logs| - 1], logs[|logs| - 1];
    if JoinLogs(airport, init, audio).Failure? {
      j := JoinLogsError(airport, init, audio);
      assert init[j] == logs[j];
      assert forall j' :: 0 <= j' < j ==> init[j'] == logs[j'];
    } else {
      JoinLogsValue(airport, init, audio);
      j := |logs| - 1;
      assert forall j' :: 0 <= j' < j ==> init[j'] == logs[j'];
    }
  }
}
