# ATC transcripts to WebVTT, split audio and training pairs

This project models the data-preparation scripts of an air-traffic-control
speech-recognition corpus pipeline, and proves properties of that model:

- **transcripts-to-vtt.py** reads a tape transcript in the corpus's
  parenthesised item format. Exchange items look like
  `((FROM …) (NUM …) (TO …) (TEXT …) (TIMES …) (COMMENT …)…)`; there are
  also COMMENT and TAPE-TAIL items. The script writes the transcript as a
  WebVTT document: a NOTE with the tape header, one cue per exchange, and a
  NOTE with the tape tail.
- **parse-transcripts.py** is the earlier reader of the same format. It
  differs in how it tokenizes, cleans and classifies.
- **split-audio.py** picks the `.wav` recordings and the `.vtt` transcripts
  from two directory listings. It matches each recording to the last
  transcript whose path contains the recording's stem. For each match it
  reads the transcript's cues and cuts one `part-{n}.mp3` window per cue.
- **to-pickles.py** reads the same `.vtt` cues. It lists the numbered part
  files of each tape and joins the caption texts and audio file names into
  two parallel lists.

Times are whole milliseconds throughout. A transcript's `(TIMES …)` seconds,
the `h:mm:s.mmm` time stamps written to WebVTT and the seconds read back
from them are all held as exact integers.

Modules, one per concern:

- `Wrappers` holds `Option` and `Result`.
- `Lists`, `Text`, `Numerals` and `Paths` hold the Python built-ins the
  scripts rely on:
  - `strip`, `split`, `split(':')`, `readlines`, `str.replace` and `capitalize`;
  - `int()`, `float()` and the `f'{…:02}'` format;
  - `os.path.split`, `os.path.splitext` and `os.path.join`.
- `Tokenizer` holds the depth scans shared by both transcript readers.
- `Exchanges` and `Transcripts` hold transcripts-to-vtt.py.
- `Legacy` holds parse-transcripts.py.
- `Captions` holds the WebVTT reader that split-audio.py and to-pickles.py
  share line for line.
- `ReadBack` proves that a document `Transcript.to_vtt` writes is read
  back by that reader.
- `SplitAudio` holds split-audio.py.
- `Pickles` holds the dictionary-building parts of to-pickles.py.

Every loop of the scripts is a `method` proved equal to a specification
function. The properties of the scripts are lemmas about those functions.

Python raises an exception on malformed input. Each such case is an error
value of a `Result` type:

- `IndexError` on a missing part, time or quote;
- `ValueError` from `float()`;
- the `UnboundLocalError` of the legacy reader;
- `KeyError` in `join_dicts`;
- `exit(2)` in `Exchange.parse`.

## Model

| member | source | states |
|---|---|---|
| Tokenizer.CutIndex | transcripts-to-vtt.py:22-34 | the depth scan stops at a position of at least 2 where the depth is back to zero, or at the end of the text |
| Tokenizer.CutIndexFirst | transcripts-to-vtt.py:31-32 | the scan stops at the first such position: no position from 2 up to the cut has depth zero |
| Tokenizer.CutIndexUnique | transcripts-to-vtt.py:22-34 | any position with both properties is the cut index, so the cut is uniquely determined |
| Tokenizer.ScanPart | transcripts-to-vtt.py:17-34 | the loop of `_get_one_part` ends with `index` at the cut and `part` equal to the text before it |
| Tokenizer.LeadingBlank | transcripts-to-vtt.py:150-153 | the leading skip ends at the end of the text or at a character that is not a newline, space, CR or tab |
| Tokenizer.LeadingBlanks | transcripts-to-vtt.py:150-153 | every character the leading skip passes over is a newline, space, CR or tab |
| Tokenizer.ItemEnd | transcripts-to-vtt.py:149-166 | the item scan ends after the leading blanks and within the text |
| Tokenizer.NextItem | transcripts-to-vtt.py:168 | on non-empty text the remainder is strictly shorter, so the item loop ends |
| Tokenizer.ScanItem | transcripts-to-vtt.py:144-166 | the loop of `_get_one_item` ends at the item end, with the item running from the first non-blank character to there |
| Tokenizer.GetOneItem | transcripts-to-vtt.py:143-168 | returns the stripped item and the text after one more dropped character, not stripped (parse-transcripts.py:111-136 is the same code) |
| Exchanges.NextPart | transcripts-to-vtt.py:16-36 | on non-empty text the remainder is strictly shorter, so the part loop ends |
| Exchanges.GetOnePart | transcripts-to-vtt.py:16-36 | the scan returns exactly the part and rest of the depth-cut specification |
| Exchanges.SplitParts | transcripts-to-vtt.py:40-46 | the parts collected are those of the item with its leading `(` removed |
| Exchanges.PartsOfJoined | transcripts-to-vtt.py:40-46 | balanced groups separated by non-empty whitespace and closed by `)` split back into exactly those groups |
| Exchanges.AdjacentGroupsNotSplit | transcripts-to-vtt.py:36 | the character after a group is dropped, so `(FROM A)(TO B))` yields the parts `(FROM A)` and `TO` |
| Exchanges.ParseJoinedItem | transcripts-to-vtt.py:39-46 | an exchange item built from such groups is read field by field from exactly those groups |
| Exchanges.JoinQuotes | transcripts-to-vtt.py:75-89 | the quote loop fails exactly when the merge specification fails, and otherwise returns its words |
| Exchanges.MergeQuotesFails | transcripts-to-vtt.py:79-87 | the quote loop raises (`final_words[-1]` on an empty list) if and only if the first word is `(QUOTE` and another word follows |
| Exchanges.MergeFromPlain | transcripts-to-vtt.py:79-87 | words without a `(QUOTE` marker are kept unchanged and in order |
| Exchanges.MergeQuotesKept | transcripts-to-vtt.py:79-87 | every kept word is non-empty, holds no whitespace and is not the marker itself |
| Exchanges.NormalizeTextShape | transcripts-to-vtt.py:74-89 | TEXT normalisation fails exactly on a leading `(QUOTE` with a following word; otherwise its result is single-spaced with no spaces at either end |
| Exchanges.NormalizePlain | transcripts-to-vtt.py:89 | text without quote markers is re-joined with single spaces and capitalised |
| Exchanges.NormalizeContraction | transcripts-to-vtt.py:73-89 | `can (QUOTE t) go` becomes `Can't go` |
| Exchanges.ParseTimesSpec | transcripts-to-vtt.py:95-97 | TIMES parses if and only if every token is a number; the values follow the tokens in order; an error names a token that was rejected |
| Exchanges.ParseCommentsOk | transcripts-to-vtt.py:103-111 | the comment loop succeeds if and only if every part from index 6 on starts with `(COMMENT` |
| Exchanges.ParseCommentsValues | transcripts-to-vtt.py:104-107 | each comment is the field text of its own part, in order |
| Exchanges.ReadComments | transcripts-to-vtt.py:103-111 | the comment loop returns the comments of the parts from index 6 on, or exits on the first non-comment part |
| Exchanges.OptionalField | transcripts-to-vtt.py:54-58 | a field is absent exactly when its part lacks the tag |
| Exchanges.ParseWithNum | transcripts-to-vtt.py:60-111 | with a NUM part, parsing succeeds if and only if TEXT is part 3 and normalises, TIMES is part 4 and parses, and every part from index 6 on is a comment (part 5 is not read) |
| Exchanges.ParseWithNumFields | transcripts-to-vtt.py:54-112 | with a NUM part, each field of the exchange is the value of its own part |
| Exchanges.WithNumAligned | transcripts-to-vtt.py:60-61 | with a NUM part, the parts are read where they stand |
| Exchanges.ParseWithoutNum | transcripts-to-vtt.py:62-65 | without NUM, the inserted empty part shifts TO, TEXT and TIMES to parts 1, 2 and 3 and comments start at original part 5 (original part 4, which lands at index 5, is not read) |
| Exchanges.ParseWithoutNumFields | transcripts-to-vtt.py:62-112 | without NUM, the number is `none` and the other fields come from the shifted parts |
| Exchanges.WithoutNumAligned | transcripts-to-vtt.py:62-65 | without NUM, parsing reads the original parts shifted by one |
| Exchanges.AlignedShift | transcripts-to-vtt.py:65 | inserting the empty part moves every later part up by one place |
| Exchanges.IndexFiveUnread | transcripts-to-vtt.py:103-104 | the part at index 5 is never read: changing it does not change the result |
| Exchanges.Parse | transcripts-to-vtt.py:39-112 | `Exchange.parse` returns what the exchange specification gives for the item |
| Exchanges.ParsedTextOneLine | transcripts-to-vtt.py:74-89 | the text of every exchange `Exchange.parse` accepts is trimmed and holds no newline |
| Exchanges.ReadAligned | transcripts-to-vtt.py:67-112 | the field reads after FROM and NUM give what the aligned specification gives |
| Exchanges.Decompose | transcripts-to-vtt.py:123-125 | the hours, minutes and milliseconds recombine to the time, with minutes below 60 and seconds below 60 |
| Exchanges.TimeToVttFields | transcripts-to-vtt.py:126 | a time stamp is three `:`-separated fields: unpadded hours, two-digit minutes and seconds with exactly three decimals |
| Exchanges.ExchangeToVttReads | transcripts-to-vtt.py:128-131 | a cue depends only on the first two times and the text of its exchange |
| Transcripts.DropCommentLines | transcripts-to-vtt.py:185-187 | the filter loop keeps what the comment-line specification keeps |
| Transcripts.UncommentedAppend | transcripts-to-vtt.py:185-187 | filtering a concatenation is the concatenation of the filtered pieces |
| Transcripts.UncommentedKept | transcripts-to-vtt.py:185-187 | no kept line starts with `;` and every kept line comes from the input |
| Transcripts.SplitItems | transcripts-to-vtt.py:189-195 | the item loop collects the items of the item specification |
| Transcripts.KindsDisjoint | transcripts-to-vtt.py:198-209 | an item is at most one of COMMENT, exchange and TAPE-TAIL |
| Transcripts.TailOf | transcripts-to-vtt.py:204-208 | a tail read without quotes has every `)` removed |
| Transcripts.ClassifyItems | transcripts-to-vtt.py:197-210 | the classification loop returns what the classification specification gives |
| Transcripts.ClassifyFails | transcripts-to-vtt.py:197-210 | once an item fails, the whole loop fails with that item's error |
| Transcripts.ClassifyOk | transcripts-to-vtt.py:197-210 | the loop succeeds if and only if every COMMENT item has a quote and every exchange item parses |
| Transcripts.ClassifyItemOk | transcripts-to-vtt.py:198-210 | a single item is accepted if and only if it is well formed |
| Transcripts.ClassifyValues | transcripts-to-vtt.py:197-210 | after success: the comments are the quoted texts of the COMMENT items in order; the exchanges pair one for one with the exchange items; the tail comes from the last TAPE-TAIL item |
| Transcripts.ClassifyItemValues | transcripts-to-vtt.py:198-208 | one step adds a comment, adds the parsed exchange, or replaces the tail, and leaves the rest unchanged |
| Transcripts.ContainsSecond | transcripts-to-vtt.py:199 | `item.split('"')[1]` exists if and only if the item contains a quote |
| Transcripts.ParseFromFile | transcripts-to-vtt.py:172-212 | reading a file returns what the transcript specification gives for its text |
| Transcripts.ToVtt | transcripts-to-vtt.py:217-227 | the document is the WebVTT header, the header note, each exchange's cue in order, and the tail note |
| ReadBack.VttTimeOfTimeToVtt | transcripts-to-vtt.py:123-126 | a time stamp written by `_time_to_vtt` is read back by `vtt_time_to_float` as the same time |
| ReadBack.TimeIsWord | transcripts-to-vtt.py:126 | a time stamp is one non-empty word without whitespace |
| ReadBack.TimeLineReads | transcripts-to-vtt.py:129-131 | a cue's time line holds `-->`, fits on one line, and its first and third tokens read back as the exchange's first two times |
| ReadBack.BlockRead | transcripts-to-vtt.py:131 | a cue is read as three stripped lines: the time line, the text and an empty line |
| ReadBack.BlocksRead | transcripts-to-vtt.py:222-223 | the cues of all exchanges are read as their lines, in order |
| ReadBack.CueLinesRead | split-audio.py:38-56 | the reader turns those lines into one caption per exchange, in order |
| ReadBack.CaptionsFor | transcripts-to-vtt.py:128-131 | there is exactly one caption per exchange |
| ReadBack.NoteRead | transcripts-to-vtt.py:214-215 | a NOTE block whose text has no newline and no `-->` yields lines without any time stamp |
| ReadBack.DocumentCues | split-audio.py:38-58 | lines without time stamps around the cue lines add no captions |
| ReadBack.ReadBackDocument | transcripts-to-vtt.py:217-227 | `parse_vtt` on a document `Transcript.to_vtt` wrote returns one caption per exchange, in order, with its text and its first two times; this holds when the header and tail are one line each and free of `-->`, and each text is one line with no whitespace at its ends |
| ReadBack.ParsedTextsOnOneLine | transcripts-to-vtt.py:172-212 | every transcript `parse_from_file` accepts has each exchange text trimmed and on one line, which is the text condition of the round trip |
| Captions.VttTimeRecombines | split-audio.py:20-26 | `h:m:s` reads as h·3600 + m·60 + s whatever the field widths (to-pickles.py:28-34 is the same code) |
| Captions.StripAll | split-audio.py:31 | one line per input line, each the input line stripped of surrounding whitespace |
| Captions.ParseVtt | split-audio.py:29-58 | the line loop, with `times` as a two-element array updated in place, returns what the caption specification gives (to-pickles.py:37-66 is the same code) |
| Captions.RunCues | split-audio.py:38-58 | starting between captions, the loop collects what the cue grammar gives after what it already has, or fails with the same error |
| Captions.CaptionsOfCues | split-audio.py:29-58 | `parse_vtt` reads exactly the captions of the cue grammar over the stripped lines |
| Captions.CuesSkip | split-audio.py:48 | lines without `-->` yield nothing |
| Captions.CuesTextLine | split-audio.py:39-46 | the line after a time line is the caption text, even when it is empty or holds `-->` |
| Captions.CuesCount | split-audio.py:38-58 | a successful read has at most one caption per two lines |
| Numerals.NatToString | transcripts-to-vtt.py:126 | the decimal form is non-empty digits whose value is the number, with no leading zero |
| Numerals.NatToStringInjective | split-audio.py:112 | different numbers print differently |
| Numerals.ZeroPad | transcripts-to-vtt.py:126 | zero padding keeps the value and gives at least the requested width |
| Numerals.ParseNat | split-audio.py:22-23 | `int()` accepts exactly the non-empty digit strings |
| Numerals.ParseFormatMillis | transcripts-to-vtt.py:126 | seconds written with three decimals read back through `float()` as the same number of milliseconds |
| Paths.LastIndex | split-audio.py:90 | `rfind` finds the last occurrence, or none exactly when the character is absent |
| Paths.BaseName | split-audio.py:90 | `os.path.split(p)[1]` is the suffix of the path after its last `/` |
| Paths.SplitExt | split-audio.py:72 | `os.path.splitext` splits the path into two pieces that concatenate back to it; the extension is empty or one dot followed by no dot or `/` |
| Paths.Stem | split-audio.py:90 | the tape name followed by the extension of the base name is the base name, and it holds no `/` |
| Paths.PathJoin | to-pickles.py:102 | joining with a relative name puts it after the directory, with or without one `/` |
| Paths.PathJoinInjective | to-pickles.py:102 | one directory joined with two relative names gives the same path only for the same name |
| Paths.PartNameReads | split-audio.py:112 | a part name is `part-`, digits that read back as the part number, and `.mp3` |
| Paths.PartNameInjective | split-audio.py:112 | different part numbers give different names |
| SplitAudio.CollectFiles | split-audio.py:71-81 | the listing loop keeps the entries of the picking specification, in order |
| SplitAudio.PickedMembers | split-audio.py:71-81 | a path is picked if and only if it is listed and its file name has the extension |
| SplitAudio.PickedEmpty | split-audio.py:83-85 | nothing is picked if and only if no listed name has the extension |
| SplitAudio.Tapes | split-audio.py:87-94 | the keys of the match dictionary, one per entry, in order |
| SplitAudio.PutLookup | split-audio.py:94 | after an assignment the key maps to the new entry and every other key is unchanged |
| SplitAudio.PutTapes | split-audio.py:94 | assigning an existing key keeps the key order; a new key goes last |
| SplitAudio.PutDistinct | split-audio.py:94 | assignment keeps the keys distinct |
| SplitAudio.PutPut | split-audio.py:94 | a second assignment to the same key overrides the first |
| SplitAudio.PutEntries | split-audio.py:94 | after an assignment every entry is the new one or an old one |
| SplitAudio.MatchFiles | split-audio.py:87-94 | the nested matching loop builds the dictionary of the matching specification |
| SplitAudio.LastContainingSpec | split-audio.py:92-94 | there is no match if and only if no transcript path contains the name; otherwise the match is the last one that does |
| SplitAudio.MatchOneLast | split-audio.py:92-94 | the inner loop over transcripts leaves the entry for the last containing path |
| SplitAudio.MatchTableLookup | split-audio.py:87-94 | a tape maps to the last recording with that stem and the last transcript containing the stem, or is absent when either is missing |
| SplitAudio.MatchTableDistinct | split-audio.py:87-94 | each tape is in the dictionary at most once |
| SplitAudio.MatchTableSlashFree | split-audio.py:90 | no tape name holds a `/` |
| SplitAudio.MatchTableOrder | split-audio.py:89-94 | a further recording adds its tape at the end, or leaves the key order alone |
| SplitAudio.NoTranscriptsNoMatches | split-audio.py:83-94 | with no transcripts, nothing matches |
| SplitAudio.OutputPathInjective | split-audio.py:110-112 | two output paths are equal only for the same tape and part number |
| SplitAudio.TapeParts | split-audio.py:101-116 | one part per caption, numbered from 1, cut at the caption's start and end |
| SplitAudio.SplitTape | split-audio.py:101-116 | the caption loop with its `current` counter exports one part per caption, numbered from 1 at distinct paths, cut at the caption's times |
| SplitAudio.ExportAll | split-audio.py:96-116 | the tape loop exports what the export specification gives, stopping at the first unreadable transcript |
| SplitAudio.ExportOwner | split-audio.py:110-112 | every exported path is the output path of some matched tape |
| SplitAudio.TapePartsDistinct | split-audio.py:112 | one tape's parts go to distinct paths |
| SplitAudio.ExportsDisjoint | split-audio.py:110-112 | one tape's parts never share a path with a later tape's |
| SplitAudio.ExportsDistinct | split-audio.py:96-116 | with distinct tapes free of `/`, no path is exported twice |
| SplitAudio.SplitRunDistinct | split-audio.py:61-116 | a whole run never writes the same output file twice |
| SplitAudio.SplitAll | split-audio.py:61-116 | `main` stops early without transcripts and otherwise picks, matches and exports as the run specification says |
| Pickles.PartFiles | to-pickles.py:99-102 | the list holds one name per directory entry, `part-{i+1}.mp3` joined to the directory |
| Pickles.ListParts | to-pickles.py:99-102 | the naming loop builds that list |
| Pickles.PartFilesDistinct | to-pickles.py:101-102 | the listed names are distinct |
| Pickles.PartFilesOfSplit | to-pickles.py:99-102 | given the same directory, one file per caption, the listed names are exactly the paths split-audio.py wrote for the tape (split-audio.py:110-112), in order; the scripts as written use different roots (`/home/luke/split-test/` when writing, `~/data_asr/split-data` when reading, to-pickles.py:130), so this links the two naming schemes only once the directory is the same |
| Pickles.JoinDicts | to-pickles.py:116-127 | the nested loops return what the join specification gives, stopping at the first `KeyError` |
| Pickles.JoinStops | to-pickles.py:124 | a log without audio ends the whole join with its error |
| Pickles.JoinLogsValue | to-pickles.py:121-125 | an airport's join succeeds if and only if every log has audio; then it holds the captions and audio of its logs in order |
| Pickles.JoinAllValue | to-pickles.py:116-127 | the join succeeds if and only if every log of every airport has audio; then `text` is all captions and `audio` all audio files, in dictionary order |
| Pickles.TextsCount | to-pickles.py:120-123 | `text` holds one entry per caption of every log |
| Pickles.JoinAllError | to-pickles.py:124 | a failing join names the first log without audio: a missing airport if the airport has no audio, else the missing log |
| Pickles.JoinLogsError | to-pickles.py:124 | within one airport, the error names the first log without audio |
| Legacy.NextPart | parse-transcripts.py:15-35 | on non-empty text the remainder is strictly shorter, so the part loop ends |
| Legacy.StrippedRemainder | parse-transcripts.py:35 | the earlier part scan differs from the later one only in not stripping the remainder |
| Legacy.GetOnePart | parse-transcripts.py:15-35 | returns the stripped text before the cut and the unstripped text after one dropped character |
| Legacy.SplitParts | parse-transcripts.py:39-45 | the parts collected are those of the item with its leading `(` removed |
| Legacy.PartsOfNarrow | parse-transcripts.py:39-45 | groups separated by one or two whitespace characters split back into exactly those groups |
| Legacy.WideGapEmptyPart | parse-transcripts.py:35 | a gap of three blanks between groups yields an empty part |
| Legacy.TwoBlanksEmptyPart | parse-transcripts.py:35 | a remainder that starts with two blanks yields an empty part |
| Legacy.OptField | parse-transcripts.py:53-66 | a field is present exactly when its part carries the tag and its space |
| Legacy.TextField | parse-transcripts.py:68-69 | TEXT is present exactly when part 3 carries `(TEXT ` |
| Legacy.CleanTextClean | parse-transcripts.py:70-74 | cleaned text holds no `)` and no newline |
| Legacy.QuotedContraction | parse-transcripts.py:70-71 | `a (QUOTE b)` becomes `a'b` |
| Legacy.CollapseRun | parse-transcripts.py:73-74 | the two replacements shrink a run of n spaces to ⌈⌈n/2⌉/2⌉ spaces: one for 1 to 4, more than one from 5 on |
| Legacy.ParseTimesSpec | parse-transcripts.py:78-80 | TIMES parses if and only if every token is a number; the values follow the tokens; an error names a rejected token |
| Legacy.DoubleSpaceTimes | parse-transcripts.py:80 | two spaces between times produce an empty token, which `float()` rejects |
| Legacy.TimesFieldSpec | parse-transcripts.py:78-82 | a part without `(TIMES ` leaves `times` unbound (an error at the return); a tagged part is read if and only if every space-separated token is a number, time i then being the value of token i, and otherwise the error names a rejected token |
| Legacy.CommentsAppend | parse-transcripts.py:84-90 | the comment filter distributes over concatenation |
| Legacy.CommentsAllTagged | parse-transcripts.py:86-88 | when every part is a comment, each yields its field text, in order |
| Legacy.CommentsNoneTagged | parse-transcripts.py:89-90 | parts that are not comments are skipped |
| Legacy.ReadComments | parse-transcripts.py:84-90 | the comment loop keeps the comment texts of the parts from index 6 on |
| Legacy.ExchangeOfPartsSpec | parse-transcripts.py:47-92 | parsing succeeds if and only if there are at least five parts and part 4 is a TIMES field whose times parse; FROM, NUM, TO and TEXT are then the fields of parts 0 to 3, time i is the value of token i of part 4, and the comments come from part 6 on; an untagged part 4 fails on the unbound `times`; fewer than five parts raise at the first missing index |
| Legacy.IndexFiveUnread | parse-transcripts.py:84-85 | the part at index 5 is never read |
| Legacy.ReadExchange | parse-transcripts.py:47-92 | the field reads give what the exchange specification gives |
| Legacy.Parse | parse-transcripts.py:38-92 | `Exchange.parse` returns what the exchange specification gives for the item |
| Legacy.ClassifyItems | parse-transcripts.py:157-170 | the classification loop returns what the classification specification gives |
| Legacy.ClassifyFails | parse-transcripts.py:157-170 | once an item fails, the whole loop fails with that item's error |
| Legacy.ClassifyOk | parse-transcripts.py:157-170 | the loop succeeds if and only if every COMMENT and TAPE-TAIL item has a quote and every exchange item parses |
| Legacy.ClassifyItemOk | parse-transcripts.py:158-170 | a single item is accepted if and only if it is well formed |
| Legacy.ClassifyValues | parse-transcripts.py:157-170 | after success: the comments are the quoted texts of the COMMENT items, in order; the exchanges pair one for one with the exchange items; the tail comes from the last TAPE-TAIL item |
| Legacy.ClassifyItemValues | parse-transcripts.py:158-168 | a COMMENT item holds a quote and appends the text between its first and second quote (`split('"')[1]`) to the earlier comments; an exchange item appends its parsed exchange; a TAPE-TAIL item replaces the tail; every other field is unchanged |
| Legacy.FirstLine | parse-transcripts.py:142-149 | `readline` then `read` split the text into a first line ending in its newline and everything after it |
| Legacy.ParseFromFile | parse-transcripts.py:140-170 | reading a file returns what the transcript specification gives for its text |

## Left out

- File and directory I/O. File contents are parameters, given as their text. In split-audio.py the reader of a transcript is a function parameter `read`. Directory listings are sequences of entry paths.
- The `sys.argv` checks and the usage messages of every `main`.
- The `print` progress messages and `__repr__`.
- The loop in transcripts-to-vtt.py's `main` that writes each `.vtt` file.
- Decoding, slicing and encoding audio with pydub, and `os.makedirs`. A cut window is modelled as its output path and its start and end.
- The walk over airport directories in to-pickles.py (`get_transcripts`, `get_transcripts_from_airport`, `get_audio`, lines 68-89 and 108-114). Only the part-naming loop of `get_audio_from_airport` is modelled, and the dictionaries these functions build are inputs to `Pickles.JoinDicts`.
- The pickling and model-training code of to-pickles.py from line 129 on.
- Floating point. Times are exact whole milliseconds.
  - `int(caption.start * 1000.0)` and the binary rounding of `float()` and of `{:.3f}` are therefore not modelled.
  - `Numerals.ParseMillis` accepts only digits with at most three decimals. Python's `float()` also accepts signs, exponents, a leading `.`, surrounding whitespace, underscores, `inf` and `nan`.
- `Numerals.ParseNat`: accepts only plain digit strings. Python's `int()` also accepts signs, surrounding whitespace and underscores.
- `Text.Capitalize` changes the case of ASCII letters only. Python's Unicode case mapping is not modelled. (`strip` and `split` use Python's full `str.isspace` set.)
- `Text.ReadLines` splits at `\n` only. Universal-newline translation of `\r\n` and `\r` is not modelled.
- `Exchanges.Parse`: `exit(2)` is modelled as an error value. A missing FROM or TO only prints a message in the script, and the field is then `None`.
- `Legacy.ParseFromFile`: does not model the `exit(1)` after the second exchange (parse-transcripts.py:165-166). That is a debugging stop. The function also returns the transcript it assembled, where the script returns nothing.
- The `break` after the first file in parse-transcripts.py's `main`.
- `Transcripts.ToVtt` requires every exchange to have two times, because `Exchange.to_vtt` raises `IndexError` otherwise. That failure is not modelled as an error value.
- `SplitAudio.SplitTape`: the distinct-paths promise holds only for tape names without `/`. That is always the case for names taken from `os.path.split`.
- Where the code and the format's description differ, the model follows the code:
  - WebVTT seconds are not zero-padded (`0:01:5.500`), because `{:02.3f}` pads only to width 2.
  - Two adjacent groups without whitespace between them are not split apart, because the character after each part is dropped.
