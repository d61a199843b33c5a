/** `Transcript` of transcripts-to-vtt.py: a tape read from its text, and
    the WebVTT document written from it. */
module Transcripts {
  import opened Wrappers
  import opened Text
  import opened Tokenizer
  import opened Exchanges
  import opened Lists

  datatype Transcript = Transcript(
    path: string,
    header: string,
    comments: seq<string>,
    exchanges: seq<Exchange>,
    tail: string)

  /** Why `parse_from_file` does not return a transcript. */
  datatype TranscriptError =
    | NoHeaderQuote                                   // IndexError on the header line
    | CommentWithoutQuote(item: string)               // IndexError on a COMMENT item
    | BadExchange(item: string, error: ParseError)    // raised or exited in Exchange.parse

  // ---------------------------------------------------------------------
  // Comment lines

  /** The lines kept by the filter: those not starting with `;`. */
  function Uncommented(lines: seq<string>): seq<string> {
    if lines == [] then []
    else
      var init := Uncommented(lines[..|lines| - 1]);
      if StartsWith(lines[|lines| - 1], ";") then init else init + [lines[|lines| - 1]]
  }

  /** The filter loop of `parse_from_file`. */
  method DropCommentLines(lines: seq<string>) returns (kept: seq<string>)
    ensures kept == Uncommented(lines)
  {
    kept := [];
    for i := 0 to |lines|
      invariant kept == Uncommented(lines[..i])
    {
      assert lines[..i + 1][..i] == lines[..i];
      if !StartsWith(lines[i], ";") {
        kept := kept + [lines[i]];
      }
    }
    assert lines[..|lines|] == lines;
  }

  /** Filtering works line by line: it distributes over concatenation and
      keeps a single line exactly when it does not start with `;`. */
  lemma {:induction false} UncommentedAppend(a: seq<string>, b: seq<string>)
    ensures Uncommented(a + b) == Uncommented(a) + Uncommented(b)
    decreases |b|
  {
    if b == [] {
      assert a + b == a;
    } else {
      var b0 := b[..|b| - 1];
      assert (a + b)[..|a + b| - 1] == a + b0;
      UncommentedAppend(a, b0);
    }
  }

  lemma UncommentedOne(line: string)
    ensures Uncommented([line]) == if StartsWith(line, ";") then [] else [line]
  {
    assert [line][..0] == [];
  }

  /** No kept line starts with `;`, and every kept line is one of the
      input lines. */
  lemma {:induction false} UncommentedKept(lines: seq<string>)
    ensures forall i :: 0 <= i < |Uncommented(lines)| ==>
      !StartsWith(Uncommented(lines)[i], ";") && Uncommented(lines)[i] in lines
  {
    if lines != [] {
      var init := lines[..|lines| - 1];
      UncommentedKept(init);
      assert forall l :: l in init ==> l in lines;
    }
  }

  // ---------------------------------------------------------------------
  // Items

  /** `len(rest.strip()) > 0`: something other than whitespace is left. */
  predicate HasContent(rest: string) {
    |Strip(rest)| > 0
  }

  /** The items the loop of `parse_from_file` cuts from the text: one per
      `_get_one_item` call while anything but whitespace is left. */
  function ItemsOf(rest: string): seq<string>
    decreases |rest|
  {
    if HasContent(rest) then
      var (item, next) := NextItem(rest);
      [item] + ItemsOf(next)
    else []
  }

  lemma ItemsOfStep(rest: string, done: seq<string>, item: string, next: string)
    requires HasContent(rest) && (item, next) == NextItem(rest)
    ensures done + ItemsOf(rest) == (done + [item]) + ItemsOf(next)
    ensures |next| < |rest|
  {
    assert rest != [];
    assert ItemsOf(rest) == [item] + ItemsOf(next);
    AppendAssoc(done, [item], ItemsOf(next));
  }

  /** The item loop of `parse_from_file`. */
  method SplitItems(text: string) returns (items: seq<string>)
    ensures items == ItemsOf(text)
  {
    var rest := text;
    items := [];
    ghost var all := ItemsOf(text);
    assert items + ItemsOf(rest) == all;
    while HasContent(rest)
      invariant items + ItemsOf(rest) == all
      decreases |rest|
    {
      var item, next := GetOneItem(rest);
      ItemsOfStep(rest, items, item, next);
      items, rest := items + [item], next;
    }
    ItemsOfDone(rest, items);
  }

  /** Once only whitespace is left there are no more items. */
  lemma ItemsOfDone(rest: string, done: seq<string>)
    requires !HasContent(rest)
    ensures done + ItemsOf(rest) == done
  {
    assert ItemsOf(rest) == [];
  }

  // ---------------------------------------------------------------------
  // Classification

  predicate IsComment(item: string) { StartsWith(item, "((COMMENT") }
  predicate IsExchange(item: string) { StartsWith(item, "((FROM") }
  predicate IsTail(item: string) { StartsWith(item, "((TAPE-TAIL") }

  /** The three prefixes exclude each other. */
  lemma KindsDisjoint(item: string)
    ensures !(IsComment(item) && IsExchange(item))
    ensures !(IsComment(item) && IsTail(item))
    ensures !(IsExchange(item) && IsTail(item))
  {
    if IsComment(item) { assert item[2] == 'C'; }
    if IsExchange(item) { assert item[2] == 'F'; }
  }

  /** The tape tail an item gives: its first quoted text if it has a quote,
      otherwise the text after `TAPE-TAIL`, stripped, with every `)`
      removed. */
  function TailOf(item: string): (r: string)
    requires IsTail(item)
    ensures !Contains(item, "\"") ==> ')' !in r
  {
    ContainsAt(item, "TAPE-TAIL", 2);
    assert item[2..11] == "TAPE-TAIL";
    if Contains(item, "\"") then SplitSecond(item, "\"").value
    else
      ReplaceDeletes(Strip(SplitSecond(item, "TAPE-TAIL").value), ')');
      Replace(Strip(SplitSecond(item, "TAPE-TAIL").value), ")", "")
  }

  /** What the classification loop has collected so far. */
  datatype Collected = Collected(comments: seq<string>, exchanges: seq<Exchange>, tail: string)

  /** One iteration of the classification loop. Items of any other kind
      are reported and skipped. */
  function ClassifyItem(acc: Collected, item: string): Result<Collected, TranscriptError> {
    if IsComment(item) then
      match SplitSecond(item, "\"")
      case None => Failure(CommentWithoutQuote(item))
      case Some(c) => Success(acc.(comments := acc.comments + [c]))
    else if IsExchange(item) then
      match ParseExchange(item)
      case Failure(e) => Failure(BadExchange(item, e))
      case Success(x) => Success(acc.(exchanges := acc.exchanges + [x]))
    else if IsTail(item) then Success(acc.(tail := TailOf(item)))
    else Success(acc)
  }

  /** The classification loop over `items`, from nothing collected. */
  function Classify(items: seq<string>): Result<Collected, TranscriptError> {
    if items == [] then Success(Collected([], [], ""))
    else
      match Classify(items[..|items| - 1])
      case Failure(e) => Failure(e)
      case Success(acc) => ClassifyItem(acc, items[|items| - 1])
  }

  /** The classification loop of `parse_from_file`. */
  method ClassifyItems(items: seq<string>) returns (r: Result<Collected, TranscriptError>)
    ensures r == Classify(items)
  {
    var tail := "";
    var exchanges: seq<Exchange> := [];
    var comments: seq<string> := [];
    for i := 0 to |items|
      invariant Classify(items[..i]) == Success(Collected(comments, exchanges, tail))
    {
      var item := items[i];
      assert items[..i + 1][..i] == items[..i];
      if IsComment(item) {
        var c := SplitSecond(item, "\"");
        if c.None? {
          ClassifyFails(items, i + 1);
          return Failure(CommentWithoutQuote(item));
        }
        comments := comments + [c.value];
      } else if IsExchange(item) {
        var x := Parse(item);
        if x.Failure? {
          ClassifyFails(items, i + 1);
          return Failure(BadExchange(item, x.error));
        }
        exchanges := exchanges + [x.value];
      } else if IsTail(item) {
        if Contains(item, "\"") {
          tail := SplitSecond(item, "\"").value;
        } else {
          tail := TailOf(item);
        }
      }
    }
    assert items[..|items|] == items;
    return Success(Collected(comments, exchanges, tail));
  }

  /** Once an item fails, the whole loop fails with that error. */
  lemma {:induction false} ClassifyFails(items: seq<string>, k: nat)
    requires k <= |items| && Classify(items[..k]).Failure?
    ensures Classify(items) == Classify(items[..k])
    decreases |items| - k
  {
    if k < |items| {
      assert items[..k + 1][..k] == items[..k];
      ClassifyFails(items, k + 1);
    } else {
      assert items[..k] == items;
    }
  }

  // ---------------------------------------------------------------------
  // The classification, item kind by item kind

  /** Every COMMENT item has a quote and every exchange item parses. */
  predicate ItemOk(item: string) {
    (IsComment(item) ==> Contains(item, "\"")) && (IsExchange(item) ==> ParseExchange(item).Success?)
  }

  /** The quoted texts of the COMMENT items that have a quote, in order. */
  function CommentsOf(items: seq<string>): seq<string> {
    if items == [] then []
    else
      var last := items[|items| - 1];
      CommentsOf(items[..|items| - 1])
        + if IsComment(last) && Contains(last, "\"") then [SplitSecond(last, "\"").value] else []
  }

  /** The exchange items, in order. */
  function ExchangeItems(items: seq<string>): (r: seq<string>)
    ensures forall i :: 0 <= i < |r| ==> IsExchange(r[i]) && r[i] in items
  {
    if items == [] then []
    else
      var last := items[|items| - 1];
      ExchangeItems(items[..|items| - 1]) + if IsExchange(last) then [last] else []
  }

  /** The tail given by the last TAPE-TAIL item, or "" when there is none. */
  function LastTail(items: seq<string>): string {
    if items == [] then ""
    else if IsTail(items[|items| - 1]) then TailOf(items[|items| - 1])
    else LastTail(items[..|items| - 1])
  }

  /** The loop succeeds exactly when every item is well formed. */
  lemma ClassifyOk(items: seq<string>)
    ensures Classify(items).Success? <==> forall i :: 0 <= i < |items| ==> ItemOk(items[i])
  {
    ClassifyAllOk(items);
    AllEach(items, ItemOk);
  }

  lemma {:induction false} ClassifyAllOk(items: seq<string>)
    ensures Classify(items).Success? <==> All(items, ItemOk)
  {
    if items != [] {
      var init, last := items[..|items| - 1], items[|items| - 1];
      ClassifyAllOk(init);
      if Classify(init).Success? {
        ClassifyItemOk(Classify(init).value, last);
      }
    }
  }

  /** One item is accepted exactly when it is well formed. */
  lemma ClassifyItemOk(acc: Collected, item: string)
    ensures ClassifyItem(acc, item).Success? <==> ItemOk(item)
  {
    KindsDisjoint(item);
    ContainsSecond(item);
  }

  /** After a successful loop it holds the COMMENT texts in order, one
      parsed exchange per exchange item in order, and the tail of the last
      TAPE-TAIL item. */
  lemma ClassifyValues(items: seq<string>)
    requires Classify(items).Success?
    ensures Classify(items).value.comments == CommentsOf(items)
    ensures Pairwise(ExchangeItems(items), Classify(items).value.exchanges, Parses)
    ensures Classify(items).value.tail == LastTail(items)
  {
    ClassifyComments(items);
    ClassifyExchanges(items);
    ClassifyTail(items);
  }

  lemma {:induction false} ClassifyComments(items: seq<string>)
    requires Classify(items).Success?
    ensures Classify(items).value.comments == CommentsOf(items)
  {
    if items != [] {
      var init, last := items[..|items| - 1], items[|items| - 1];
      assert Classify(init).Success?;
      ClassifyComments(init);
      ClassifyItemValues(Classify(init).value, last);
    }
  }

  lemma {:induction false} ClassifyExchanges(items: seq<string>)
    requires Classify(items).Success?
    ensures Pairwise(ExchangeItems(items), Classify(items).value.exchanges, Parses)
  {
    if items != [] {
      var init, last := items[..|items| - 1], items[|items| - 1];
      assert Classify(init).Success?;
      ClassifyExchanges(init);
      var acc := Classify(init).value;
      ClassifyItemValues(acc, last);
      if IsExchange(last) {
        PairwiseSnoc(ExchangeItems(init), acc.exchanges, last, ParseExchange(last).value, Parses);
      }
    }
  }

  /** `Exchange.parse` reads `x` from `item`. */
  predicate Parses(item: string, x: Exchange) {
    ParseExchange(item) == Success(x)
  }

  lemma {:induction false} ClassifyTail(items: seq<string>)
    requires Classify(items).Success?
    ensures Classify(items).value.tail == LastTail(items)
  {
    if items != [] {
      var init, last := items[..|items| - 1], items[|items| - 1];
      assert Classify(init).Success?;
      ClassifyTail(init);
      ClassifyItemValues(Classify(init).value, last);
    }
  }

  /** One successful step of the loop adds the quoted text of a COMMENT
      item, the parsed exchange of an exchange item, and replaces the tail
      for a TAPE-TAIL item. */
  lemma ClassifyItemValues(acc: Collected, item: string)
    requires ClassifyItem(acc, item).Success?
    ensures var next := ClassifyItem(acc, item).value;
      && (IsComment(item) ==> Contains(item, "\"") && next.comments == acc.comments + [SplitSecond(item, "\"").value])
      && (!IsComment(item) ==> next.comments == acc.comments)
      && (IsExchange(item) ==> (ParseExchange(item).Success?
          && next.exchanges == acc.exchanges + [ParseExchange(item).value]))
      && (!IsExchange(item) ==> next.exchanges == acc.exchanges)
      && (IsTail(item) ==> next.tail == TailOf(item))
      && (!IsTail(item) ==> next.tail == acc.tail)
  {
    KindsDisjoint(item);
    ContainsSecond(item);
  }

  /** `'"' in item` is exactly when `item.split('"')[1]` exists. */
  lemma ContainsSecond(item: string)
    ensures SplitSecond(item, "\"").Some? <==> Contains(item, "\"")
  {
  }

  // ---------------------------------------------------------------------
  // Reading a file

  /** `Transcript.parse_from_file` on the text of the file at `path`: the
      first line holds the header in quotes; the remaining lines, less the
      comment lines, are cut into items and classified. */
  function ParseTranscript(path: string, content: string): Result<Transcript, TranscriptError> {
    var lines := ReadLines(content);
    var headerLine := if lines == [] then "" else lines[0];
    match SplitSecond(headerLine, "\"")
    case None => Failure(NoHeaderQuote)
    case Some(header) =>
      var body := Concat(Uncommented(if lines == [] then [] else lines[1..]));
      match Classify(ItemsOf(body))
      case Failure(e) => Failure(e)
      case Success(acc) => Success(Transcript(path, header, acc.comments, acc.exchanges, acc.tail))
  }

  /** `Transcript.parse_from_file`, the file given as its text. */
  method ParseFromFile(path: string, content: string) returns (r: Result<Transcript, TranscriptError>)
    ensures r == ParseTranscript(path, content)
  {
    var lines := ReadLines(content);
    var headerLine := if lines == [] then "" else lines[0];
    var header := SplitSecond(headerLine, "\"");
    if header.None? {
      return Failure(NoHeaderQuote);
    }
    var uncommented := DropCommentLines(if lines == [] then [] else lines[1..]);
    var items := SplitItems(Concat(uncommented));
    var acc := ClassifyItems(items);
    if acc.Failure? {
      return Failure(acc.error);
    }
    r := Success(Transcript(path, header.value, acc.value.comments, acc.value.exchanges, acc.value.tail));
  }

  // ---------------------------------------------------------------------
  // Writing the document

  /** `Transcript._vtt_note` */
  function Note(s: string): string {
    "NOTE\n" + s + "\n\n"
  }

  /** Every exchange has a start and an end time, as `Exchange.to_vtt`
      needs. */
  predicate Timed(exchanges: seq<Exchange>) {
    forall i :: 0 <= i < |exchanges| ==> |exchanges[i].times| >= 2
  }

  /** The cue blocks of `exchanges`, in order. */
  function Blocks(exchanges: seq<Exchange>): string
    requires Timed(exchanges)
  {
    if exchanges == [] then ""
    else Blocks(exchanges[..|exchanges| - 1]) + ExchangeToVtt(exchanges[|exchanges| - 1])
  }

  /** `Transcript.to_vtt`. */
  method ToVtt(t: Transcript) returns (contents: string)
    requires Timed(t.exchanges)
    ensures contents == "WEBVTT\n\n" + Note(t.header) + Blocks(t.exchanges) + Note(t.tail)
  {
    contents := "WEBVTT\n\n";
    contents := contents + Note(t.header);
    ghost var front := contents;
    for i := 0 to |t.exchanges|
      invariant contents == front + Blocks(t.exchanges[..i])
    {
      BlocksSnoc(t.exchanges, i, front);
      contents := contents + ExchangeToVtt(t.exchanges[i]);
    }
    assert t.exchanges[..|t.exchanges|] == t.exchanges;
    contents := contents + Note(t.tail);
  }

  lemma BlocksSnoc(exchanges: seq<Exchange>, i: nat, front: string)
    requires i < |exchanges| && Timed(exchanges)
    ensures Timed(exchanges[..i]) && Timed(exchanges[..i + 1])
    ensures front + Blocks(exchanges[..i + 1]) == front + Blocks(exchanges[..i]) + ExchangeToVtt(exchanges[i])
  {
    TimedPrefix(exchanges, i);
    TimedPrefix(exchanges, i + 1);
    var p := exchanges[..i + 1];
    assert p[..|p| - 1] == exchanges[..i] && p[|p| - 1] == exchanges[i];
    assert Blocks(p) == Blocks(exchanges[..i]) + ExchangeToVtt(exchanges[i]);
    AppendAssoc(front, Blocks(exchanges[..i]), ExchangeToVtt(exchanges[i]));
  }

  lemma TimedPrefix(exchanges: seq<Exchange>, k: nat)
    requires k <= |exchanges| && Timed(exchanges)
    ensures Timed(exchanges[..k])
  {
    forall j | 0 <= j < k
      ensures |exchanges[..k][j].times| >= 2
    {
      assert exchanges[..k][j] == exchanges[j];
    }
  }

  lemma BlocksSnocOne(exchanges: seq<Exchange>, x: Exchange)
    requires Timed(exchanges) && |x.times| >= 2
    ensures Timed(exchanges + [x])
    ensures Blocks(exchanges + [x]) == Blocks(exchanges) + ExchangeToVtt(x)
  {
    assert (exchanges + [x])[..|exchanges|] == exchanges;
  }
}
