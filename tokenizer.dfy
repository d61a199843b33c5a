/** The depth-counting scan behind `Exchange._get_one_part` and
    `Transcript._get_one_item` (the same loops appear in
    transcripts-to-vtt.py and parse-transcripts.py). A scan reads characters,
    counting `(` up and `)` down, and stops at the first character after the
    first one at which the depth is back to zero. */
module Tokenizer {
  import opened Text
  import opened Lists

  function Delta(c: char): int {
    if c == '(' then 1 else if c == ')' then -1 else 0
  }

  /** Net parenthesis depth after reading all of `s`. */
  function Depth(s: string): int {
    if s == [] then 0 else Depth(s[..|s| - 1]) + Delta(s[|s| - 1])
  }

  lemma DepthSnoc(s: string, c: char)
    ensures Depth(s + [c]) == Depth(s) + Delta(c)
  {
    assert (s + [c])[..|s|] == s;
  }

  /** Scan from prefix length `j` on for a prefix of depth zero. */
  function CutFrom(s: string, j: nat): (k: nat)
    ensures k <= |s|
    ensures j <= |s| ==> j <= k
    ensures k == |s| || Depth(s[..k]) == 0
    decreases |s| - j
  {
    if j >= |s| then |s|
    else if Depth(s[..j]) == 0 then j
    else CutFrom(s, j + 1)
  }

  /** Every prefix the scan passes over has nonzero depth. */
  lemma {:induction false} CutFromSkips(s: string, j: nat)
    ensures forall i :: j <= i < CutFrom(s, j) ==> Depth(s[..i]) != 0
    decreases |s| - j
  {
    if j < |s| && Depth(s[..j]) != 0 {
      CutFromSkips(s, j + 1);
    }
  }

  /** Where the scan of `s` stops: the shortest prefix of length at least two
      whose depth is zero, or all of `s` when there is none. */
  function CutIndex(s: string): (k: nat)
    ensures k <= |s|
    ensures k == |s| || (2 <= k && Depth(s[..k]) == 0)
  {
    CutFrom(s, 2)
  }

  /** No prefix shorter than the cut, and at least two long, has depth zero. */
  lemma CutIndexFirst(s: string)
    ensures forall j :: 2 <= j < CutIndex(s) ==> Depth(s[..j]) != 0
  {
    CutFromSkips(s, 2);
  }

  /** The three facts `CutIndex` ensures determine it. */
  lemma CutIndexUnique(s: string, k: nat)
    requires k <= |s|
    requires forall j :: 2 <= j < k ==> Depth(s[..j]) != 0
    requires k == |s| || (2 <= k && Depth(s[..k]) == 0)
    ensures CutIndex(s) == k
  {
    CutFromSkips(s, 2);
  }

  /** The character loop of `_get_one_part`: `part` accumulates every
      character read and `index` counts them; the loop stops once the depth is
      zero again, but never on the first character. */
  method ScanPart(content: string) returns (part: string, index: nat)
    ensures index == CutIndex(content) && part == content[..index]
  {
    part := "";
    var parens := 0;
    var justStarted := true;
    index := 0;
    while index < |content|
      invariant index <= |content|
      invariant part == content[..index]
      invariant parens == Depth(part)
      invariant justStarted <==> index == 0
      invariant 2 <= index ==> Depth(part) != 0 && CutIndex(content) == CutFrom(content, index)
    {
      var c := content[index];
      if c == '(' {
        parens := parens + 1;
      } else if c == ')' {
        parens := parens - 1;
      }
      DepthSnoc(part, c);
      assert content[..index + 1] == part + [c];
      part := part + [c];
      index := index + 1;
      if !justStarted && parens == 0 {
        assert CutIndex(content) == index;
        break;
      }
      justStarted := false;
    }
    CutAtEnd(content);
    assert CutIndex(content) == index;
  }

  /** The characters `_get_one_item` skips before an item starts. */
  predicate IsBlank(c: char) {
    c == '\n' || c == ' ' || c == '\r' || c == '\t'
  }

  /** Length of the run of blanks that starts `s`. */
  function LeadingBlank(s: string): (w: nat)
    ensures w <= |s|
    ensures w == |s| || !IsBlank(s[w])
  {
    if s != [] && IsBlank(s[0]) then 1 + LeadingBlank(s[1..]) else 0
  }

  /** Every character skipped is a blank. */
  lemma {:induction false} LeadingBlanks(s: string)
    ensures forall i :: 0 <= i < LeadingBlank(s) ==> IsBlank(s[i])
  {
    if s != [] && IsBlank(s[0]) {
      LeadingBlanks(s[1..]);
      assert forall i :: 1 <= i < LeadingBlank(s) ==> s[i] == s[1..][i - 1];
    }
  }

  /** Where `_get_one_item` stops reading: past the leading blanks, the
      depth rule applied to what follows them. */
  function ItemEnd(s: string): (e: nat)
    ensures LeadingBlank(s) <= e <= |s|
  {
    LeadingBlank(s) + CutIndex(s[LeadingBlank(s)..])
  }

  /** What `_get_one_item` returns: the item with whitespace stripped, and
      the text after it with one more character dropped, not stripped. The
      remainder is strictly shorter than any non-empty input, which is what
      makes the item loop of `parse_from_file` terminate. */
  function NextItem(s: string): (r: (string, string))
    ensures s != [] ==> |r.1| < |s|
  {
    (Strip(s[LeadingBlank(s)..ItemEnd(s)]), Drop(s, ItemEnd(s) + 1))
  }

  /** The state of the loop of `_get_one_item` after reading `index`
      characters: before the first non-blank nothing is kept; from it on,
      `item` is everything read since, `parens` its depth, and past two
      characters the scan has not yet stopped. */
  ghost predicate Scanning(content: string, index: nat, item: string, parens: int, justStarted: bool) {
    var w := LeadingBlank(content);
    index <= |content| &&
    (justStarted ==> index <= w && item == [] && parens == 0) &&
    (!justStarted ==> w < index && item == content[w..index] && parens == Depth(item)) &&
    (!justStarted && 2 <= index - w ==>
      Depth(item) != 0 && CutIndex(content[w..]) == CutFrom(content[w..], index - w))
  }

  /** The character loop of `_get_one_item`: while nothing has been read,
      blanks only advance `index`; from the first other character on it is
      the loop of `_get_one_part`. */
  method ScanItem(content: string) returns (item: string, index: nat)
    ensures index == ItemEnd(content)
    ensures item == content[LeadingBlank(content)..index]
  {
    item := "";
    var parens := 0;
    var justStarted := true;
    index := 0;
    while index < |content|
      invariant Scanning(content, index, item, parens, justStarted)
      decreases |content| - index
    {
      var c := content[index];
      if justStarted && IsBlank(c) {
        ScanBlank(content, index);
        index := index + 1;
        continue;
      }
      ScanChar(content, index, item, parens, justStarted);
      if c == '(' {
        parens := parens + 1;
      } else if c == ')' {
        parens := parens - 1;
      }
      item := item + [c];
      index := index + 1;
      if !justStarted && parens == 0 {
        return;
      }
      justStarted := false;
    }
    ScanEnd(content, item, parens, justStarted);
  }

  /** A blank before the first other character is skipped. */
  lemma ScanBlank(content: string, index: nat)
    requires Scanning(content, index, [], 0, true)
    requires index < |content| && IsBlank(content[index])
    ensures Scanning(content, index + 1, [], 0, true)
  {
  }

  /** Reading one character that is not a skipped blank either stops the
      scan at the end of the item or leaves it scanning. */
  lemma ScanChar(content: string, index: nat, item: string, parens: int, justStarted: bool)
    requires Scanning(content, index, item, parens, justStarted)
    requires index < |content| && !(justStarted && IsBlank(content[index]))
    ensures var c := content[index];
      if !justStarted && parens + Delta(c) == 0 then
        index + 1 == ItemEnd(content) && item + [c] == content[LeadingBlank(content)..index + 1]
      else
        Scanning(content, index + 1, item + [c], parens + Delta(c), false)
  {
    if justStarted {
      ScanFirst(content, index);
    } else {
      ScanMore(content, index, item);
    }
  }

  /** The first character that is not blank starts the item. */
  lemma ScanFirst(content: string, index: nat)
    requires Scanning(content, index, [], 0, true)
    requires index < |content| && !IsBlank(content[index])
    ensures Scanning(content, index + 1, [content[index]], Delta(content[index]), false)
  {
    var w := LeadingBlank(content);
    if index < w {
      LeadingBlanks(content);
      assert false;
    }
    assert index == w;
    ItemSnoc(content, w, index, []);
  }

  /** A later character either brings the depth back to zero, ending the
      item, or keeps the scan going. */
  lemma ScanMore(content: string, index: nat, item: string)
    requires Scanning(content, index, item, Depth(item), false)
    requires index < |content|
    ensures var c := content[index];
      if Depth(item) + Delta(c) == 0 then
        index + 1 == ItemEnd(content) && item + [c] == content[LeadingBlank(content)..index + 1]
      else
        Scanning(content, index + 1, item + [c], Depth(item) + Delta(c), false)
  {
    var w := LeadingBlank(content);
    assert w < index && item == content[w..index];
    assert 2 <= index - w ==> Depth(item) != 0 && CutIndex(content[w..]) == CutFrom(content[w..], index - w);
    ScanAdvance(content, w, index, item);
    if Depth(item) + Delta(content[index]) == 0 {
      CutStop(content[w..], index + 1 - w);
    } else {
      var next := item + [content[index]];
      assert w < index + 1 && next == content[w..index + 1];
      assert Depth(next) != 0 && CutIndex(content[w..]) == CutFrom(content[w..], index + 1 - w);
    }
  }

  /** The facts `ScanMore` needs about the item one character longer. */
  lemma ScanAdvance(content: string, w: nat, index: nat, item: string)
    requires w < index < |content| && item == content[w..index]
    requires 2 <= index - w ==> Depth(item) != 0 && CutIndex(content[w..]) == CutFrom(content[w..], index - w)
    ensures item + [content[index]] == content[w..index + 1] == content[w..][..index + 1 - w]
    ensures Depth(item + [content[index]]) == Depth(item) + Delta(content[index])
    ensures CutIndex(content[w..]) == CutFrom(content[w..], index + 1 - w)
  {
    var body := content[w..];
    ItemSnoc(content, w, index, item);
    SliceOfSuffix(content, w, index);
    assert body[..index - w] == item && index - w < |body|;
    CutAdvance(body, index - w);
  }

  /** Reaching the end of the input while scanning, the item is everything
      after the leading blanks. */
  lemma ScanEnd(content: string, item: string, parens: int, justStarted: bool)
    requires Scanning(content, |content|, item, parens, justStarted)
    ensures |content| == ItemEnd(content)
    ensures item == content[LeadingBlank(content)..|content|]
  {
    var w := LeadingBlank(content);
    CutAtEnd(content[w..]);
  }

  /** The item read so far, one character longer. */
  lemma ItemSnoc(content: string, w: nat, index: nat, item: string)
    requires w <= index < |content| && item == content[w..index]
    ensures item + [content[index]] == content[w..index + 1]
    ensures content[w..][..index + 1 - w] == item + [content[index]]
    ensures Depth(item + [content[index]]) == Depth(item) + Delta(content[index])
  {
    SliceSnoc(content, w, index);
    SliceOfSuffix(content, w, index + 1);
    DepthSnoc(item, content[index]);
  }

  /** Past the first character, a prefix of nonzero depth moves the scan on
      by one. */
  lemma CutAdvance(body: string, j: nat)
    requires 1 <= j < |body|
    requires 2 <= j ==> Depth(body[..j]) != 0 && CutIndex(body) == CutFrom(body, j)
    ensures CutIndex(body) == CutFrom(body, j + 1)
  {
    if 2 <= j {
      CutStep(body, j);
    }
  }

  /** A prefix of nonzero depth does not stop the scan. */
  lemma CutStep(s: string, k: nat)
    requires 2 <= k < |s| && Depth(s[..k]) != 0
    ensures CutFrom(s, k) == CutFrom(s, k + 1)
  {
  }

  /** A prefix of depth zero, at least two long, stops the scan. */
  lemma CutStop(s: string, k: nat)
    requires 2 <= k <= |s| && Depth(s[..k]) == 0
    ensures CutFrom(s, k) == k
  {
  }

  /** Reaching the end of `s`, the scan stops there. */
  lemma CutAtEnd(s: string)
    ensures CutFrom(s, |s|) == |s|
    ensures |s| < 2 ==> CutIndex(s) == |s|
  {
  }

  /** `Transcript._get_one_item` (identical in both scripts). */
  method GetOneItem(content: string) returns (item: string, rest: string)
    ensures item == Strip(content[LeadingBlank(content)..ItemEnd(content)])
    ensures rest == Drop(content, ItemEnd(content) + 1)
    ensures content != [] ==> |rest| < |content|
    ensures (item, rest) == NextItem(content)
  {
    var raw, index := ScanItem(content);
    item := Strip(raw);
    rest := Drop(content, index + 1);
  }
}
