/** The Python string operations the scripts rely on, over `string` (a
    sequence of `char`): `strip`, `split`, `join`, `replace`, `startswith`,
    `in`, `capitalize`, slicing past the end, and `readlines`. */
module Text {
  import opened Wrappers
  import opened Lists

  /** Python's `str.isspace` for one character: exactly the characters that
      `strip()` removes and that `split()` with no argument splits on. */
  predicate IsSpace(c: char) {
    c == ' ' || '\t' <= c <= '\r' || '\U{1C}' <= c <= '\U{1F}'
    || c == '\U{85}' || c == '\U{A0}' || c == '\U{1680}'
    || '\U{2000}' <= c <= '\U{200A}' || c == '\U{2028}' || c == '\U{2029}'
    || c == '\U{202F}' || c == '\U{205F}' || c == '\U{3000}'
  }

  /** No whitespace character anywhere in `s`. */
  predicate NoSpace(s: string) {
    forall i :: 0 <= i < |s| ==> !IsSpace(s[i])
  }

  /** `s` neither starts nor ends with whitespace (so `strip` leaves it alone). */
  predicate Trimmed(s: string) {
    s == [] || (!IsSpace(s[0]) && !IsSpace(s[|s| - 1]))
  }

  /** `s.lstrip()` */
  function LStrip(s: string): (r: string)
    ensures |r| <= |s| && r == s[|s| - |r|..]
    ensures r == [] || !IsSpace(r[0])
  {
    if s != [] && IsSpace(s[0]) then LStrip(s[1..]) else s
  }

  /** Everything `lstrip` removes is whitespace. */
  lemma {:induction false} LStripSpaces(s: string)
    ensures forall i :: 0 <= i < |s| - |LStrip(s)| ==> IsSpace(s[i])
    decreases |s|
  {
    if s != [] && IsSpace(s[0]) {
      LStripSpaces(s[1..]);
      assert forall i :: 1 <= i < |s| - |LStrip(s)| ==> s[i] == s[1..][i - 1];
    }
  }

  /** `lstrip` removes exactly the leading whitespace. */
  lemma {:induction false} LStripBlank(sp: string, t: string)
    requires forall j :: 0 <= j < |sp| ==> IsSpace(sp[j])
    requires t != [] && !IsSpace(t[0])
    ensures LStrip(sp + t) == t
    decreases |sp|
  {
    var s := sp + t;
    if sp == [] {
      assert s == t;
    } else {
      assert s[0] == sp[0] && s[1..] == sp[1..] + t;
      assert forall j :: 0 <= j < |sp| - 1 ==> sp[1..][j] == sp[j + 1];
      LStripBlank(sp[1..], t);
    }
  }

  /** `s.rstrip()` */
  function RStrip(s: string): (r: string)
    ensures |r| <= |s| && r == s[..|r|]
    ensures r == [] || !IsSpace(r[|r| - 1])
  {
    if s != [] && IsSpace(s[|s| - 1]) then RStrip(s[..|s| - 1]) else s
  }

  /** Everything `rstrip` removes is whitespace. */
  lemma {:induction false} RStripSpaces(s: string)
    ensures forall i :: |RStrip(s)| <= i < |s| ==> IsSpace(s[i])
    decreases |s|
  {
    if s != [] && IsSpace(s[|s| - 1]) {
      RStripSpaces(s[..|s| - 1]);
      assert forall i :: |RStrip(s)| <= i < |s| - 1 ==> s[i] == s[..|s| - 1][i];
    }
  }

  /** `rstrip` keeps a first character that is not whitespace. */
  lemma RStripKeepsFirst(s: string)
    requires s != [] && !IsSpace(s[0])
    ensures RStrip(s) != [] && RStrip(s)[0] == s[0]
  {
    RStripSpaces(s);
  }

  /** `s.strip()`: the result has no whitespace at either end, is empty
      exactly when `s` is all whitespace, and leaves a trimmed `s` unchanged. */
  function Strip(s: string): (r: string)
    ensures |r| <= |s| && Trimmed(r)
    ensures Trimmed(s) ==> r == s
  {
    var l := LStrip(s);
    var r := RStrip(l);
    RStripSpaces(l);
    assert r == [] || r[0] == l[0];
    assert r == [] ==> l == [];
    r
  }

  /** `strip` gives the empty string exactly for all-whitespace text. */
  lemma StripEmpty(s: string)
    ensures Strip(s) == [] <==> forall i :: 0 <= i < |s| ==> IsSpace(s[i])
  {
    var l := LStrip(s);
    LStripSpaces(s);
    RStripSpaces(l);
    if l != [] {
      assert s[|s| - |l|] == l[0] && !IsSpace(l[0]);
      assert RStrip(l)[0] == l[0];
    }
  }

  /** Stripping a line together with its trailing newline gives the line back,
      when the line itself has no whitespace at its ends. */
  lemma StripLine(l: string)
    requires Trimmed(l)
    ensures Strip(l + "\n") == l
  {
    var s := l + "\n";
    assert s[|s| - 1] == '\n' && s[..|s| - 1] == l;
    if l == [] {
      assert s[1..] == [];
      assert LStrip(s) == LStrip(s[1..]);
    } else {
      assert s[0] == l[0];
      assert LStrip(s) == s;
      assert RStrip(s) == RStrip(l);
      assert RStrip(l) == l;
    }
  }

  /** `s.startswith(p)` */
  predicate StartsWith(s: string, p: string) {
    |p| <= |s| && s[..|p|] == p
  }

  /** `s.endswith(p)` */
  predicate EndsWith(s: string, p: string) {
    |p| <= |s| && s[|s| - |p|..] == p
  }

  /** Python's `p in s`. */
  predicate Contains(s: string, p: string)
    decreases |s|
  {
    StartsWith(s, p) || (s != [] && Contains(s[1..], p))
  }

  /** `p in s` when `p` is placed at offset `i` of `s`. */
  lemma ContainsAt(s: string, p: string, i: nat)
    requires i + |p| <= |s| && s[i..i + |p|] == p
    ensures Contains(s, p)
    decreases i
  {
    if i > 0 {
      assert s[1..][i - 1..i - 1 + |p|] == p;
      ContainsAt(s[1..], p, i - 1);
    }
  }

  /** Where `p` occurs in `s`, when it does. */
  lemma {:induction false} ContainsIndex(s: string, p: string) returns (i: nat)
    requires Contains(s, p)
    ensures i + |p| <= |s| && s[i..i + |p|] == p
    decreases |s|
  {
    if StartsWith(s, p) {
      i := 0;
    } else {
      var j := ContainsIndex(s[1..], p);
      i := j + 1;
      assert s[i..i + |p|] == s[1..][j..j + |p|];
    }
  }

  /** `p in s` whenever `p` is in a slice of `s`. */
  lemma ContainsInSlice(s: string, i: nat, j: nat, p: string)
    requires i <= j <= |s| && Contains(s[i..j], p)
    ensures Contains(s, p)
  {
    var k := ContainsIndex(s[i..j], p);
    var inner, outer := s[i..j][k..k + |p|], s[i + k..i + k + |p|];
    forall t | 0 <= t < |p|
      ensures inner[t] == outer[t]
    {
    }
    assert inner == outer;
    ContainsAt(s, p, i + k);
  }

  /** A newline after `s` adds no occurrence of a `p` without newlines. */
  lemma {:induction false} ContainsBeforeNewline(s: string, p: string)
    requires '\n' !in p
    ensures Contains(s + "\n", p) ==> Contains(s, p)
    decreases |s|
  {
    var x := s + "\n";
    if Contains(x, p) {
      if StartsWith(x, p) {
        assert x[..|s| + 1] == x && x[|s|] == '\n';
        assert |p| <= |s|;
        assert x[..|p|] == s[..|p|];
      } else if s == [] {
        assert x[1..] == [];
      } else {
        assert x[1..] == s[1..] + "\n";
        ContainsBeforeNewline(s[1..], p);
      }
    }
  }

  /** `s.strip()` is a slice of `s`. */
  lemma StripSlice(s: string) returns (k: nat)
    ensures k + |Strip(s)| <= |s| && Strip(s) == s[k..k + |Strip(s)|]
  {
    var l := LStrip(s);
    var r := RStrip(l);
    assert Strip(s) == r;
    k := |s| - |l|;
    assert l[..|r|] == s[k..k + |r|];
  }

  /** What occurs in `s.strip()` occurs in `s`. */
  lemma StripContains(s: string, p: string)
    ensures Contains(Strip(s), p) ==> Contains(s, p)
  {
    var k := StripSlice(s);
    SliceContains(s, k, Strip(s), p);
  }

  /** What occurs in a slice of `s` occurs in `s`. */
  lemma SliceContains(s: string, k: nat, t: string, p: string)
    requires k + |t| <= |s| && t == s[k..k + |t|]
    ensures Contains(t, p) ==> Contains(s, p)
  {
    if Contains(t, p) {
      ContainsInSlice(s, k, k + |t|, p);
    }
  }

  /** `p in a + b` whenever `p in a`. */
  lemma ContainsPrefix(a: string, b: string, p: string)
    requires Contains(a, p)
    ensures Contains(a + b, p)
    decreases |a|
  {
    if !StartsWith(a, p) {
      assert (a + b)[1..] == a[1..] + b;
      ContainsPrefix(a[1..], b, p);
    } else {
      assert (a + b)[..|p|] == a[..|p|];
    }
  }

  /** `s.find(p)`, as an option: the offset of the first occurrence. */
  function IndexOf(s: string, p: string): (r: Option<nat>)
    ensures r.Some? ==> r.value + |p| <= |s| && s[r.value..r.value + |p|] == p
    ensures r.Some? ==> forall j :: 0 <= j < r.value ==> !StartsWith(s[j..], p)
    ensures r.None? <==> !Contains(s, p)
    decreases |s|
  {
    if StartsWith(s, p) then Some(0)
    else if s == [] then None
    else
      match IndexOf(s[1..], p)
      case None => None
      case Some(i) =>
        assert forall j :: 1 <= j < i + 1 ==> s[j..] == s[1..][j - 1..];
        Some(i + 1)
  }

  /** `s.split(sep)[0]`: everything before the first `sep`. */
  function Before(s: string, sep: string): (r: string)
    ensures StartsWith(s, r)
    ensures !Contains(r, sep) || sep == []
  {
    match IndexOf(s, sep)
    case None => s
    case Some(i) =>
      assert s[..i][..i] == s[..i];
      NoEarlyMatch(s, sep, i);
      s[..i]
  }

  lemma NoEarlyMatch(s: string, sep: string, i: nat)
    requires i <= |s|
    requires forall j :: 0 <= j < i ==> !StartsWith(s[j..], sep)
    ensures !Contains(s[..i], sep) || sep == []
    decreases i
  {
    if sep != [] && i > 0 {
      assert !StartsWith(s[..i], sep) by {
        if |sep| <= i { assert s[..i][..|sep|] == s[0..][..|sep|]; }
      }
      assert s[..i][1..] == s[1..][..i - 1];
      forall j | 0 <= j < i - 1 ensures !StartsWith(s[1..][j..], sep) {
        assert s[1..][j..] == s[j + 1..];
      }
      NoEarlyMatch(s[1..], sep, i - 1);
    }
  }

  /** `s.split(sep)[1]`: the text between the first and the second `sep`
      (or to the end). `None` where Python raises IndexError, because `sep`
      does not occur in `s`. */
  function SplitSecond(s: string, sep: string): (r: Option<string>)
    requires sep != []
    ensures r.None? <==> !Contains(s, sep)
    ensures r.Some? ==> !Contains(r.value, sep)
    ensures StartsWith(s, sep) ==> r == Some(Before(s[|sep|..], sep))
  {
    match IndexOf(s, sep)
    case None => None
    case Some(i) => Some(Before(s[i + |sep|..], sep))
  }

  /** `s.removeprefix(p)` */
  function RemovePrefix(s: string, p: string): (r: string)
    ensures StartsWith(s, p) ==> p + r == s
    ensures !StartsWith(s, p) ==> r == s
  {
    if StartsWith(s, p) then s[|p|..] else s
  }

  /** `s.removesuffix(p)` */
  function RemoveSuffix(s: string, p: string): (r: string)
    ensures EndsWith(s, p) ==> r + p == s
    ensures !EndsWith(s, p) ==> r == s
  {
    if EndsWith(s, p) then s[..|s| - |p|] else s
  }

  /** Python's slice `s[i:]`, which is empty when `i` is past the end. */
  function Drop(s: string, i: nat): (r: string)
    ensures i < |s| ==> |r| == |s| - i && r == s[i..]
    ensures i >= |s| ==> r == []
  {
    if i < |s| then s[i..] else []
  }

  /** Length of the run of non-whitespace characters that starts `t`. */
  function WordLen(t: string): (k: nat)
    ensures k <= |t|
    ensures forall i :: 0 <= i < k ==> !IsSpace(t[i])
    ensures k < |t| ==> IsSpace(t[k])
  {
    if t == [] || IsSpace(t[0]) then 0 else 1 + WordLen(t[1..])
  }

  /** `s.split()`: the maximal runs of non-whitespace, in order. */
  function SplitWs(s: string): (ws: seq<string>)
    ensures forall i :: 0 <= i < |ws| ==> ws[i] != [] && NoSpace(ws[i])
    decreases |s|
  {
    var t := LStrip(s);
    if t == [] then []
    else
      var k := WordLen(t);
      var w := t[..k];
      assert w != [] && NoSpace(w);
      WordsCons(w, SplitWs(t[k..]));
      [w] + SplitWs(t[k..])
  }

  lemma WordsCons(w: string, ws: seq<string>)
    requires w != [] && NoSpace(w) && Words(ws)
    ensures Words([w] + ws)
  {
    forall i | 0 <= i < |ws| + 1
      ensures ([w] + ws)[i] != [] && NoSpace(([w] + ws)[i])
    {
      if i > 0 {
        assert ([w] + ws)[i] == ws[i - 1];
      }
    }
  }

  /** A word followed by whitespace or nothing is a whole run. */
  lemma {:induction false} WordLenPrefix(w: string, rest: string)
    requires NoSpace(w) && (rest == [] || IsSpace(rest[0]))
    ensures WordLen(w + rest) == |w|
  {
    if w == [] {
      assert w + rest == rest;
    } else {
      assert (w + rest)[1..] == w[1..] + rest;
      assert (w + rest)[0] == w[0];
      WordLenPrefix(w[1..], rest);
    }
  }

  /** `s.split(sep)` for a one-character separator: the pieces between the
      separators, in order, empty pieces included. */
  function SplitOn(s: string, sep: char): (ps: seq<string>)
    ensures |ps| >= 1
    ensures forall i :: 0 <= i < |ps| ==> sep !in ps[i]
    decreases |s|
  {
    if sep !in s then [s]
    else
      var i := FirstIndex(s, sep);
      [s[..i]] + SplitOn(s[i + 1..], sep)
  }

  /** Offset of the first `c` in `s`. */
  function FirstIndex(s: string, c: char): (i: nat)
    requires c in s
    ensures i < |s| && s[i] == c && c !in s[..i]
  {
    if s[0] == c then 0 else 1 + FirstIndex(s[1..], c)
  }

  /** The first `c` after a piece free of `c` is the one right after it. */
  lemma {:induction false} FirstIndexAfter(a: string, c: char, b: string)
    requires c !in a
    ensures c in a + [c] + b && FirstIndex(a + [c] + b, c) == |a|
  {
    var s := a + [c] + b;
    assert s[|a|] == c;
    if a != [] {
      assert s[0] == a[0] && s[1..] == a[1..] + [c] + b;
      FirstIndexAfter(a[1..], c, b);
    }
  }

  /** A piece free of the separator, then the separator, is the first piece. */
  lemma SplitOnCons(a: string, sep: char, b: string)
    requires sep !in a
    ensures SplitOn(a + [sep] + b, sep) == [a] + SplitOn(b, sep)
  {
    var s := a + [sep] + b;
    assert s[|a|] == sep;
    var i := FirstIndex(s, sep);
    assert forall j :: 0 <= j < |a| ==> s[j] == a[j];
    assert i == |a| by {
      assert i <= |a|;
      assert s[..i] == a[..i];
    }
    assert s[..i] == a && s[i + 1..] == b;
  }

  /** A separator at the start gives an empty first field. */
  lemma SplitOnLeadingSep(sep: char, b: string)
    ensures SplitOn([sep] + b, sep) == [[]] + SplitOn(b, sep)
  {
    SplitOnCons([], sep, b);
    assert [] + [sep] + b == [sep] + b;
  }

  /** Three colon-free fields joined by colons split back into themselves. */
  lemma SplitThree(a: string, b: string, c: string)
    requires ':' !in a && ':' !in b && ':' !in c
    ensures SplitOn(a + ":" + b + ":" + c, ':') == [a, b, c]
  {
    var bc := b + ":" + c;
    AppendAssoc(a + ":", b + ":", c);
    AppendAssoc(a + ":", b, ":");
    SplitOnCons(a, ':', bc);
    SplitOnCons(b, ':', c);
    assert SplitOn(bc, ':') == [b, c];
  }

  /** `sep.join(ws)` */
  function Join(ws: seq<string>, sep: string): string {
    if ws == [] then []
    else if |ws| == 1 then ws[0]
    else ws[0] + sep + Join(ws[1..], sep)
  }

  /** Non-empty words without whitespace, as `split()` produces them. */
  predicate Words(ws: seq<string>) {
    forall i :: 0 <= i < |ws| ==> ws[i] != [] && NoSpace(ws[i])
  }

  /** Joining words with single spaces starts with the first word. */
  lemma JoinHead(ws: seq<string>)
    requires Words(ws) && ws != []
    ensures Join(ws, " ") != [] && Join(ws, " ")[0] == ws[0][0]
  {
  }

  /** One line of words: no whitespace at either end, and every whitespace
      character is a single space between two non-space characters (so in
      particular there is no newline). */
  predicate SingleSpaced(t: string) {
    Trimmed(t)
    && forall i :: 0 <= i < |t| && IsSpace(t[i]) ==>
         t[i] == ' ' && 0 < i < |t| - 1 && !IsSpace(t[i - 1]) && !IsSpace(t[i + 1])
  }

  lemma SingleSpacedOneLine(t: string)
    requires SingleSpaced(t)
    ensures '\n' !in t
  {
    assert IsSpace('\n');
  }

  /** Joining words with single spaces gives a string without a newline,
      without whitespace at either end, and whose only whitespace is single
      spaces between non-space characters. */
  lemma {:induction false} JoinShape(ws: seq<string>)
    requires Words(ws)
    ensures SingleSpaced(Join(ws, " "))
  {
    if |ws| > 1 {
      JoinShape(ws[1..]);
      JoinHead(ws[1..]);
      var w, j := ws[0], Join(ws[1..], " ");
      var s := w + " " + j;
      assert Join(ws, " ") == s;
      assert forall i :: 0 <= i < |w| ==> s[i] == w[i];
      assert forall i :: |w| < i < |s| ==> s[i] == j[i - |w| - 1];
    }
  }

  /** A word followed by whitespace (or nothing) is the first thing `split()` yields. */
  lemma SplitWsWord(w: string, rest: string)
    requires w != [] && NoSpace(w)
    requires rest == [] || IsSpace(rest[0])
    ensures SplitWs(w + rest) == [w] + SplitWs(rest)
  {
    var s := w + rest;
    assert s[0] == w[0];
    assert LStrip(s) == s;
    WordLenPrefix(w, rest);
    assert s[..|w|] == w && s[|w|..] == rest;
  }

  /** `split()` ignores one leading space. */
  lemma SplitWsSpace(x: string)
    ensures SplitWs(" " + x) == SplitWs(x)
  {
    assert (" " + x)[1..] == x;
    assert LStrip(" " + x) == LStrip(x);
  }

  /** `split()` undoes `' '.join(...)` on words. */
  lemma {:induction false} SplitJoin(ws: seq<string>)
    requires Words(ws)
    ensures SplitWs(Join(ws, " ")) == ws
  {
    if |ws| == 1 {
      SplitWsWord(ws[0], []);
      assert ws[0] + [] == ws[0] && SplitWs([]) == [];
    } else if |ws| > 1 {
      var head, tail := ws[0], ws[1..];
      var j := Join(tail, " ");
      JoinCons(ws, " ");
      WordsTail(ws);
      SplitWsWord(head, " " + j);
      SplitWsSpace(j);
      SplitJoin(tail);
      Recons(ws, SplitWs(head + (" " + j)), SplitWs(j));
    }
  }

  lemma JoinCons(ws: seq<string>, sep: string)
    requires |ws| > 1
    ensures Join(ws, sep) == ws[0] + (sep + Join(ws[1..], sep))
  {
  }

  lemma WordsTail(ws: seq<string>)
    requires ws != [] && Words(ws)
    ensures ws[0] != [] && NoSpace(ws[0]) && Words(ws[1..])
  {
    forall i | 0 <= i < |ws| - 1
      ensures ws[1..][i] != [] && NoSpace(ws[1..][i])
    {
      assert ws[1..][i] == ws[i + 1];
    }
  }

  /** A sequence is its head followed by its tail. */
  lemma Recons<T>(xs: seq<T>, ys: seq<T>, zs: seq<T>)
    requires xs != [] && ys == [xs[0]] + zs && zs == xs[1..]
    ensures ys == xs
  {
  }

  /** `s.replace(pat, rep)`: non-overlapping occurrences, left to right. */
  function Replace(s: string, pat: string, rep: string): string
    requires pat != []
    decreases |s|
  {
    if |s| < |pat| then s
    else if s[..|pat|] == pat then rep + Replace(s[|pat|..], pat, rep)
    else [s[0]] + Replace(s[1..], pat, rep)
  }

  /** `replace` introduces no character that neither the text nor the
      replacement holds. */
  lemma {:induction false} ReplaceKeepsOut(s: string, pat: string, rep: string, c: char)
    requires pat != [] && c !in s && c !in rep
    ensures c !in Replace(s, pat, rep)
    decreases |s|
  {
    if |s| >= |pat| {
      if s[..|pat|] == pat {
        ReplaceKeepsOut(s[|pat|..], pat, rep, c);
      } else {
        ReplaceKeepsOut(s[1..], pat, rep, c);
      }
    }
  }

  /** Replacing a one-character string by the empty string removes that
      character entirely. */
  lemma {:induction false} ReplaceDeletes(s: string, c: char)
    ensures c !in Replace(s, [c], [])
    decreases |s|
  {
    if |s| >= 1 {
      if s[..1] == [c] {
        ReplaceDeletes(s[1..], c);
      } else {
        assert s[0] != c by { assert s[..1] == [s[0]]; }
        ReplaceDeletes(s[1..], c);
      }
    }
  }

  /** ASCII upper case of one character; other characters are unchanged. */
  function Upper(c: char): char {
    if 'a' <= c <= 'z' then (c as int - 32) as char else c
  }

  /** ASCII lower case of one character; other characters are unchanged. */
  function Lower(c: char): char {
    if 'A' <= c <= 'Z' then (c as int + 32) as char else c
  }

  /** `s.capitalize()` restricted to ASCII: the first character upper case,
      every other one lower case, the length and every non-letter unchanged. */
  function Capitalize(s: string): (r: string)
    ensures |r| == |s|
    ensures s != [] ==> r[0] == Upper(s[0])
    ensures forall i :: 1 <= i < |s| ==> r[i] == Lower(s[i])
  {
    if s == [] then [] else [Upper(s[0])] + seq(|s| - 1, i requires 0 <= i < |s| - 1 => Lower(s[i + 1]))
  }

  /** Capitalizing leaves every whitespace character where it was and
      makes no new one. */
  lemma CapitalizeSpaces(s: string)
    ensures forall i :: 0 <= i < |s| ==> (IsSpace(Capitalize(s)[i]) <==> IsSpace(s[i]))
    ensures forall i :: 0 <= i < |s| && IsSpace(s[i]) ==> Capitalize(s)[i] == s[i]
  {
    var r := Capitalize(s);
    forall i | 0 <= i < |s|
      ensures (IsSpace(r[i]) <==> IsSpace(s[i])) && (IsSpace(s[i]) ==> r[i] == s[i])
    {
      CaseSpace(s[i]);
    }
  }

  /** Changing the case of a letter never makes or removes whitespace. */
  lemma CaseSpace(c: char)
    ensures IsSpace(Upper(c)) <==> IsSpace(c)
    ensures IsSpace(Lower(c)) <==> IsSpace(c)
    ensures IsSpace(c) ==> Upper(c) == c && Lower(c) == c
  {
  }

  /** Capitalizing keeps a line of single-spaced words one. */
  lemma CapitalizeSingleSpaced(s: string)
    requires SingleSpaced(s)
    ensures SingleSpaced(Capitalize(s))
  {
    var r := Capitalize(s);
    if s != [] {
      CapitalizeAt(s, 0);
      CapitalizeAt(s, |s| - 1);
    }
    forall i | 0 <= i < |r| && IsSpace(r[i])
      ensures r[i] == ' ' && 0 < i < |r| - 1 && !IsSpace(r[i - 1]) && !IsSpace(r[i + 1])
    {
      CapitalizeSpaceAt(s, i);
    }
  }

  lemma CapitalizeSpaceAt(s: string, i: int)
    requires 0 <= i < |s| && IsSpace(Capitalize(s)[i])
    requires IsSpace(s[i]) ==> s[i] == ' ' && 0 < i < |s| - 1 && !IsSpace(s[i - 1]) && !IsSpace(s[i + 1])
    ensures Capitalize(s)[i] == ' ' && 0 < i < |s| - 1
    ensures !IsSpace(Capitalize(s)[i - 1]) && !IsSpace(Capitalize(s)[i + 1])
  {
    CapitalizeAt(s, i);
    CapitalizeAt(s, i - 1);
    CapitalizeAt(s, i + 1);
  }

  lemma CapitalizeAt(s: string, i: int)
    requires 0 <= i < |s|
    ensures IsSpace(Capitalize(s)[i]) <==> IsSpace(s[i])
    ensures IsSpace(s[i]) ==> Capitalize(s)[i] == s[i]
  {
    CaseSpace(s[i]);
  }

  /** Capitalizing twice is capitalizing once. */
  lemma CapitalizeIdempotent(s: string)
    ensures Capitalize(Capitalize(s)) == Capitalize(s)
  {
    if s != [] {
      var r := Capitalize(s);
      var rr := Capitalize(r);
      assert rr[0] == r[0];
      forall i | 1 <= i < |s| ensures rr[i] == r[i] {
        assert r[i] == Lower(s[i]);
      }
    }
  }

  /** `s` concatenated, in order. */
  function Concat(ls: seq<string>): string {
    if ls == [] then [] else ls[0] + Concat(ls[1..])
  }

  /** Length of the first line of `s`, counting its terminating newline. */
  function LineLen(s: string): (k: nat)
    requires s != []
    ensures 1 <= k <= |s|
    ensures forall i :: 0 <= i < k - 1 ==> s[i] != '\n'
    ensures s[k - 1] == '\n' || k == |s|
  {
    if s[0] == '\n' || |s| == 1 then 1 else 1 + LineLen(s[1..])
  }

  /** `f.readlines()` on a file holding `s`: each line keeps its newline;
      the last line may lack one. Concatenated, the lines give back `s`. */
  function ReadLines(s: string): (ls: seq<string>)
    ensures Concat(ls) == s
    ensures forall i :: 0 <= i < |ls| ==> ls[i] != []
    decreases |s|
  {
    if s == [] then []
    else
      var k := LineLen(s);
      assert s[..k] + s[k..] == s;
      [s[..k]] + ReadLines(s[k..])
  }

  /** A line without a newline, followed by one, is read as one line. */
  lemma ReadLinesCons(l: string, rest: string)
    requires '\n' !in l
    ensures ReadLines(l + "\n" + rest) == [l + "\n"] + ReadLines(rest)
  {
    var s := l + "\n" + rest;
    var k := LineLen(s);
    assert forall i :: 0 <= i < |l| ==> s[i] == l[i];
    assert s[|l|] == '\n';
    assert k == |l| + 1;
    assert s[..k] == l + "\n" && s[k..] == rest;
  }
}
