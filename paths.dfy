/** The POSIX path operations the scripts use (`os.path.split`,
    `os.path.splitext`, `os.path.join`), over path strings, and the name
    `part-{n}.mp3` that split-audio.py writes and to-pickles.py reads. */
module Paths {
  import opened Wrappers
  import opened Numerals
  import opened Lists

  /** `s.rfind(c)`, as an option. */
  function LastIndex(s: string, c: char): (r: Option<nat>)
    ensures r.Some? ==> r.value < |s| && s[r.value] == c && c !in s[r.value + 1..]
    ensures r.None? <==> c !in s
  {
    if s == [] then None
    else if s[|s| - 1] == c then Some(|s| - 1)
    else
      var r := LastIndex(s[..|s| - 1], c);
      assert s == s[..|s| - 1] + [s[|s| - 1]];
      r
  }

  /** `os.path.split(p)[1]`: what follows the last `/`. */
  function BaseName(p: string): (r: string)
    ensures |r| <= |p| && r == p[|p| - |r|..]
    ensures '/' !in r
    ensures '/' !in p ==> r == p
  {
    match LastIndex(p, '/')
    case None => p
    case Some(i) => p[i + 1..]
  }

  predicate AllDots(s: string) {
    forall i :: 0 <= i < |s| ==> s[i] == '.'
  }

  /** `os.path.splitext(p)`: the extension runs from the last `.` of the
      last component, unless everything before that dot in the component is
      dots too (so `.wav` and `..wav` have no extension). */
  function SplitExt(p: string): (r: (string, string))
    ensures r.0 + r.1 == p
    ensures r.1 == [] || (r.1[0] == '.' && '.' !in r.1[1..] && '/' !in r.1)
  {
    var start := match LastIndex(p, '/') case None => 0 case Some(i) => i + 1;
    match LastIndex(p, '.')
    case None => (p, [])
    case Some(d) =>
      if start <= d && !AllDots(p[start..d]) then
        assert p[..d] + p[d..] == p;
        assert p[d..][1..] == p[d + 1..];
        (p[..d], p[d..])
      else (p, [])
  }

  /** `os.path.splitext(os.path.split(p)[1])[0]`: the file name without
      directory and extension. */
  function Stem(p: string): (r: string)
    ensures r + Extension(BaseName(p)) == BaseName(p)
    ensures '/' !in r
  {
    var b := BaseName(p);
    var r := SplitExt(b).0;
    assert r == b[..|r|];
    r
  }

  /** The extension of a file name, `.wav` or `.vtt` for the files the
      scripts pick up. */
  function Extension(name: string): string {
    SplitExt(name).1
  }

  /** `os.path.join(a, b)`: an absolute `b` replaces `a`; otherwise a `/`
      is put between them unless `a` is empty or already ends with one. */
  function PathJoin(a: string, b: string): (r: string)
    ensures b != [] && b[0] != '/' ==> (r == a + b || r == a + "/" + b)
  {
    if b != [] && b[0] == '/' then b
    else if a == [] || a[|a| - 1] == '/' then a + b
    else a + "/" + b
  }

  /** Joining one directory with two relative names gives the same path only
      for the same name. */
  lemma PathJoinInjective(a: string, b: string, c: string)
    requires b != [] && b[0] != '/' && c != [] && c[0] != '/'
    requires PathJoin(a, b) == PathJoin(a, c)
    ensures b == c
  {
    var sep: string := if a == [] || a[|a| - 1] == '/' then [] else "/";
    assert PathJoin(a, b) == (a + sep) + b && PathJoin(a, c) == (a + sep) + c;
    CancelLeft(a + sep, b, c);
  }

  /** `f'part-{n}.mp3'` */
  function PartName(n: nat): (r: string)
    ensures r != [] && r[0] == 'p'
  {
    "part-" + NatToString(n) + ".mp3"
  }

  /** A part name is `part-`, digits that read back as `n`, and `.mp3`. */
  lemma PartNameReads(n: nat)
    ensures var r := PartName(n);
      && |r| > 9 && r[..5] == "part-" && r[|r| - 4..] == ".mp3"
      && ParseNat(r[5..|r| - 4]) == Some(n)
  {
    var r := PartName(n);
    assert r[5..|r| - 4] == NatToString(n);
  }

  /** Different part numbers give different names. */
  lemma PartNameInjective(m: nat, n: nat)
    requires PartName(m) == PartName(n)
    ensures m == n
  {
    CancelAround("part-", NatToString(m), NatToString(n), ".mp3");
    NatToStringInjective(m, n);
  }
}
