/**
  Path strings with the meaning Python's posixpath gives them (basename,
  dirname, join, splitext), ASCII lower-casing as used on extensions, and
  the decimal rendering of the collision counter.
*/
module Paths {

  type Path = string

  const SEP: char := '/'
  const EXTSEP: char := '.'

  /** Last index of `c` in `s`, or -1 when `c` does not occur (str.rfind). */
  function RFind(s: string, c: char): (r: int)
    ensures -1 <= r < |s|
    ensures r >= 0 ==> s[r] == c
    ensures forall k :: r < k < |s| ==> s[k] != c
  {
    if s == [] then -1
    else if s[|s| - 1] == c then |s| - 1
    else RFind(s[..|s| - 1], c)
  }

  /** The contract of RFind determines it: an index that holds `c` with no `c` after it is the answer. */
  lemma RFindIs(s: string, c: char, k: int)
    requires -1 <= k < |s|
    requires k >= 0 ==> s[k] == c
    requires forall j :: k < j < |s| ==> s[j] != c
    ensures RFind(s, c) == k
  {
  }

  /** Appending characters other than `c` does not move the last `c`. */
  lemma RFindAppend(s: string, t: string, c: char)
    requires c !in t
    ensures RFind(s + t, c) == RFind(s, c)
  {
    var k := RFind(s, c);
    var st := s + t;
    forall j | k < j < |st|
      ensures st[j] != c
    {
      if j >= |s| {
        assert st[j] == t[j - |s|];
      }
    }
    RFindIs(st, c, k);
  }

  predicate AllSeps(s: string) {
    forall k :: 0 <= k < |s| ==> s[k] == SEP
  }

  /** The shapes dirname can return: empty, only separators, or not ending in one. */
  predicate IsDirForm(d: Path) {
    d == [] || AllSeps(d) || d[|d| - 1] != SEP
  }

  /** posixpath.basename: the longest suffix without a separator. */
  function Basename(p: Path): (r: Path)
    ensures |r| <= |p| && r == p[|p| - |r|..]
    ensures SEP !in r
    ensures |r| < |p| ==> p[|p| - |r| - 1] == SEP
  {
    p[RFind(p, SEP) + 1..]
  }

  /** str.rstrip('/') */
  function RStripSeps(s: string): (r: string)
    ensures |r| <= |s| && r == s[..|r|]
    ensures r == [] || r[|r| - 1] != SEP
    ensures forall k :: |r| <= k < |s| ==> s[k] == SEP
  {
    if s != [] && s[|s| - 1] == SEP then RStripSeps(s[..|s| - 1]) else s
  }

  /** posixpath.dirname: everything up to the last separator, with trailing
      separators removed unless the head consists of separators only. */
  function Dirname(p: Path): (r: Path)
    ensures |r| <= |p| && r == p[..|r|]
    ensures IsDirForm(r)
  {
    var head := p[..RFind(p, SEP) + 1];
    if head != [] && !AllSeps(head) then RStripSeps(head) else head
  }

  /** posixpath.join for two components. */
  function Join(a: Path, b: Path): (r: Path)
    ensures |b| <= |r| && r[|r| - |b|..] == b
    ensures (b == [] || b[0] != SEP) ==> |a| <= |r| && r[..|a|] == a
  {
    if b != [] && b[0] == SEP then b
    else if a == [] || a[|a| - 1] == SEP then a + b
    else a + [SEP] + b
  }

  /** An absolute second part replaces the first; otherwise the parts are
      concatenated with exactly one separator added when the first does not
      already end in one. */
  lemma JoinShape(a: Path, b: Path)
    ensures b != [] && b[0] == SEP ==> Join(a, b) == b
    ensures (b == [] || b[0] != SEP) ==> Join(a, b) == a + b || Join(a, b) == a + [SEP] + b
    ensures (b == [] || b[0] != SEP) && (a == [] || a[|a| - 1] == SEP) ==> Join(a, b) == a + b
    ensures (b == [] || b[0] != SEP) && a != [] && a[|a| - 1] != SEP ==> Join(a, b) == a + [SEP] + b
  {
  }

  /** dirname is the head up to and including the last separator, with its
      trailing separators removed, unless the head consists of separators only. */
  lemma DirnameStripsHead(p: Path)
    ensures var h := p[..RFind(p, SEP) + 1];
      var r := Dirname(p);
      && |r| <= |h| && r == h[..|r|]
      && (forall k :: |r| <= k < |h| ==> h[k] == SEP)
      && (AllSeps(h) ==> r == h)
      && (!AllSeps(h) ==> r != [] && r[|r| - 1] != SEP)
  {
  }

  /** Joining a separator-free name and taking the basename gives the name back. */
  lemma JoinBasename(a: Path, b: Path)
    requires SEP !in b
    ensures Basename(Join(a, b)) == b
  {
    var j := Join(a, b);
    if a == [] {
      RFindIs(j, SEP, -1);
    } else if a[|a| - 1] == SEP {
      assert j == a + b;
      RFindIs(j, SEP, |a| - 1);
    } else {
      assert j == a + [SEP] + b;
      RFindIs(j, SEP, |a|);
    }
  }

  /** Joining a directory in dirname form with a separator-free name and taking
      the dirname gives the directory back. */
  lemma JoinDirname(a: Path, b: Path)
    requires SEP !in b
    requires IsDirForm(a)
    ensures Dirname(Join(a, b)) == a
  {
    var j := Join(a, b);
    if a == [] {
      RFindIs(j, SEP, -1);
    } else if a[|a| - 1] == SEP {
      assert j == a + b;
      RFindIs(j, SEP, |a| - 1);
      assert j[..|a|] == a;
    } else {
      assert j == a + [SEP] + b;
      RFindIs(j, SEP, |a|);
      var head := j[..|a| + 1];
      assert head == a + [SEP];
      assert !AllSeps(head) by { assert head[|a| - 1] != SEP; }
      assert Dirname(j) == RStripSeps(head);
      var r := RStripSeps(head);
      assert |r| == |a|;
      assert r == head[..|a|] == a;
    }
  }

  predicate HasNonDot(s: string) {
    exists k :: 0 <= k < |s| && s[k] != EXTSEP
  }

  /** posixpath.splitext: the extension starts at the last dot of the last
      component, and is empty when only dots precede that dot in the component. */
  function SplitExt(p: Path): (r: (Path, string))
    ensures r.0 + r.1 == p
    ensures r.1 == [] || (r.1[0] == EXTSEP && EXTSEP !in r.1[1..] && SEP !in r.1)
  {
    var sepIndex := RFind(p, SEP);
    var dotIndex := RFind(p, EXTSEP);
    if dotIndex > sepIndex && HasNonDot(p[sepIndex + 1..dotIndex]) then
      (p[..dotIndex], p[dotIndex..])
    else
      (p, [])
  }

  /** A dot in the last component preceded there by something other than dots
      gives an extension. */
  lemma SplitExtFindsDot(p: Path, i: int)
    requires RFind(p, SEP) < i < |p| && p[i] == EXTSEP && HasNonDot(p[RFind(p, SEP) + 1..i])
    ensures SplitExt(p).1 != []
  {
    var sep := RFind(p, SEP);
    var dot := RFind(p, EXTSEP);
    assert i <= dot;
    var k :| 0 <= k < |p[sep + 1..i]| && p[sep + 1..i][k] != EXTSEP;
    assert p[sep + 1..dot][k] == p[sep + 1..i][k];
  }

  /** An extension found by splitext starts at the last dot, which lies in the
      last component after something other than dots. */
  lemma SplitExtDot(p: Path)
    requires SplitExt(p).1 != []
    ensures var sep := RFind(p, SEP);
      var dot := RFind(p, EXTSEP);
      && sep < dot && p[dot] == EXTSEP && HasNonDot(p[sep + 1..dot])
      && |SplitExt(p).0| == dot
  {
  }

  /** splitext finds an extension exactly when the last component has a dot
      preceded by something other than dots, and the extension then starts at
      the last dot of the path. */
  lemma SplitExtAtLastDot(p: Path)
    ensures var sep := RFind(p, SEP);
      SplitExt(p).1 != [] <==>
        exists i :: sep < i < |p| && p[i] == EXTSEP && HasNonDot(p[sep + 1..i])
    ensures SplitExt(p).1 != [] ==> |SplitExt(p).0| == RFind(p, EXTSEP)
  {
    var sep := RFind(p, SEP);
    if exists i :: sep < i < |p| && p[i] == EXTSEP && HasNonDot(p[sep + 1..i]) {
      var i :| sep < i < |p| && p[i] == EXTSEP && HasNonDot(p[sep + 1..i]);
      SplitExtFindsDot(p, i);
    }
    if SplitExt(p).1 != [] {
      SplitExtDot(p);
    }
  }

  function LowerChar(c: char): char {
    if 'A' <= c <= 'Z' then (c as int + 32) as char else c
  }

  /** str.lower() restricted to ASCII letters. */
  function Lower(s: string): (r: string)
    ensures |r| == |s|
    ensures forall k :: 0 <= k < |s| ==> r[k] == LowerChar(s[k])
  {
    seq(|s|, k requires 0 <= k < |s| => LowerChar(s[k]))
  }

  /** Lower-casing twice is lower-casing once. */
  lemma LowerIdempotent(s: string)
    ensures Lower(Lower(s)) == Lower(s)
  {
    var l := Lower(s);
    forall k | 0 <= k < |l| ensures Lower(l)[k] == l[k] {
      assert l[k] == LowerChar(s[k]);
    }
  }

  /** Lower-casing leaves dots and separators where they were. */
  lemma LowerKeepsPunctuation(s: string, c: char)
    requires c == EXTSEP || c == SEP
    ensures forall k :: 0 <= k < |s| ==> (Lower(s)[k] == c <==> s[k] == c)
  {
    var l := Lower(s);
    forall k | 0 <= k < |s| ensures l[k] == c <==> s[k] == c {
      assert l[k] == LowerChar(s[k]);
    }
  }

  predicate IsDigit(c: char) {
    '0' <= c <= '9'
  }

  function DigitChar(d: nat): (c: char)
    requires d < 10
    ensures IsDigit(c) && c as int - '0' as int == d
  {
    ('0' as int + d) as char
  }

  /** str(n) for a non-negative integer. */
  function Decimal(n: nat): (r: string)
    ensures r != []
    ensures forall k :: 0 <= k < |r| ==> IsDigit(r[k])
  {
    if n < 10 then [DigitChar(n)] else Decimal(n / 10) + [DigitChar(n % 10)]
  }

  /** int(s) for a string of decimal digits. */
  function DecimalValue(s: string): int {
    if s == [] then 0 else DecimalValue(s[..|s| - 1]) * 10 + (s[|s| - 1] as int - '0' as int)
  }

  lemma {:induction false} DecimalRoundTrip(n: nat)
    ensures DecimalValue(Decimal(n)) == n
  {
    if n >= 10 {
      DecimalRoundTrip(n / 10);
      var s := Decimal(n);
      assert s[..|s| - 1] == Decimal(n / 10);
    }
  }

  /** Different counters render as different strings. */
  lemma DecimalInjective(m: nat, n: nat)
    requires Decimal(m) == Decimal(n)
    ensures m == n
  {
    DecimalRoundTrip(m);
    DecimalRoundTrip(n);
  }
}
