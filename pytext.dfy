/**
 * The Python `str` operations both deduplicators rely on, over `seq<char>`:
 * whitespace as `str.isspace()` and the regular-expression class `\s` see it,
 * `strip`, `splitlines`, `split`, `rsplit`, substring tests and clamped slicing.
 */
module PyText {

  /** `c.isspace()`: the characters `str.strip()` removes and `\s` matches on a `str` pattern. */
  predicate IsSpace(c: char) {
    var n := c as int;
    (9 <= n <= 13) || (28 <= n <= 32) || n == 0x85 || n == 0xA0 || n == 0x1680
    || (0x2000 <= n <= 0x200A) || n == 0x2028 || n == 0x2029 || n == 0x202F
    || n == 0x205F || n == 0x3000
  }

  /** The line boundaries of `str.splitlines()` (`\r\n` is handled in SplitLines). */
  predicate IsLineBreak(c: char) {
    var n := c as int;
    (10 <= n <= 13) || (28 <= n <= 30) || n == 0x85 || n == 0x2028 || n == 0x2029
  }

  predicate IsDigit(c: char) {
    '0' <= c <= '9'
  }

  predicate AllDigits(s: string) {
    forall i :: 0 <= i < |s| ==> IsDigit(s[i])
  }

  predicate AllSpace(s: string) {
    forall i :: 0 <= i < |s| ==> IsSpace(s[i])
  }

  /** `s.startswith(p)`. */
  predicate StartsWith(s: string, p: string) {
    p <= s
  }

  /** `s.endswith(p)`. */
  predicate EndsWith(s: string, p: string) {
    |p| <= |s| && s[|s| - |p|..] == p
  }

  /** `sub in s`. */
  predicate Contains(s: string, sub: string)
    decreases |s|
  {
    StartsWith(s, sub) || (s != [] && Contains(s[1..], sub))
  }

  /** `s.lstrip()`: drops the leading whitespace and nothing else. */
  function LStrip(s: string): (r: string)
    ensures |r| <= |s| && r == s[|s| - |r|..]
    ensures r == [] || !IsSpace(r[0])
    ensures AllSpace(s[..|s| - |r|])
    decreases |s|
  {
    if s != [] && IsSpace(s[0]) then
      var r := LStrip(s[1..]);
      assert s[..|s| - |r|] == [s[0]] + s[1..][..|s| - 1 - |r|];
      r
    else s
  }

  /** `s.rstrip()`: drops the trailing whitespace and nothing else. */
  function RStrip(s: string): (r: string)
    ensures |r| <= |s| && r == s[..|r|]
    ensures r == [] || !IsSpace(r[|r| - 1])
    ensures AllSpace(s[|r|..])
    decreases |s|
  {
    if s != [] && IsSpace(s[|s| - 1]) then
      var r := RStrip(s[..|s| - 1]);
      assert s[|r|..] == s[..|s| - 1][|r|..] + [s[|s| - 1]];
      r
    else s
  }

  /** r sits in s at position p with only whitespace before and after it. */
  predicate Margins(s: string, r: string, p: nat) {
    p + |r| <= |s| && s[p..p + |r|] == r && AllSpace(s[..p]) && AllSpace(s[p + |r|..])
  }

  /** A prefix r of a suffix l of s, with whitespace in front of l and after r in l,
      has whitespace margins in s; if l starts and r ends with a non-space
      character, r does at both ends. */
  lemma MarginsOfParts(s: string, l: string, r: string)
    requires |l| <= |s| && l == s[|s| - |l|..] && AllSpace(s[..|s| - |l|])
    requires |r| <= |l| && r == l[..|r|] && AllSpace(l[|r|..])
    requires l == [] || !IsSpace(l[0])
    requires r == [] || !IsSpace(r[|r| - 1])
    ensures Margins(s, r, |s| - |l|)
    ensures r == [] || (!IsSpace(r[0]) && !IsSpace(r[|r| - 1]))
  {
    var p := |s| - |l|;
    assert s[p..p + |r|] == l[..|r|];
    assert s[p + |r|..] == l[|r|..];
    assert r != [] ==> r[0] == l[0];
  }

  /** `s.strip()`: s without its leading and trailing whitespace. */
  function Strip(s: string): (r: string)
    ensures r == [] || (!IsSpace(r[0]) && !IsSpace(r[|r| - 1]))
    ensures Margins(s, r, |s| - |LStrip(s)|)
  {
    var l := LStrip(s);
    var r := RStrip(l);
    MarginsOfParts(s, l, r);
    r
  }

  /** A string strips to nothing exactly when every character of it is whitespace. */
  lemma StripEmptyIff(s: string)
    ensures Strip(s) == [] <==> AllSpace(s)
  {
    var l := LStrip(s);
    if Strip(s) == [] {
      assert s == s[..|s| - |l|] + l;
      assert AllSpace(l[|RStrip(l)|..]);
    }
  }

  /** When a string starts with a non-space character and has a non-space character
      at position k, stripping it keeps its first k + 1 characters. */
  lemma StripKeepsPrefix(s: string, k: nat)
    requires k < |s| && !IsSpace(s[0]) && !IsSpace(s[k])
    ensures k < |Strip(s)| && Strip(s)[..k + 1] == s[..k + 1]
  {
    assert LStrip(s) == s;
  }

  /** Index of the first line boundary of s, or |s| when there is none. */
  function LineEnd(s: string): (i: nat)
    ensures i <= |s|
    ensures i < |s| ==> IsLineBreak(s[i])
    ensures forall j :: 0 <= j < i ==> !IsLineBreak(s[j])
    decreases |s|
  {
    if s == [] || IsLineBreak(s[0]) then 0 else 1 + LineEnd(s[1..])
  }

  /** Where the line that ends at the boundary s[i] is followed by the next one:
      `\r\n` is one terminator. */
  function NextLine(s: string, i: nat): (next: nat)
    requires i < |s|
    ensures i < next <= |s|
  {
    if s[i] == '\r' && i + 1 < |s| && s[i + 1] == '\n' then i + 2 else i + 1
  }

  /** A terminator `splitlines` recognises: `\r\n` or one line-boundary character. */
  predicate IsTerminator(t: string) {
    t == "\r\n" || (|t| == 1 && IsLineBreak(t[0]))
  }

  /** What `s.splitlines(keepends=True)` keeps beyond each line: its terminator,
      or nothing after a last line that has none. */
  function LineEnds(s: string): (ends: seq<string>)
    ensures |ends| == |SplitLines(s)|
    ensures forall k :: 0 <= k < |ends| ==> IsTerminator(ends[k]) || (k == |ends| - 1 && ends[k] == [])
    ensures ends != [] && ends[|ends| - 1] == [] ==> !IsLineBreak(s[|s| - 1])
    decreases |s|
  {
    if s == [] then []
    else
      var i := LineEnd(s);
      if i == |s| then [[]]
      else
        var next := NextLine(s, i);
        assert next == i + 2 ==> s[i..next] == "\r\n";
        var rest := LineEnds(s[next..]);
        assert rest != [] ==> s[next..][|s[next..]| - 1] == s[|s| - 1];
        [s[i..next]] + rest
  }

  /** The lines followed each by its terminator. */
  function Rejoin(lines: seq<string>, ends: seq<string>): string
    requires |lines| == |ends|
    decreases |lines|
  {
    if lines == [] then [] else lines[0] + ends[0] + Rejoin(lines[1..], ends[1..])
  }

  /** `s.splitlines()`: the lines without their terminators; a terminator at the very
      end opens no further line, and `\r\n` is one terminator. */
  function SplitLines(s: string): (lines: seq<string>)
    ensures s == [] <==> lines == []
    ensures forall k, j :: 0 <= k < |lines| && 0 <= j < |lines[k]| ==> !IsLineBreak(lines[k][j])
    decreases |s|
  {
    if s == [] then []
    else
      var i := LineEnd(s);
      if i == |s| then [s]
      else [s[..i]] + SplitLines(s[NextLine(s, i)..])
  }

  /** s cut at two positions is the three pieces in order. */
  lemma ThreePieces(s: string, i: nat, j: nat)
    requires i <= j <= |s|
    ensures s == s[..i] + s[i..j] + s[j..]
  {
    assert s[..i] + s[i..j] == s[..j];
  }

  /** The lines of s, each followed by its terminator, give s back. */
  lemma {:induction false} SplitLinesRejoin(s: string)
    ensures Rejoin(SplitLines(s), LineEnds(s)) == s
    decreases |s|
  {
    if s != [] {
      var i := LineEnd(s);
      if i == |s| {
        assert Rejoin([s], [[]]) == s + [] + Rejoin([], []);
      } else {
        var next := NextLine(s, i);
        var t := s[next..];
        SplitLinesRejoin(t);
        var lines, ends := SplitLines(s), LineEnds(s);
        assert lines[1..] == SplitLines(t) && ends[1..] == LineEnds(t);
        assert Rejoin(lines, ends) == s[..i] + s[i..next] + Rejoin(SplitLines(t), LineEnds(t));
        ThreePieces(s, i, next);
      }
    }
  }

  /** A `\r` ends a line by itself only when no `\n` follows it. */
  lemma {:induction false} SplitLinesCrLf(s: string)
    ensures var lines, ends := SplitLines(s), LineEnds(s);
      forall k :: 0 <= k < |ends| - 1 && ends[k] == "\r" ==> !StartsWith(lines[k + 1] + ends[k + 1], "\n")
    decreases |s|
  {
    if s != [] {
      var i := LineEnd(s);
      if i < |s| {
        var next := NextLine(s, i);
        var t := s[next..];
        SplitLinesCrLf(t);
        var lines, ends := SplitLines(s), LineEnds(s);
        assert lines[1..] == SplitLines(t) && ends[1..] == LineEnds(t);
        if ends[0] == "\r" && 1 < |ends| {
          var l1, e1 := SplitLines(t)[0], LineEnds(t)[0];
          assert Rejoin(SplitLines(t), LineEnds(t)) == l1 + e1 + Rejoin(SplitLines(t)[1..], LineEnds(t)[1..]);
          assert l1 + e1 != [];
          assert (l1 + e1)[0] == t[0] == s[i + 1];
        }
      }
    }
  }

  /** Index of the first occurrence of c in s, or |s| when there is none. */
  function Find(s: string, c: char): (i: nat)
    ensures i <= |s|
    ensures i < |s| ==> s[i] == c
    ensures forall j :: 0 <= j < i ==> s[j] != c
    ensures i == |s| <==> c !in s
    decreases |s|
  {
    if s == [] || s[0] == c then 0 else 1 + Find(s[1..], c)
  }

  /** A character preceded only by other characters is the first occurrence. */
  lemma FindAt(s: string, c: char, i: nat)
    requires i < |s| && s[i] == c && forall j :: 0 <= j < i ==> s[j] != c
    ensures Find(s, c) == i
  {
  }

  /** `s.split(c, 1)` for a one-character separator. */
  function SplitOnce(s: string, c: char): (parts: seq<string>)
    ensures c !in s ==> parts == [s]
    ensures c in s ==> |parts| == 2 && c !in parts[0] && parts[0] + [c] + parts[1] == s
  {
    var i := Find(s, c);
    if i == |s| then [s] else [s[..i], s[i + 1..]]
  }

  /** The inverse of `split`: the parts with c between neighbours. */
  function Join(parts: seq<string>, c: char): string
    decreases |parts|
  {
    if parts == [] then []
    else if |parts| == 1 then parts[0]
    else parts[0] + [c] + Join(parts[1..], c)
  }

  /** `s.split(c)` for a one-character separator: the maximal c-free pieces. */
  function Split(s: string, c: char): (parts: seq<string>)
    ensures |parts| >= 1
    ensures forall k :: 0 <= k < |parts| ==> c !in parts[k]
    ensures Join(parts, c) == s
    ensures c in s <==> |parts| >= 2
    decreases |s|
  {
    var i := Find(s, c);
    if i == |s| then [s]
    else
      var rest := Split(s[i + 1..], c);
      assert s == s[..i] + [c] + s[i + 1..];
      [s[..i]] + rest
  }

  /** Index of the last occurrence of c in s, or -1 when there is none. */
  function RFind(s: string, c: char): (i: int)
    ensures -1 <= i < |s|
    ensures i >= 0 ==> s[i] == c
    ensures forall j :: i < j < |s| ==> s[j] != c
    decreases |s|
  {
    if s == [] then -1
    else if s[|s| - 1] == c then |s| - 1
    else RFind(s[..|s| - 1], c)
  }

  /** `s.rsplit(c, n)[0]`: what is left in front of the n-th occurrence of c counted
      from the end (all of s when c occurs fewer times, up to its first occurrence). */
  function RSplitHead(s: string, c: char, n: nat): (r: string)
    ensures r <= s
    decreases n
  {
    if n == 0 then s
    else
      var i := RFind(s, c);
      if i < 0 then s else RSplitHead(s[..i], c, n - 1)
  }

  /** The first occurrence of c in s is found in any prefix that ends at an occurrence. */
  lemma FindInPrefix(s: string, c: char, i: nat)
    requires i < |s| && s[i] == c
    ensures Find(s[..i], c) == Find(s, c)
  {
    var f := Find(s[..i], c);
    if f < i {
      FindAt(s, c, f);
    } else {
      FindAt(s, c, i);
    }
  }

  /** Cutting s at its last occurrence of c leaves all other occurrences in front. */
  lemma CountAtLast(s: string, c: char)
    requires RFind(s, c) >= 0
    ensures var i := RFind(s, c);
      multiset(s[i..])[c] == 1 && multiset(s)[c] == multiset(s[..i])[c] + 1
  {
    var i := RFind(s, c);
    assert s == s[..i] + s[i..];
    assert s[i..] == [c] + s[i + 1..];
    assert c !in s[i + 1..];
  }

  /** With at least n occurrences of c, `rsplit(c, n)[0]` ends right before the
      n-th one from the end: the part cut off starts with c and holds exactly n. */
  lemma {:induction false} RSplitHeadCut(s: string, c: char, n: nat)
    requires 1 <= n <= multiset(s)[c]
    ensures var r := RSplitHead(s, c, n);
      |r| < |s| && s[|r|] == c && multiset(s[|r|..])[c] == n
    decreases n
  {
    var i := RFind(s, c);
    if i < 0 {
      assert false;
    } else {
      var t := s[..i];
      CountAtLast(s, c);
      var r := RSplitHead(t, c, n - 1);
      assert RSplitHead(s, c, n) == r;
      if n > 1 {
        RSplitHeadCut(t, c, n - 1);
        assert s[|r|..] == t[|r|..] + s[i..];
      }
    }
  }

  /** One step of `rsplit` from the right. */
  lemma RSplitHeadStep(s: string, c: char, n: nat)
    requires n >= 1 && RFind(s, c) >= 0
    ensures RSplitHead(s, c, n) == RSplitHead(s[..RFind(s, c)], c, n - 1)
  {
  }

  /** A prefix of a prefix of s is a prefix of s. */
  lemma PrefixOfPrefix(s: string, i: nat, f: nat)
    requires f <= i <= |s|
    ensures s[..i][..f] == s[..f]
  {
  }

  /** With fewer than n occurrences of c, `rsplit(c, n)[0]` is everything before
      the first one. */
  lemma {:induction false} RSplitHeadFew(s: string, c: char, n: nat)
    requires multiset(s)[c] < n
    ensures RSplitHead(s, c, n) == s[..Find(s, c)]
    decreases n
  {
    var i := RFind(s, c);
    if i < 0 {
      assert c !in s;
      assert s[..|s|] == s;
    } else {
      var t := s[..i];
      CountAtLast(s, c);
      RSplitHeadStep(s, c, n);
      RSplitHeadFew(t, c, n - 1);
      FindInPrefix(s, c, i);
      PrefixOfPrefix(s, i, Find(s, c));
    }
  }

  /** `s[i:j]` for non-negative bounds: out-of-range bounds are clamped. */
  function Slice(s: string, i: nat, j: nat): (r: string)
    ensures |r| == if j <= i || |s| <= i then 0 else (if j < |s| then j else |s|) - i
    ensures forall k :: 0 <= k < |r| ==> i + k < |s| && r[k] == s[i + k]
  {
    var lo := if i < |s| then i else |s|;
    var hi := if j < |s| then j else |s|;
    if hi <= lo then [] else s[lo..hi]
  }
}
