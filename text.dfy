/**
 * The parts of Rust's `str` API that the backend relies on, over `string` (a sequence of
 * Unicode scalar values, as Rust's `chars()` sees a `str`). Byte offsets returned by
 * `find`/`rfind` become character offsets here, which slice the same text.
 */
module Text {
  import opened Wrappers

  /** `char::is_whitespace`: the Unicode White_Space property, which is what `str::trim` strips. */
  predicate IsWhitespace(c: char) {
    var n := c as int;
    (0x09 <= n <= 0x0D) || n == 0x20 || n == 0x85 || n == 0xA0 || n == 0x1680
    || (0x2000 <= n <= 0x200A) || n == 0x2028 || n == 0x2029 || n == 0x202F
    || n == 0x205F || n == 0x3000
  }

  /** `str::trim_start` */
  function TrimStart(s: string): (r: string)
    ensures |r| <= |s| && r == s[|s| - |r|..]
    ensures r == [] || !IsWhitespace(r[0])
    ensures forall i :: 0 <= i < |s| - |r| ==> IsWhitespace(s[i])
  {
    if |s| > 0 && IsWhitespace(s[0]) then TrimStart(s[1..]) else s
  }

  /** `str::trim_end` */
  function TrimEnd(s: string): (r: string)
    ensures |r| <= |s| && r == s[..|r|]
    ensures r == [] || !IsWhitespace(r[|r| - 1])
    ensures forall i :: |r| <= i < |s| ==> IsWhitespace(s[i])
  {
    if |s| > 0 && IsWhitespace(s[|s| - 1]) then TrimEnd(s[..|s| - 1]) else s
  }

  /** `str::trim` */
  function Trim(s: string): string {
    TrimEnd(TrimStart(s))
  }

  /** Trimming is the identity on text whose ends are not whitespace. */
  lemma TrimUnchanged(s: string)
    requires s == [] || (!IsWhitespace(s[0]) && !IsWhitespace(s[|s| - 1]))
    ensures Trim(s) == s
  {
  }

  /** `str::trim_start_matches(c)` for a single character */
  function TrimStartMatches(s: string, c: char): (r: string)
    ensures |r| <= |s| && r == s[|s| - |r|..]
    ensures r == [] || r[0] != c
    ensures forall i :: 0 <= i < |s| - |r| ==> s[i] == c
  {
    if |s| > 0 && s[0] == c then TrimStartMatches(s[1..], c) else s
  }

  /** `str::trim_end_matches(c)` for a single character */
  function TrimEndMatches(s: string, c: char): (r: string)
    ensures |r| <= |s| && r == s[..|r|]
    ensures r == [] || r[|r| - 1] != c
    ensures forall i :: |r| <= i < |s| ==> s[i] == c
  {
    if |s| > 0 && s[|s| - 1] == c then TrimEndMatches(s[..|s| - 1], c) else s
  }

  /** `str::trim_matches(c)` for a single character */
  function TrimMatches(s: string, c: char): (r: string)
    ensures r == [] || (r[0] != c && r[|r| - 1] != c)
  {
    TrimEndMatches(TrimStartMatches(s, c), c)
  }

  predicate StartsWith(s: string, prefix: string) {
    |prefix| <= |s| && s[..|prefix|] == prefix
  }

  predicate EndsWith(s: string, suffix: string) {
    |suffix| <= |s| && s[|s| - |suffix|..] == suffix
  }

  /** `str::find(c)`: the first position of `c`. */
  function IndexOf(s: string, c: char): (r: Option<nat>)
    ensures r.Some? ==> r.value < |s| && s[r.value] == c && c !in s[..r.value]
    ensures r.None? <==> c !in s
  {
    if |s| == 0 then None
    else if s[0] == c then Some(0)
    else
      match IndexOf(s[1..], c)
      case None => None
      case Some(i) => assert s[..i + 1] == [s[0]] + s[1..][..i]; Some(i + 1)
  }

  /** `str::rfind(c)`: the last position of `c`. */
  function LastIndexOf(s: string, c: char): (r: Option<nat>)
    ensures r.Some? ==> r.value < |s| && s[r.value] == c && c !in s[r.value + 1..]
    ensures r.None? <==> c !in s
  {
    if |s| == 0 then None
    else if s[|s| - 1] == c then Some(|s| - 1)
    else
      match LastIndexOf(s[..|s| - 1], c)
      case None => assert s == s[..|s| - 1] + [s[|s| - 1]]; None
      case Some(i) =>
        assert s[i + 1..] == s[..|s| - 1][i + 1..] + [s[|s| - 1]];
        Some(i)
  }

  /** `s.split(c).next()`: the text before the first `c` (all of it when there is none). */
  function BeforeFirst(s: string, c: char): (r: string)
    ensures StartsWith(s, r) && c !in r
    ensures |r| < |s| ==> s[|r|] == c
  {
    match IndexOf(s, c)
    case None => s
    case Some(i) => s[..i]
  }

  /** `s.split(c).last()`: the text after the last `c` (all of it when there is none). */
  function AfterLast(s: string, c: char): (r: string)
    ensures EndsWith(s, r) && c !in r
    ensures |r| < |s| ==> s[|s| - |r| - 1] == c
  {
    match LastIndexOf(s, c)
    case None => s
    case Some(i) => s[i + 1..]
  }

  /** `char::to_ascii_lowercase` */
  function AsciiLower(c: char): char {
    if 'A' <= c <= 'Z' then (c as int + 32) as char else c
  }

  /** `str::to_ascii_lowercase` */
  function AsciiLowerStr(s: string): (r: string)
    ensures |r| == |s|
    ensures forall i :: 0 <= i < |s| ==> r[i] == AsciiLower(s[i])
  {
    seq(|s|, i requires 0 <= i < |s| => AsciiLower(s[i]))
  }

  /** Lower-casing does not create or remove whitespace, so it commutes with `trim`. */
  lemma {:induction false} TrimAsciiLower(s: string)
    ensures Trim(AsciiLowerStr(s)) == AsciiLowerStr(Trim(s))
  {
    TrimStartAsciiLower(s);
    TrimEndAsciiLower(TrimStart(s));
  }

  lemma {:induction false} TrimStartAsciiLower(s: string)
    ensures TrimStart(AsciiLowerStr(s)) == AsciiLowerStr(TrimStart(s))
    decreases |s|
  {
    if |s| > 0 && IsWhitespace(s[0]) {
      assert AsciiLowerStr(s)[1..] == AsciiLowerStr(s[1..]);
      TrimStartAsciiLower(s[1..]);
    }
  }

  lemma {:induction false} TrimEndAsciiLower(s: string)
    ensures TrimEnd(AsciiLowerStr(s)) == AsciiLowerStr(TrimEnd(s))
    decreases |s|
  {
    if |s| > 0 && IsWhitespace(s[|s| - 1]) {
      assert AsciiLowerStr(s)[..|s| - 1] == AsciiLowerStr(s[..|s| - 1]);
      TrimEndAsciiLower(s[..|s| - 1]);
    }
  }

  /** Number of occurrences of `c` in `s`. */
  function Count(s: string, c: char): nat {
    if |s| == 0 then 0 else (if s[0] == c then 1 else 0) + Count(s[1..], c)
  }

  lemma {:induction false} CountConcat(a: string, b: string, c: char)
    ensures Count(a + b, c) == Count(a, c) + Count(b, c)
    decreases |a|
  {
    if |a| > 0 {
      assert (a + b)[1..] == a[1..] + b;
      CountConcat(a[1..], b, c);
    } else {
      assert a + b == b;
    }
  }

  lemma {:induction false} CountAbsent(s: string, c: char)
    requires c !in s
    ensures Count(s, c) == 0
    decreases |s|
  {
    if |s| > 0 {
      CountAbsent(s[1..], c);
    }
  }

  /** `[T]::join(sep)` on a list of strings. */
  function Join(parts: seq<string>, sep: string): string {
    if |parts| == 0 then []
    else if |parts| == 1 then parts[0]
    else parts[0] + sep + Join(parts[1..], sep)
  }

  /**
   * `Ord for str`: lexicographic comparison. Rust compares the UTF-8 bytes, and UTF-8 byte
   * order is code-point order, so comparing characters gives the same answer.
   */
  predicate StrLe(a: string, b: string) {
    |a| == 0 || (|b| > 0 && (a[0] < b[0] || (a[0] == b[0] && StrLe(a[1..], b[1..]))))
  }

  lemma {:induction false} StrLeTotal(a: string, b: string)
    ensures StrLe(a, b) || StrLe(b, a)
    decreases |a|
  {
    if |a| > 0 && |b| > 0 && a[0] == b[0] {
      StrLeTotal(a[1..], b[1..]);
    }
  }

  lemma {:induction false} StrLeTransitive(a: string, b: string, c: string)
    requires StrLe(a, b) && StrLe(b, c)
    ensures StrLe(a, c)
    decreases |a|
  {
    if |a| > 0 && a[0] == b[0] && b[0] == c[0] {
      StrLeTransitive(a[1..], b[1..], c[1..]);
    }
  }

  lemma {:induction false} StrLeAntisymmetric(a: string, b: string)
    requires StrLe(a, b) && StrLe(b, a)
    ensures a == b
    decreases |a|
  {
    if |a| > 0 {
      StrLeAntisymmetric(a[1..], b[1..]);
      assert a == [a[0]] + a[1..] && b == [b[0]] + b[1..];
    }
  }

  /** `format!("{}", n)` for a non-negative integer. */
  function Decimal(n: nat): (r: string)
    ensures |r| > 0
    ensures forall i :: 0 <= i < |r| ==> '0' <= r[i] <= '9'
  {
    if n < 10 then [('0' as int + n) as char]
    else Decimal(n / 10) + [('0' as int + n % 10) as char]
  }

  /** The text after the last `c` of `pre + [c] + leaf` is `leaf` when `leaf` has no `c`. */
  lemma AfterLastOfSuffix(pre: string, c: char, leaf: string)
    requires c !in leaf
    ensures AfterLast(pre + [c] + leaf, c) == leaf
  {
    var s := pre + [c] + leaf;
    var r := AfterLast(s, c);
    assert s[|pre|] == c;
    assert forall k :: |pre| < k < |s| ==> s[k] == leaf[k - |pre| - 1];
    SuffixChars(s, r);
    assert |r| == |leaf|;
  }

  /** Every character of the tail that a suffix covers occurs in the suffix. */
  lemma SuffixChars(s: string, r: string)
    requires EndsWith(s, r)
    ensures forall j :: |s| - |r| <= j < |s| ==> s[j] in r
  {
    forall j | |s| - |r| <= j < |s| ensures s[j] in r {
      assert s[j] == r[j - (|s| - |r|)];
    }
  }

  lemma JoinTwo(a: string, b: string, sep: string)
    ensures Join([a, b], sep) == a + sep + b
  {
    assert [a, b][1..] == [b];
  }

  lemma JoinThree(a: string, b: string, c: string, sep: string)
    ensures Join([a, b, c], sep) == a + sep + b + sep + c
  {
    assert [a, b, c][1..] == [b, c];
    JoinTwo(b, c, sep);
  }

  /** `Path::join`: an absolute name replaces the base; otherwise one separator goes between. */
  function JoinPath(dir: string, name: string): (p: string)
    ensures EndsWith(p, name)
    ensures (|name| == 0 || name[0] != '/') ==> StartsWith(p, dir)
  {
    if |name| > 0 && name[0] == '/' then name
    else if |dir| == 0 || dir[|dir| - 1] == '/' then dir + name
    else dir + "/" + name
  }

  /** Under one directory, distinct relative names give distinct paths. */
  lemma JoinPathInjective(dir: string, n1: string, n2: string)
    requires |n1| > 0 && n1[0] != '/' && |n2| > 0 && n2[0] != '/'
    ensures JoinPath(dir, n1) == JoinPath(dir, n2) <==> n1 == n2
  {
    if JoinPath(dir, n1) == JoinPath(dir, n2) {
      var pre := if |dir| == 0 || dir[|dir| - 1] == '/' then dir else dir + "/";
      assert JoinPath(dir, n1) == pre + n1 && JoinPath(dir, n2) == pre + n2;
      assert n1 == (pre + n1)[|pre|..];
      assert n2 == (pre + n2)[|pre|..];
    }
  }
}
