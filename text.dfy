/**
 * The Java string operations the interpreter relies on, stated over
 * sequences of characters: trim, replace, indexOf, contains, and the
 * decimal rendering of integers.
 */
module Text {
  import opened Wrappers

  /** System.lineSeparator(); the model fixes it to a single newline. */
  const LineSeparator: string := "\n"

  /** What println(s) writes to a stream. */
  function Ln(s: string): string
  {
    s + LineSeparator
  }

  predicate StartsWith(s: string, prefix: string)
  {
    |prefix| <= |s| && s[..|prefix|] == prefix
  }

  predicate EndsWith(s: string, suffix: string)
  {
    |suffix| <= |s| && s[|s| - |suffix|..] == suffix
  }

  /** A concatenation of three pieces starts with the first and ends with the last. */
  lemma ConcatAffixes(a: string, b: string, c: string)
    ensures StartsWith(a + b + c, a) && EndsWith(a + b + c, c)
  {
    var s := a + b + c;
    assert s[..|a|] == a;
    assert s[|s| - |c|..] == c;
  }

  /** The characters that String.trim() removes: every code unit up to U+0020. */
  predicate IsTrimmed(c: char)
  {
    c <= ' '
  }

  /** The first index at or after i whose character trim() keeps. */
  function SkipTrimmed(s: string, i: nat): (a: nat)
    requires i <= |s|
    ensures i <= a <= |s|
    ensures forall k :: i <= k < a ==> IsTrimmed(s[k])
    ensures a < |s| ==> !IsTrimmed(s[a])
    decreases |s| - i
  {
    if i < |s| && IsTrimmed(s[i]) then SkipTrimmed(s, i + 1) else i
  }

  /** The end of s[lo..j] once the trailing characters that trim() removes are dropped. */
  function SkipTrimmedBack(s: string, lo: nat, j: nat): (b: nat)
    requires lo <= j <= |s|
    ensures lo <= b <= j
    ensures forall k :: b <= k < j ==> IsTrimmed(s[k])
    ensures b > lo ==> !IsTrimmed(s[b - 1])
    decreases j
  {
    if j > lo && IsTrimmed(s[j - 1]) then SkipTrimmedBack(s, lo, j - 1) else j
  }

  /**
   * String.trim(): the piece of s between a leading and a trailing run of
   * removed characters, starting and ending with a kept one; empty exactly
   * when s holds nothing but removed characters.
   */
  function Trim(s: string): (r: string)
    ensures |r| <= |s|
    ensures r == [] || (!IsTrimmed(r[0]) && !IsTrimmed(r[|r| - 1]))
    ensures r == [] <==> forall k :: 0 <= k < |s| ==> IsTrimmed(s[k])
    ensures exists a, b :: (0 <= a <= b <= |s| && r == s[a..b] &&
                            (forall k :: 0 <= k < a ==> IsTrimmed(s[k])) && (forall k :: b <= k < |s| ==> IsTrimmed(s[k])))
  {
    var a := SkipTrimmed(s, 0);
    var b := SkipTrimmedBack(s, a, |s|);
    assert a == |s| ==> b == a;
    s[a..b]
  }

  /** Trim removes exactly the padding around a core that starts and ends with a kept character. */
  lemma TrimPadded(lead: string, core: string, trail: string)
    requires forall k :: 0 <= k < |lead| ==> IsTrimmed(lead[k])
    requires forall k :: 0 <= k < |trail| ==> IsTrimmed(trail[k])
    requires core != [] && !IsTrimmed(core[0]) && !IsTrimmed(core[|core| - 1])
    ensures Trim(lead + core + trail) == core
  {
    var s := lead + core + trail;
    assert s[|lead|] == core[0];
    var a := SkipTrimmed(s, 0);
    assert a == |lead|;
    var b := SkipTrimmedBack(s, a, |s|);
    assert s[|lead| + |core| - 1] == core[|core| - 1];
    assert b == |lead| + |core|;
    assert s[a..b] == core;
  }

  /** String.replace(a, b) for single characters: every a becomes b. */
  function ReplaceChar(s: string, a: char, b: char): (r: string)
    ensures |r| == |s|
    ensures forall k :: 0 <= k < |s| ==> r[k] == if s[k] == a then b else s[k]
  {
    seq(|s|, k requires 0 <= k < |s| => if s[k] == a then b else s[k])
  }

  /**
   * String.replace(c, "") for a single character: every occurrence of c is
   * dropped and every other character is kept, as often as it occurs and in
   * its order.
   */
  function RemoveChar(s: string, c: char): (r: string)
    ensures c !in r
    ensures forall x :: x in r <==> x in s && x != c
    ensures |r| <= |s|
    ensures forall x :: multiset(r)[x] == if x == c then 0 else multiset(s)[x]
    ensures IsSubseq(r, s)
  {
    if s == [] then []
    else
      assert s == [s[0]] + s[1..];
      if s[0] == c then RemoveChar(s[1..], c) else [s[0]] + RemoveChar(s[1..], c)
  }

  /** List.indexOf and String.indexOf: the first position of x in s, if any. */
  function IndexOf<T(==)>(s: seq<T>, x: T): (r: Option<nat>)
    ensures r.Some? ==> r.value < |s| && s[r.value] == x && x !in s[..r.value]
    ensures r.None? <==> x !in s
  {
    if s == [] then None
    else if s[0] == x then Some(0)
    else match IndexOf(s[1..], x)
      case Some(i) => Some(i + 1)
      case None => None
  }

  /** An element other than k in front of a list moves the first k one place on. */
  lemma IndexOfCons<T>(a: T, t: seq<T>, k: T)
    requires a != k && IndexOf(t, k).Some?
    ensures IndexOf([a] + t, k) == Some(IndexOf(t, k).value + 1)
  {
    assert ([a] + t)[1..] == t;
  }

  /** Two elements other than k in front of a list move the first k two places on. */
  lemma IndexOfAfterTwo<T>(a: T, b: T, t: seq<T>, k: T)
    requires a != k && b != k && IndexOf(t, k).Some?
    ensures IndexOf([a, b] + t, k) == Some(IndexOf(t, k).value + 2)
  {
    IndexOfCons(b, t, k);
    IndexOfCons(a, [b] + t, k);
    assert [a] + ([b] + t) == [a, b] + t;
  }

  /** String.contains: needle occurs in hay as a contiguous piece. */
  predicate ContainsPiece(hay: string, needle: string)
  {
    needle <= hay || (hay != [] && ContainsPiece(hay[1..], needle))
  }

  /** The characters Character.isWhitespace accepts. */
  predicate IsJavaWhitespace(c: char)
  {
    c == ' ' || ('\t' <= c <= '\r') || ('\U{1C}' <= c <= '\U{1F}') ||
    c == '\U{1680}' || ('\U{2000}' <= c <= '\U{2006}') || ('\U{2008}' <= c <= '\U{200A}') ||
    c == '\U{2028}' || c == '\U{2029}' || c == '\U{205F}' || c == '\U{3000}'
  }

  /** String.isBlank(): empty or whitespace only. */
  predicate IsBlank(s: string)
  {
    forall k :: 0 <= k < |s| ==> IsJavaWhitespace(s[k])
  }

  predicate IsDigit(c: char)
  {
    '0' <= c <= '9'
  }

  /** One or more decimal digits. */
  predicate AllDigits(s: string)
  {
    s != [] && forall k :: 0 <= k < |s| ==> IsDigit(s[k])
  }

  function DigitChar(d: nat): (c: char)
    requires d < 10
    ensures IsDigit(c) && c as int - '0' as int == d
  {
    ('0' as int + d) as char
  }

  /** Integer.toString for a non-negative number: decimal digits, no leading zero. */
  function NatToString(n: nat): (r: string)
    ensures r != []
    ensures forall k :: 0 <= k < |r| ==> IsDigit(r[k])
    ensures |r| > 1 ==> r[0] != '0'
    decreases n
  {
    if n < 10 then [DigitChar(n)] else NatToString(n / 10) + [DigitChar(n % 10)]
  }

  /** Integer.toString and Long.toString. */
  function IntToString(i: int): string
  {
    if i < 0 then "-" + NatToString(-i) else NatToString(i)
  }

  /** The number a string of decimal digits denotes. */
  function DigitValue(c: char): (d: nat)
    requires IsDigit(c)
    ensures d < 10
  {
    c as int - '0' as int
  }

  function DigitsValue(s: string): nat
    requires forall k :: 0 <= k < |s| ==> IsDigit(s[k])
  {
    if s == [] then 0 else 10 * DigitsValue(s[..|s| - 1]) + DigitValue(s[|s| - 1])
  }

  /** Reading back the decimal rendering of n gives n. */
  lemma {:induction false} NatToStringValue(n: nat)
    ensures DigitsValue(NatToString(n)) == n
    decreases n
  {
    if n >= 10 {
      NatToStringValue(n / 10);
      var s := NatToString(n);
      assert s[..|s| - 1] == NatToString(n / 10);
    }
  }

  /** Spaces to the width w, as the conversion %-ws pads its argument. */
  function PadRight(s: string, w: nat): (r: string)
    ensures StartsWith(r, s)
    ensures |r| == if |s| < w then w else |s|
    ensures forall k :: |s| <= k < |r| ==> r[k] == ' '
  {
    if |s| < w then s + seq(w - |s|, _ => ' ') else s
  }

  /** Elements joined by a separator. */
  function Join(parts: seq<string>, sep: string): string
  {
    if parts == [] then "" else if |parts| == 1 then parts[0] else parts[0] + sep + Join(parts[1..], sep)
  }

  /** Arrays.toString of a String[]: "[a, b]", the elements separated by a comma and a space inside brackets. */
  function ArrayToString(parts: seq<string>): (r: string)
    ensures StartsWith(r, "[") && EndsWith(r, "]")
    ensures |r| >= 2 && r[1..|r| - 1] == Join(parts, ", ")
    ensures parts == [] ==> r == "[]"
  {
    "[" + Join(parts, ", ") + "]"
  }

  /** The concatenation of a sequence of strings. */
  function Concat(parts: seq<string>): string
  {
    if parts == [] then "" else parts[0] + Concat(parts[1..])
  }

  lemma {:induction false} ConcatAppend(parts: seq<string>, last: string)
    ensures Concat(parts + [last]) == Concat(parts) + last
  {
    if parts != [] {
      assert (parts + [last])[1..] == parts[1..] + [last];
      ConcatAppend(parts[1..], last);
    }
  }

  /** a is a subsequence of b: b with some elements dropped, the rest in their order. */
  predicate IsSubseq<T(==)>(a: seq<T>, b: seq<T>)
    decreases |b|
  {
    a == [] || (b != [] && ((a[0] == b[0] && IsSubseq(a[1..], b[1..])) || IsSubseq(a, b[1..])))
  }

  lemma {:induction false} SubseqRefl<T>(s: seq<T>)
    ensures IsSubseq(s, s)
  {
    if s != [] {
      SubseqRefl(s[1..]);
    }
  }

  lemma {:induction false} SubseqTrans<T>(a: seq<T>, b: seq<T>, c: seq<T>)
    requires IsSubseq(a, b) && IsSubseq(b, c)
    ensures IsSubseq(a, c)
    decreases |c|
  {
    if a != [] {
      if a[0] == b[0] && IsSubseq(a[1..], b[1..]) {
        if b[0] == c[0] && IsSubseq(b[1..], c[1..]) {
          SubseqTrans(a[1..], b[1..], c[1..]);
        } else {
          SubseqTrans(a, b, c[1..]);
        }
      } else {
        if b[0] == c[0] && IsSubseq(b[1..], c[1..]) {
          SubseqTrans(a, b[1..], c[1..]);
        } else {
          SubseqTrans(a, b, c[1..]);
        }
      }
    }
  }

  /** Every element of a subsequence is an element of the whole. */
  lemma {:induction false} SubseqMembers<T>(a: seq<T>, b: seq<T>, x: T)
    requires IsSubseq(a, b) && x in a
    ensures x in b
    decreases |b|
  {
    if a[0] == b[0] && IsSubseq(a[1..], b[1..]) {
      if x != a[0] {
        assert x in a[1..];
        SubseqMembers(a[1..], b[1..], x);
      }
    } else {
      SubseqMembers(a, b[1..], x);
    }
  }

  /** Cutting out the slice s[k..j] leaves a subsequence of s. */
  lemma {:induction false} SubseqCut<T>(s: seq<T>, k: nat, j: nat)
    requires k <= j <= |s|
    ensures IsSubseq(s[..k] + s[j..], s)
    decreases k, j
  {
    if k == 0 {
      assert s[..k] + s[j..] == s[j..];
      if j == 0 {
        SubseqRefl(s);
      } else {
        SubseqCut(s[1..], 0, j - 1);
        assert s[1..][..0] + s[1..][j - 1..] == s[j..];
      }
    } else {
      SubseqCut(s[1..], k - 1, j - 1);
      var a := s[..k] + s[j..];
      assert a[0] == s[0];
      assert a[1..] == s[1..][..k - 1] + s[1..][j - 1..];
    }
  }
}
