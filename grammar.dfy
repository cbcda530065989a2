/**
 * The interpreter's grammar constants: keywords, comment symbols, the
 * token pattern, the explicit-literal pattern and the Java floating-point
 * literal pattern, each written as a hand-made recogniser over characters.
 */
module Grammar {
  import opened Wrappers
  import opened Text

  const PrintKeyword: string := "print"
  const HelpKeyword: string := "help"
  const ExitKeywords: seq<string> := ["q", "Q", "exit"]
  const CommentSymbols: seq<char> := ['#', '!']

  /** Column widths of the help row format "%-30s%-20s%-15s%s%n". */
  const KeysWidth: nat := 30
  const TypeWidth: nat := 20
  const RequiredWidth: nat := 15

  predicate IsExitKeyword(s: string)
  {
    s in ExitKeywords
  }

  predicate IsCommentSymbol(c: char)
  {
    c in CommentSymbols
  }

  /** The regex class \s. */
  predicate IsRegexSpace(c: char)
  {
    c == ' ' || c == '\t' || c == '\n' || c == '\U{B}' || c == '\U{C}' || c == '\r'
  }

  /** The characters the regex "." does not match. */
  predicate IsLineTerminator(c: char)
  {
    c == '\n' || c == '\r' || c == '\U{85}' || c == '\U{2028}' || c == '\U{2029}'
  }

  /** No line terminator strictly between positions p and q. */
  predicate NoTerminatorBetween(s: string, p: nat, q: nat)
    requires q <= |s|
  {
    forall j :: p < j < q ==> !IsLineTerminator(s[j])
  }

  // ---------------------------------------------------------------------
  // strRegex "'(.*?)'", matched against a whole string

  /** A quoted literal: starts and ends with a single quote, length at least two, no line terminator inside. */
  predicate IsExplicitLiteral(s: string)
  {
    |s| >= 2 && s[0] == '\'' && s[|s| - 1] == '\'' && NoTerminatorBetween(s, 0, |s| - 1)
  }

  // ---------------------------------------------------------------------
  // doubleQuoteRegex "([^\"]\\S*|\".+?\")\\s*", searched with Matcher.find

  /** Where group 1 and the whole match of one regex match end. */
  datatype TokenMatch = TokenMatch(start: nat, groupEnd: nat, matchEnd: nat)

  /** The end of the maximal run of non-\s characters from i. */
  function NonSpaceEnd(s: string, i: nat): (e: nat)
    requires i <= |s|
    ensures i <= e <= |s|
    ensures forall k :: i <= k < e ==> !IsRegexSpace(s[k])
    ensures e < |s| ==> IsRegexSpace(s[e])
    decreases |s| - i
  {
    if i < |s| && !IsRegexSpace(s[i]) then NonSpaceEnd(s, i + 1) else i
  }

  /** The end of the maximal run of \s characters from i. */
  function SpaceEnd(s: string, i: nat): (e: nat)
    requires i <= |s|
    ensures i <= e <= |s|
    ensures forall k :: i <= k < e ==> IsRegexSpace(s[k])
    ensures e < |s| ==> !IsRegexSpace(s[e])
    decreases |s| - i
  {
    if i < |s| && IsRegexSpace(s[i]) then SpaceEnd(s, i + 1) else i
  }

  /**
   * The lazy "\".+?\"" from the quote at p: the first quote at p + 2 or later
   * reached before any line terminator. The search has got to k.
   */
  function ClosingQuoteFrom(s: string, p: nat, k: nat): (r: Option<nat>)
    requires p < k <= |s|
    requires NoTerminatorBetween(s, p, k)
    requires forall j :: p + 2 <= j < k ==> s[j] != '"'
    ensures r.Some? ==> p + 2 <= r.value < |s| && s[r.value] == '"' && NoTerminatorBetween(s, p, r.value)
    ensures r.Some? ==> forall j :: p + 2 <= j < r.value ==> s[j] != '"'
    ensures r.None? ==> forall q :: p + 2 <= q < |s| && s[q] == '"' ==> !NoTerminatorBetween(s, p, q)
    decreases |s| - k
  {
    if k == |s| || IsLineTerminator(s[k]) then None
    else if k >= p + 2 && s[k] == '"' then Some(k)
    else ClosingQuoteFrom(s, p, k + 1)
  }

  /** The pattern matched at exactly position p: the first alternative if s[p] is not a quote, the second otherwise. */
  function MatchAt(s: string, p: nat): (r: Option<TokenMatch>)
    ensures r.Some? ==> r.value.start == p && p < r.value.groupEnd <= r.value.matchEnd <= |s|
    ensures r.Some? ==> forall k :: r.value.groupEnd <= k < r.value.matchEnd ==> IsRegexSpace(s[k])
    ensures r.Some? ==> r.value.matchEnd == |s| || !IsRegexSpace(s[r.value.matchEnd])
    ensures r.Some? && s[p] != '"' ==> forall k :: p < k < r.value.groupEnd ==> !IsRegexSpace(s[k])
    ensures r.Some? && s[p] == '"' ==> r.value.groupEnd >= p + 3 && s[r.value.groupEnd - 1] == '"'
    ensures p < |s| && s[p] != '"' ==> r.Some?
  {
    if p >= |s| then None
    else if s[p] != '"' then
      var g := NonSpaceEnd(s, p + 1);
      Some(TokenMatch(p, g, SpaceEnd(s, g)))
    else
      match ClosingQuoteFrom(s, p, p + 1)
      case None => None
      case Some(q) => Some(TokenMatch(p, q + 1, SpaceEnd(s, q + 1)))
  }

  /** Matcher.find from position p: the match at the least start position at or after p. */
  function FindFrom(s: string, p: nat): (r: Option<TokenMatch>)
    requires p <= |s|
    ensures r.Some? ==> p <= r.value.start && MatchAt(s, r.value.start) == r
    ensures r.Some? ==> forall q :: p <= q < r.value.start ==> MatchAt(s, q).None?
    ensures r.None? ==> forall q :: p <= q < |s| ==> MatchAt(s, q).None?
    decreases |s| - p
  {
    if p == |s| then None
    else if MatchAt(s, p).Some? then MatchAt(s, p)
    else FindFrom(s, p + 1)
  }

  /** group(1) of every match that repeated find() calls return, starting at p. */
  function GroupsFrom(s: string, p: nat): seq<string>
    requires p <= |s|
    decreases |s| - p
  {
    match FindFrom(s, p)
    case None => []
    case Some(m) => [s[m.start..m.groupEnd]] + GroupsFrom(s, m.matchEnd)
  }

  // ---------------------------------------------------------------------
  // fpRegex, the grammar of Double.valueOf

  predicate IsHexDigit(c: char)
  {
    IsDigit(c) || ('a' <= c <= 'f') || ('A' <= c <= 'F')
  }

  /** Characters the pattern [\x00-\x20] admits around a literal; the same set trim() removes. */
  predicate IsPadding(s: string)
  {
    forall k :: 0 <= k < |s| ==> IsTrimmed(s[k])
  }

  function DigitRunEnd(s: string, i: nat): (e: nat)
    requires i <= |s|
    ensures i <= e <= |s|
    ensures forall k :: i <= k < e ==> IsDigit(s[k])
    ensures e < |s| ==> !IsDigit(s[e])
    decreases |s| - i
  {
    if i < |s| && IsDigit(s[i]) then DigitRunEnd(s, i + 1) else i
  }

  function HexRunEnd(s: string, i: nat): (e: nat)
    requires i <= |s|
    ensures i <= e <= |s|
    ensures forall k :: i <= k < e ==> IsHexDigit(s[k])
    ensures e < |s| ==> !IsHexDigit(s[e])
    decreases |s| - i
  {
    if i < |s| && IsHexDigit(s[i]) then HexRunEnd(s, i + 1) else i
  }

  /** "[+-]?" followed by Digits. */
  predicate SignedDigits(s: string)
  {
    AllDigits(s) || (s != [] && (s[0] == '+' || s[0] == '-') && AllDigits(s[1..]))
  }

  /** Exp: "[eE][+-]?Digits". */
  predicate Exponent(e: string)
  {
    e != [] && (e[0] == 'e' || e[0] == 'E') && SignedDigits(e[1..])
  }

  /** The binary exponent of a hexadecimal literal: "[pP][+-]?Digits". */
  predicate BinaryExponent(e: string)
  {
    e != [] && (e[0] == 'p' || e[0] == 'P') && SignedDigits(e[1..])
  }

  /** "Digits(\\.)?(Digits?)(Exp)?" or "\\.(Digits)(Exp)?", scanned left to right. */
  predicate DecimalForm(b: string)
  {
    var a := DigitRunEnd(b, 0);
    if a > 0 then
      var c := if a < |b| && b[a] == '.' then a + 1 else a;
      var d := DigitRunEnd(b, c);
      d == |b| || Exponent(b[d..])
    else
      |b| > 1 && b[0] == '.' && DigitRunEnd(b, 1) > 1 &&
      (DigitRunEnd(b, 1) == |b| || Exponent(b[DigitRunEnd(b, 1)..]))
  }

  /** "(0[xX]HexDigits(\\.)?|0[xX]HexDigits?(\\.)HexDigits)[pP][+-]?Digits", scanned left to right. */
  predicate HexForm(b: string)
  {
    |b| >= 2 && b[0] == '0' && (b[1] == 'x' || b[1] == 'X') &&
    var h1 := HexRunEnd(b, 2);
    if h1 < |b| && b[h1] == '.' then
      var h2 := HexRunEnd(b, h1 + 1);
      (h1 > 2 || h2 > h1 + 1) && BinaryExponent(b[h2..])
    else
      h1 > 2 && BinaryExponent(b[h1..])
  }

  predicate IsFloatSuffix(c: char)
  {
    c == 'f' || c == 'F' || c == 'd' || c == 'D'
  }

  /** The literal between the padding: a sign, then NaN, Infinity, or a decimal or hexadecimal form with an optional suffix. */
  predicate FloatCore(t: string)
  {
    var b := if t != [] && (t[0] == '+' || t[0] == '-') then t[1..] else t;
    b == "NaN" || b == "Infinity" || DecimalForm(b) || HexForm(b) ||
    (b != [] && IsFloatSuffix(b[|b| - 1]) && (DecimalForm(b[..|b| - 1]) || HexForm(b[..|b| - 1])))
  }

  /** Pattern.matches(fpRegex, s). */
  predicate IsFloatLiteral(s: string)
  {
    FloatCore(Trim(s))
  }

  /** A lone single quote is no floating-point literal. */
  lemma QuoteIsNotFloat()
    ensures !IsFloatLiteral("'")
  {
    TrimPadded("", "'", "");
    assert "" + "'" + "" == "'";
    QuoteIsNoCore();
  }

  /** The words true and false are no floating-point literals. */
  lemma BooleanIsNotFloat(token: string)
    requires token == "true" || token == "false"
    ensures !IsFloatLiteral(token)
  {
    TrimPadded("", token, "");
    assert "" + token + "" == token;
    NoAlternativeStartsCore(token);
  }

  /** A text whose first character is a letter that begins none of the alternatives is no literal body. */
  lemma NoAlternativeStartsCore(b: string)
    requires b != [] && 'a' <= b[0] <= 'z' && b[0] != 'x'
    ensures !FloatCore(b)
  {
    assert b != "NaN" && b != "Infinity" by { assert "NaN"[0] == 'N' && "Infinity"[0] == 'I'; }
    NoAlternativeStarts(b);
    NoAlternativeStarts(b[..|b| - 1]);
  }

  /** Neither a decimal nor a hexadecimal form begins with a letter other than x. */
  lemma NoAlternativeStarts(b: string)
    requires b != [] ==> 'a' <= b[0] <= 'z' && b[0] != 'x'
    ensures !DecimalForm(b) && !HexForm(b)
  {
    assert DigitRunEnd(b, 0) == 0;
  }

  /** No sign, no NaN or Infinity, no digit and no suffix: the quote matches no alternative. */
  lemma QuoteIsNoCore()
    ensures !FloatCore("'")
  {
    var b: string := "'";
    assert b[0] == '\'' && |b| == 1;
    assert DigitRunEnd(b, 0) == 0;
    assert !DecimalForm(b);
    assert !HexForm(b);
    assert !IsFloatSuffix(b[|b| - 1]);
  }

  // ---------------------------------------------------------------------
  // The recognisers agree with the structure of the patterns

  /** Every string of the first decimal alternative "Digits(\\.)?(Digits?)(Exp)?" is accepted. */
  lemma DecimalAccepted(i: string, d: string, f: string, e: string)
    requires AllDigits(i) && (d == "" || d == ".") && (f == "" || AllDigits(f)) && (e == "" || Exponent(e))
    ensures DecimalForm(i + d + f + e)
  {
    var b := i + d + f + e;
    if d == "." {
      assert b[|i|] == '.';
      assert DigitRunEnd(b, 0) == |i|;
      var c := |i| + 1;
      if |i| + 1 + |f| < |b| {
        assert b[|i| + 1 + |f|] == e[0];
      }
      assert DigitRunEnd(b, c) == |i| + 1 + |f|;
      assert b[|i| + 1 + |f|..] == e;
    } else {
      assert forall k :: 0 <= k < |i| + |f| ==> b[k] == (i + f)[k];
      if |i| + |f| < |b| {
        assert b[|i| + |f|] == e[0];
      }
      assert DigitRunEnd(b, 0) == |i| + |f|;
      assert b[|i| + |f|..] == e;
    }
  }

  /** Every string of the second decimal alternative "\\.(Digits)(Exp)?" is accepted. */
  lemma FractionAccepted(f: string, e: string)
    requires AllDigits(f) && (e == "" || Exponent(e))
    ensures DecimalForm("." + f + e)
  {
    var b := "." + f + e;
    assert DigitRunEnd(b, 0) == 0;
    if 1 + |f| < |b| {
      assert b[1 + |f|] == e[0];
    }
    assert DigitRunEnd(b, 1) == 1 + |f|;
    assert b[1 + |f|..] == e;
  }

  /** An accepted decimal form splits into the pieces of one of the two alternatives. */
  lemma DecimalParts(b: string) returns (i: string, d: string, f: string, e: string)
    requires DecimalForm(b)
    ensures b == i + d + f + e
    ensures (AllDigits(i) && (d == "" || d == ".") && (f == "" || AllDigits(f))) ||
            (i == "" && d == "." && AllDigits(f))
    ensures e == "" || Exponent(e)
  {
    if DigitRunEnd(b, 0) > 0 {
      i, d, f, e := LeadingDigitsParts(b);
    } else {
      i, d, f, e := LeadingPointParts(b);
    }
  }

  /** The first alternative: digits, an optional point, optional digits, an optional exponent. */
  lemma LeadingDigitsParts(b: string) returns (i: string, d: string, f: string, e: string)
    requires DecimalForm(b) && DigitRunEnd(b, 0) > 0
    ensures b == i + d + f + e
    ensures AllDigits(i) && (d == "" || d == ".") && (f == "" || AllDigits(f))
    ensures e == "" || Exponent(e)
  {
    var a := DigitRunEnd(b, 0);
    var c := if a < |b| && b[a] == '.' then a + 1 else a;
    var n := DigitRunEnd(b, c);
    i, d, f, e := b[..a], b[a..c], b[c..n], b[n..];
    SplitFour(b, a, c, n);
    assert forall k :: 0 <= k < |i| ==> i[k] == b[k];
    assert forall k :: 0 <= k < |f| ==> f[k] == b[c + k];
  }

  lemma SplitFour(b: string, a: nat, c: nat, n: nat)
    requires a <= c <= n <= |b|
    ensures b == b[..a] + b[a..c] + b[c..n] + b[n..]
  {
    assert b[..c] == b[..a] + b[a..c];
    assert b[..n] == b[..c] + b[c..n];
    assert b == b[..n] + b[n..];
  }

  /** The second alternative: a point, digits, an optional exponent. */
  lemma LeadingPointParts(b: string) returns (i: string, d: string, f: string, e: string)
    requires DecimalForm(b) && DigitRunEnd(b, 0) == 0
    ensures b == i + d + f + e
    ensures i == "" && d == "." && AllDigits(f)
    ensures e == "" || Exponent(e)
  {
    var n := DigitRunEnd(b, 1);
    i, d, f, e := "", b[..1], b[1..n], b[n..];
    assert b == b[..1] + b[1..n] + b[n..];
    assert forall k :: 0 <= k < |f| ==> f[k] == b[1 + k];
  }

  /** Every string of the hexadecimal alternatives is accepted. */
  lemma HexAccepted(x: char, h1: string, dot: string, h2: string, e: string)
    requires x == 'x' || x == 'X'
    requires forall k :: 0 <= k < |h1| ==> IsHexDigit(h1[k])
    requires forall k :: 0 <= k < |h2| ==> IsHexDigit(h2[k])
    requires (h1 != [] && dot == "" && h2 == "") || (dot == "." && (h1 != [] || h2 != []))
    requires BinaryExponent(e)
    ensures HexForm(['0', x] + h1 + dot + h2 + e)
  {
    var b := ['0', x] + h1 + dot + h2 + e;
    var n1 := 2 + |h1|;
    assert forall k :: 2 <= k < n1 ==> b[k] == h1[k - 2];
    if dot == "." {
      assert b[n1] == '.';
      var n2 := n1 + 1 + |h2|;
      assert forall k :: n1 + 1 <= k < n2 ==> b[k] == h2[k - n1 - 1];
      assert b[n2] == e[0];
      assert HexRunEnd(b, n1 + 1) == n2;
      assert b[n2..] == e;
    } else {
      assert b[n1] == e[0];
      assert b[n1..] == e;
    }
    assert HexRunEnd(b, 2) == n1;
  }

  /** An accepted hexadecimal form splits into the pieces of one of the two alternatives: the converse of HexAccepted. */
  lemma HexParts(b: string) returns (x: char, h1: string, dot: string, h2: string, e: string)
    requires HexForm(b)
    ensures b == ['0', x] + h1 + dot + h2 + e
    ensures x == 'x' || x == 'X'
    ensures forall k :: 0 <= k < |h1| ==> IsHexDigit(h1[k])
    ensures forall k :: 0 <= k < |h2| ==> IsHexDigit(h2[k])
    ensures (h1 != [] && dot == "" && h2 == "") || (dot == "." && (h1 != [] || h2 != []))
    ensures BinaryExponent(e)
  {
    x := b[1];
    var n1 := HexRunEnd(b, 2);
    var c := if n1 < |b| && b[n1] == '.' then n1 + 1 else n1;
    var n2 := if c > n1 then HexRunEnd(b, c) else n1;
    h1, dot, h2, e := b[2..n1], b[n1..c], b[c..n2], b[n2..];
    HexPieces(b, n1, c, n2);
  }

  lemma HexPieces(b: string, n1: nat, c: nat, n2: nat)
    requires 2 <= n1 <= c <= n2 <= |b| && b[..2] == ['0', b[1]]
    requires forall k :: 2 <= k < n1 ==> IsHexDigit(b[k])
    requires forall k :: c <= k < n2 ==> IsHexDigit(b[k])
    ensures b == ['0', b[1]] + b[2..n1] + b[n1..c] + b[c..n2] + b[n2..]
    ensures forall k :: 0 <= k < |b[2..n1]| ==> IsHexDigit(b[2..n1][k])
    ensures forall k :: 0 <= k < |b[c..n2]| ==> IsHexDigit(b[c..n2][k])
  {
    SplitFour(b, n1, c, n2);
    assert b[..n1] == b[..2] + b[2..n1];
    forall k | 0 <= k < |b[2..n1]| ensures IsHexDigit(b[2..n1][k]) { assert b[2..n1][k] == b[2 + k]; }
    forall k | 0 <= k < |b[c..n2]| ensures IsHexDigit(b[c..n2][k]) { assert b[c..n2][k] == b[c + k]; }
  }

  lemma SignedDigitsEnd(s: string)
    requires SignedDigits(s)
    ensures s != [] && IsDigit(s[|s| - 1])
  {
    if !AllDigits(s) {
      assert s[1..][|s| - 2] == s[|s| - 1];
    }
  }

  /** A decimal form starts with a digit or '.' and ends with a digit or '.'. */
  lemma DecimalFormEnds(body: string)
    requires DecimalForm(body)
    ensures body != [] && !IsTrimmed(body[0]) && !IsTrimmed(body[|body| - 1])
  {
    var i, d, f, e := DecimalParts(body);
    if e != "" {
      SignedDigitsEnd(e[1..]);
      assert body[|body| - 1] == e[|e| - 1];
    } else if f != "" {
      assert body[|body| - 1] == f[|f| - 1];
    } else if d != "" {
      assert body[|body| - 1] == '.';
    } else {
      assert body[|body| - 1] == i[|i| - 1];
    }
    assert body[0] == if i != "" then i[0] else '.';
  }

  /** A hexadecimal form starts with '0' and ends with a digit of its exponent. */
  lemma HexFormEnds(body: string)
    requires HexForm(body)
    ensures body != [] && !IsTrimmed(body[0]) && !IsTrimmed(body[|body| - 1])
  {
    var h1 := HexRunEnd(body, 2);
    var n := if h1 < |body| && body[h1] == '.' then HexRunEnd(body, h1 + 1) else h1;
    assert BinaryExponent(body[n..]);
    SignedDigitsEnd(body[n..][1..]);
    assert body[|body| - 1] == body[n..][|body| - 1 - n];
  }

  /** A literal starts and ends with characters that are not padding. */
  lemma FloatCoreEnds(t: string)
    requires FloatCore(t)
    ensures t != [] && !IsTrimmed(t[0]) && !IsTrimmed(t[|t| - 1])
  {
    var b := if t != [] && (t[0] == '+' || t[0] == '-') then t[1..] else t;
    if b != "NaN" && b != "Infinity" {
      if DecimalForm(b) {
        DecimalFormEnds(b);
      } else if HexForm(b) {
        HexFormEnds(b);
      } else {
        var body := b[..|b| - 1];
        if DecimalForm(body) { DecimalFormEnds(body); } else { HexFormEnds(body); }
        assert b[0] == body[0];
      }
    }
    assert t[|t| - 1] == b[|b| - 1];
  }

  /** Padding of characters up to U+0020 may surround a literal. */
  lemma FloatLiteralPadding(lead: string, core: string, trail: string)
    requires IsPadding(lead) && IsPadding(trail) && FloatCore(core)
    ensures IsFloatLiteral(lead + core + trail)
  {
    FloatCoreEnds(core);
    TrimPadded(lead, core, trail);
  }

  /** Every string of decimal digits is a numeric literal. */
  lemma DigitsAreFloatLiteral(s: string)
    requires AllDigits(s)
    ensures IsFloatLiteral(s)
  {
    DecimalAccepted(s, "", "", "");
    assert s + "" + "" + "" == s;
    FloatCoreEnds(s);
    TrimPadded("", s, "");
    assert "" + s + "" == s;
  }

  /** A type suffix is refused after NaN and Infinity. */
  lemma NoSuffixAfterSpecialValue(sign: string, word: string, c: char)
    requires sign == "" || sign == "+" || sign == "-"
    requires word == "NaN" || word == "Infinity"
    requires IsFloatSuffix(c)
    ensures !FloatCore(sign + word + [c])
  {
    var t := sign + word + [c];
    var b := word + [c];
    assert (if t != [] && (t[0] == '+' || t[0] == '-') then t[1..] else t) == b;
    assert b[..|b| - 1] == word;
    assert DigitRunEnd(b, 0) == 0;
    assert DigitRunEnd(word, 0) == 0;
  }
}
