/**
 * The front of the interpreter's line pipeline: quote-aware removal of
 * inline comments, the valid-line check, the split at the first '=' and
 * the tokenizer that turns the command text into a command and arguments.
 */
module Tokenizer {
  import opened Wrappers
  import opened Text
  import opened Grammar
  import opened Exceptions

  // ---------------------------------------------------------------------
  // removeInlineComments

  /** The positions below n holding a double quote, in ascending order (the quoteIndexes list). */
  function QuotePositions(s: string, n: nat): (r: seq<nat>)
    requires n <= |s|
    ensures forall t :: 0 <= t < |r| ==> r[t] < n && s[r[t]] == '"'
    ensures forall t, u :: 0 <= t < u < |r| ==> r[t] < r[u]
    ensures forall k :: 0 <= k < n && s[k] == '"' ==> k in r
  {
    if n == 0 then [] else QuotePositions(s, n - 1) + (if s[n - 1] == '"' then [n - 1] else [])
  }

  /** The positions below n holding a comment symbol, in ascending order (the commentIndexes list). */
  function CommentPositions(s: string, n: nat): (r: seq<nat>)
    requires n <= |s|
    ensures forall t :: 0 <= t < |r| ==> r[t] < n && IsCommentSymbol(s[r[t]])
    ensures forall t, u :: 0 <= t < u < |r| ==> r[t] < r[u]
    ensures forall k :: 0 <= k < n && IsCommentSymbol(s[k]) ==> k in r
  {
    if n == 0 then [] else CommentPositions(s, n - 1) + (if IsCommentSymbol(s[n - 1]) then [n - 1] else [])
  }

  /** The check of the comment loop: i lies strictly inside one of the quote pairs (j, j + 1), (j + 2, j + 3), ... */
  predicate InQuotedSpan(quotes: seq<nat>, i: nat, j: nat)
    decreases |quotes| - j
  {
    j + 1 < |quotes| && ((quotes[j] < i && i < quotes[j + 1]) || InQuotedSpan(quotes, i, j + 2))
  }

  /** A comment symbol preceded by an even number of double quotes: it is outside every quoted span. */
  predicate IsFreeComment(s: string, i: nat)
    requires i < |s|
  {
    IsCommentSymbol(s[i]) && |QuotePositions(s, i)| % 2 == 0
  }

  /** The first free comment symbol at or after k. */
  function FirstFreeComment(s: string, k: nat): (r: Option<nat>)
    requires k <= |s|
    ensures r.Some? ==> k <= r.value < |s| && IsFreeComment(s, r.value)
    ensures r.Some? ==> forall i :: k <= i < r.value ==> !IsFreeComment(s, i)
    ensures r.None? ==> forall i :: k <= i < |s| ==> !IsFreeComment(s, i)
    decreases |s| - k
  {
    if k == |s| then None else if IsFreeComment(s, k) then Some(k) else FirstFreeComment(s, k + 1)
  }

  /**
   * removeInlineComments: a line that starts with a comment symbol is
   * empty, whatever follows; otherwise an odd number of double quotes is
   * an error, and the line is cut at its first comment symbol outside
   * quotes.
   */
  function StripComments(s: string): (r: Result<string, Failure>)
    ensures r.Ok? ==> StartsWith(s, r.value)
    ensures s != [] && IsCommentSymbol(s[0]) ==> r == Ok("")
    ensures r.Err? <==> (s == [] || !IsCommentSymbol(s[0])) && |QuotePositions(s, |s|)| % 2 == 1
    ensures r.Err? ==> r.error == IllegalArgument("Unclosed string.")
    ensures r.Ok? && (s == [] || !IsCommentSymbol(s[0])) ==>
      (forall i :: 0 <= i < |r.value| ==> !IsFreeComment(s, i)) &&
      (|r.value| < |s| ==> IsFreeComment(s, |r.value|))
  {
    if s != [] && IsCommentSymbol(s[0]) then Ok("")
    else if |QuotePositions(s, |s|)| % 2 != 0 then Err(IllegalArgument("Unclosed string."))
    else match FirstFreeComment(s, 0)
      case Some(i) => Ok(s[..i])
      case None => Ok(s)
  }

  /** The quotes below c are the first ones of the whole list; the rest lie at or after c. */
  lemma {:induction false} QuotePositionsSplit(s: string, c: nat, n: nat)
    requires c <= n <= |s|
    ensures |QuotePositions(s, c)| <= |QuotePositions(s, n)|
    ensures QuotePositions(s, n)[..|QuotePositions(s, c)|] == QuotePositions(s, c)
    ensures forall t :: |QuotePositions(s, c)| <= t < |QuotePositions(s, n)| ==> QuotePositions(s, n)[t] >= c
  {
    if n > c {
      QuotePositionsSplit(s, c, n - 1);
      var p := QuotePositions(s, n - 1);
      assert QuotePositions(s, n) == p + (if s[n - 1] == '"' then [n - 1] else []);
      assert QuotePositions(s, n)[..|p|] == p;
    }
  }

  /** Pair checking agrees with parity: c is inside a pair exactly when an odd number of quotes precede it. */
  lemma {:induction false} SpanParity(quotes: seq<nat>, c: nat, m: nat, j: nat)
    requires m <= |quotes| && |quotes| % 2 == 0 && j % 2 == 0 && j <= |quotes|
    requires forall t :: 0 <= t < m ==> quotes[t] < c
    requires forall t :: m <= t < |quotes| ==> quotes[t] > c
    ensures InQuotedSpan(quotes, c, j) <==> m % 2 == 1 && j < m
    decreases |quotes| - j
  {
    if j + 1 < |quotes| {
      SpanParity(quotes, c, m, j + 2);
    }
  }

  /** The quotes of the whole line split at c: the first |QuotePositions(s, c)| lie before c, the others after it. */
  lemma QuotesAround(s: string, c: nat)
    requires c < |s| && s[c] != '"'
    ensures |QuotePositions(s, c)| <= |QuotePositions(s, |s|)|
    ensures forall t :: 0 <= t < |QuotePositions(s, c)| ==> QuotePositions(s, |s|)[t] < c
    ensures forall t :: |QuotePositions(s, c)| <= t < |QuotePositions(s, |s|)| ==> QuotePositions(s, |s|)[t] > c
  {
    var quotes := QuotePositions(s, |s|);
    var below := QuotePositions(s, c);
    QuotePositionsSplit(s, c, |s|);
    forall t | 0 <= t < |below| ensures quotes[t] < c {
      assert quotes[t] == quotes[..|below|][t];
    }
  }

  /** In a line with balanced quotes, the pair check on a comment symbol at c is the parity of the quotes before c. */
  lemma CommentInString(s: string, c: nat)
    requires c < |s| && IsCommentSymbol(s[c]) && |QuotePositions(s, |s|)| % 2 == 0
    ensures InQuotedSpan(QuotePositions(s, |s|), c, 0) <==> !IsFreeComment(s, c)
  {
    QuotesAround(s, c);
    SpanParity(QuotePositions(s, |s|), c, |QuotePositions(s, c)|, 0);
  }

  /** A comment symbol that the comment loop reaches first among the free ones is the first free comment. */
  lemma FirstFreeFromList(s: string, t: nat)
    requires t < |CommentPositions(s, |s|)|
    requires forall u :: 0 <= u < t ==> !IsFreeComment(s, CommentPositions(s, |s|)[u])
    requires IsFreeComment(s, CommentPositions(s, |s|)[t])
    ensures FirstFreeComment(s, 0) == Some(CommentPositions(s, |s|)[t])
  {
  }

  lemma NoFreeFromList(s: string)
    requires forall k :: k in CommentPositions(s, |s|) ==> k < |s| && !IsFreeComment(s, k)
    ensures FirstFreeComment(s, 0) == None
  {
  }

  /** The first loop of removeInlineComments: the quote and comment positions, or "" on a comment symbol at index 0. */
  method ScanLine(input: string) returns (commentLine: bool, quoteIndexes: seq<nat>, commentIndexes: seq<nat>)
    ensures commentLine <==> input != [] && IsCommentSymbol(input[0])
    ensures !commentLine ==> quoteIndexes == QuotePositions(input, |input|)
    ensures !commentLine ==> commentIndexes == CommentPositions(input, |input|)
  {
    quoteIndexes, commentIndexes := [], [];
    var i := 0;
    while i < |input|
      invariant 0 <= i <= |input|
      invariant i > 0 ==> !IsCommentSymbol(input[0])
      invariant quoteIndexes == QuotePositions(input, i)
      invariant commentIndexes == CommentPositions(input, i)
    {
      var current := input[i];
      if current == '"' {
        quoteIndexes := quoteIndexes + [i];
      } else {
        var wholeLine;
        wholeLine, commentIndexes := ScanSymbols(current, i, commentIndexes);
        if wholeLine {
          return true, [], [];
        }
      }
      i := i + 1;
    }
    commentLine := false;
  }

  /** The loop over the comment symbols for the character at index i: index 0 flags a comment line, a later index is recorded. */
  method ScanSymbols(current: char, i: nat, before: seq<nat>) returns (commentLine: bool, commentIndexes: seq<nat>)
    ensures commentLine <==> i == 0 && IsCommentSymbol(current)
    ensures !commentLine ==> commentIndexes == before + (if IsCommentSymbol(current) then [i] else [])
  {
    commentIndexes := before;
    var n := 0;
    while n < |CommentSymbols|
      invariant 0 <= n <= |CommentSymbols|
      invariant commentIndexes == before + (if current in CommentSymbols[..n] then [i] else [])
      invariant i == 0 ==> current !in CommentSymbols[..n]
    {
      if CommentSymbols[n] == current {
        if i == 0 {
          return true, [];
        }
        commentIndexes := commentIndexes + [i];
      }
      assert CommentSymbols[..n + 1] == CommentSymbols[..n] + [CommentSymbols[n]];
      n := n + 1;
    }
    assert CommentSymbols[..n] == CommentSymbols;
    commentLine := false;
  }

  /** The inner loop of the comment check: whether c lies strictly inside one of the quote pairs. */
  method InString(quoteIndexes: seq<nat>, c: nat) returns (inString: bool)
    requires |quoteIndexes| % 2 == 0
    ensures inString == InQuotedSpan(quoteIndexes, c, 0)
  {
    inString := false;
    var j := 0;
    while j < |quoteIndexes| && !inString
      invariant 0 <= j <= |quoteIndexes| && j % 2 == 0
      invariant inString ==> InQuotedSpan(quoteIndexes, c, 0)
      invariant !inString ==> (InQuotedSpan(quoteIndexes, c, 0) <==> InQuotedSpan(quoteIndexes, c, j))
      decreases |quoteIndexes| - j, !inString
    {
      if c > quoteIndexes[j] && c < quoteIndexes[j + 1] {
        inString := true;
      } else {
        j := j + 2;
      }
    }
  }

  /** removeInlineComments, with its position lists and loops. */
  method RemoveInlineComments(input: string) returns (r: Result<string, Failure>)
    ensures r == StripComments(input)
  {
    var commentLine, quoteIndexes, commentIndexes := ScanLine(input);
    if commentLine {
      return Ok("");
    }
    if |quoteIndexes| % 2 != 0 {
      return Err(IllegalArgument("Unclosed string."));
    }
    var t := 0;
    while t < |commentIndexes|
      invariant 0 <= t <= |commentIndexes|
      invariant forall u :: 0 <= u < t ==> !IsFreeComment(input, commentIndexes[u])
    {
      var c := commentIndexes[t];
      var inString := InString(quoteIndexes, c);
      CommentInString(input, c);
      if !inString {
        FirstFreeFromList(input, t);
        return Ok(input[..c]);
      }
      t := t + 1;
    }
    NoFreeFromList(input);
    r := Ok(input);
  }

  // ---------------------------------------------------------------------
  // Properties of comment stripping

  /** The quote positions of a prefix are those of the line below the cut. */
  lemma {:induction false} QuotePositionsOfPrefix(s: string, i: nat, k: nat)
    requires k <= i <= |s|
    ensures QuotePositions(s[..i], k) == QuotePositions(s, k)
  {
    if k > 0 {
      QuotePositionsOfPrefix(s, i, k - 1);
      assert s[..i][k - 1] == s[k - 1];
    }
  }

  /**
   * What survives stripping has balanced double quotes, the cut never
   * falls inside a quoted span of the line, and every comment symbol left
   * in the result lies inside a quoted span.
   */
  lemma StripKeepsStrings(s: string)
    requires StripComments(s).Ok?
    ensures var r := StripComments(s).value;
      |QuotePositions(r, |r|)| % 2 == 0 &&
      (|QuotePositions(s, |s|)| % 2 == 0 ==> !InQuotedSpan(QuotePositions(s, |s|), |r|, 0)) &&
      forall k :: 0 <= k < |r| && IsCommentSymbol(r[k]) ==> |QuotePositions(r, k)| % 2 == 1
  {
    var r := StripComments(s).value;
    if s != [] && IsCommentSymbol(s[0]) {
      assert r == [];
      if |QuotePositions(s, |s|)| % 2 == 0 {
        CommentInString(s, 0);
      }
    } else {
      assert r == s[..|r|];
      QuotePositionsOfPrefix(s, |r|, |r|);
      assert forall i :: 0 <= i < |r| ==> !IsFreeComment(s, i);
      KeptCommentsQuoted(s, |r|);
      if |r| < |s| {
        CommentInString(s, |r|);
      } else {
        var quotes := QuotePositions(s, |s|);
        SpanParity(quotes, |s|, |quotes|, 0);
      }
    }
  }

  /** In a prefix below the first free comment symbol, every comment symbol follows an odd number of quotes. */
  lemma KeptCommentsQuoted(s: string, n: nat)
    requires n <= |s| && forall i :: 0 <= i < n ==> !IsFreeComment(s, i)
    ensures forall k :: 0 <= k < n && IsCommentSymbol(s[..n][k]) ==> |QuotePositions(s[..n], k)| % 2 == 1
  {
    forall k | 0 <= k < n && IsCommentSymbol(s[..n][k]) ensures |QuotePositions(s[..n], k)| % 2 == 1 {
      QuotePositionsOfPrefix(s, n, k);
      assert s[..n][k] == s[k];
      assert !IsFreeComment(s, k);
    }
  }

  /** A line whose first character is '#' or '!' is dropped, even with unbalanced quotes. */
  lemma CommentLineDropped(s: string)
    requires s != [] && IsCommentSymbol(s[0]) && |QuotePositions(s, |s|)| % 2 == 1
    ensures StripComments(s) == Ok("")
  {
    assert StripComments(s) == Ok("");
  }

  // ---------------------------------------------------------------------
  // isValidLine

  /** isValidLine: not empty and not starting with '#'. */
  predicate IsValidLine(s: string)
  {
    s != [] && !StartsWith(s, "#")
  }

  /** After stripping, a line is handled exactly when something is left of it. */
  lemma ValidAfterStrip(s: string)
    requires StripComments(s).Ok?
    ensures IsValidLine(StripComments(s).value) <==> StripComments(s).value != []
  {
    var r := StripComments(s).value;
    if r != [] {
      assert r[0] == s[0];
      assert !IsCommentSymbol(s[0]);
      assert r[..1] == [r[0]];
    }
  }

  // ---------------------------------------------------------------------
  // handleInput: the split at the first '='

  /** Whether the line assigns, the variable name, and the command text. */
  datatype Assignment = Assignment(store: bool, varName: string, commandText: string)

  /** The first '=' anywhere splits the line, inside double quotes or not. */
  function SplitAssignment(input: string): (a: Assignment)
    ensures '=' !in input <==> !a.store
    ensures !a.store ==> a == Assignment(false, "", input)
    ensures a.store ==> ' ' !in a.varName
    ensures a.store ==> (exists i :: 0 <= i < |input| && input[i] == '=' && '=' !in input[..i] &&
                          a.varName == RemoveChar(Trim(input[..i]), ' ') && a.commandText == Trim(input[i + 1..]))
  {
    match IndexOf(input, '=')
    case None => Assignment(false, "", input)
    case Some(i) =>
      var a := Assignment(true, RemoveChar(Trim(input[..i]), ' '), Trim(input[i + 1..]));
      FirstEquals(input, i, a);
      a
  }

  /** The split at the first '=' at i witnesses SplitAssignment's description of a storing line. */
  lemma FirstEquals(input: string, i: nat, a: Assignment)
    requires IndexOf(input, '=') == Some(i)
    requires a == Assignment(true, RemoveChar(Trim(input[..i]), ' '), Trim(input[i + 1..]))
    ensures '=' in input && ' ' !in a.varName
    ensures exists j :: 0 <= j < |input| && input[j] == '=' && '=' !in input[..j] &&
                        a.varName == RemoveChar(Trim(input[..j]), ' ') && a.commandText == Trim(input[j + 1..])
  {
    assert 0 <= i < |input| && input[i] == '=' && '=' !in input[..i];
  }

  /** A name without '=' or padding, then '=', then a command: the split gives back the name and the trimmed command. */
  lemma SplitAssignmentOf(name: string, command: string)
    requires '=' !in name && Unpadded(name)
    ensures SplitAssignment(name + "=" + command) == Assignment(true, name, Trim(command))
  {
    var input := name + "=" + command;
    assert input[|name|] == '=' && input[..|name|] == name;
    IndexOfFirstChar(input, '=', |name|);
    assert input[|name| + 1..] == command;
    if name != [] {
      TrimPadded("", name, "");
      assert "" + name + "" == name;
    }
    RemoveAbsentChar(name, ' ');
  }

  lemma IndexOfFirstChar(s: string, c: char, i: nat)
    requires i < |s| && s[i] == c && c !in s[..i]
    ensures IndexOf(s, c) == Some(i)
  {
  }

  lemma {:induction false} RemoveAbsentChar(s: string, c: char)
    requires c !in s
    ensures RemoveChar(s, c) == s
  {
    if s != [] {
      RemoveAbsentChar(s[1..], c);
    }
  }

  /** A left part without '=' splits off at the '=' after it, whatever the right part holds. */
  lemma SplitAt(left: string, right: string)
    requires '=' !in left
    ensures SplitAssignment(left + "=" + right) == Assignment(true, RemoveChar(Trim(left), ' '), Trim(right))
  {
    var input := left + "=" + right;
    assert input[|left|] == '=' && input[..|left|] == left;
    IndexOfFirstChar(input, '=', |left|);
    assert input[|left| + 1..] == right;
  }

  /**
   * The split ignores double quotes: in "w=v" the '=' inside the quotes
   * still splits, leaving the variable name "w and the command v".
   */
  lemma AssignmentNotQuoteAware(w: string, v: string)
    requires '=' !in w && Unpadded(w) && Unpadded(v)
    ensures SplitAssignment("\"" + w + "=" + v + "\"") == Assignment(true, "\"" + w, v + "\"")
  {
    var name := "\"" + w;
    var command := v + "\"";
    assert "\"" + w + "=" + v + "\"" == name + "=" + command;
    QuotedNameFree(w);
    UnpaddedConcat(v, "\"");
    UnpaddedTrimmed(command);
    SplitAssignmentOf(name, command);
  }

  /** A quote before a name without '=' or padding keeps it without '=' or padding. */
  lemma QuotedNameFree(w: string)
    requires '=' !in w && Unpadded(w)
    ensures '=' !in "\"" + w && Unpadded("\"" + w)
  {
    UnpaddedConcat("\"", w);
    assert "\"" + w == ['"'] + w;
  }

  /** trim() leaves a text without padding as it is. */
  lemma UnpaddedTrimmed(s: string)
    requires s != [] && Unpadded(s)
    ensures Trim(s) == s
  {
    TrimPadded("", s, "");
    assert "" + s + "" == s;
  }

  /** No character that trim() would remove. */
  predicate Unpadded(s: string)
  {
    forall k :: 0 <= k < |s| ==> !IsTrimmed(s[k])
  }

  lemma UnpaddedConcat(a: string, b: string)
    requires Unpadded(a) && Unpadded(b)
    ensures Unpadded(a + b)
  {
    forall k | 0 <= k < |a + b| ensures !IsTrimmed((a + b)[k]) {
      if k >= |a| {
        assert (a + b)[k] == b[k - |a|];
      }
    }
  }

  lemma {:induction false} RemoveAround(s: string, i: nat, c: char)
    requires i < |s| && s[i] == c
    ensures RemoveChar(s, c) == RemoveChar(s[..i], c) + RemoveChar(s[i + 1..], c)
  {
    if i > 0 {
      RemoveAround(s[1..], i - 1, c);
      assert s[1..][..i - 1] == s[..i][1..];
      assert s[1..][i..] == s[i + 1..];
    }
  }

  // ---------------------------------------------------------------------
  // handleInput: the tokens

  /** Every double quote of each group becomes a single quote. */
  function Unquoted(groups: seq<string>): (tokens: seq<string>)
    ensures |tokens| == |groups|
    ensures forall t :: 0 <= t < |tokens| ==> tokens[t] == ReplaceChar(groups[t], '"', '\'') && '"' !in tokens[t]
  {
    if groups == [] then []
    else
      var head := ReplaceChar(groups[0], '"', '\'');
      assert forall k :: 0 <= k < |head| ==> head[k] != '"';
      [head] + Unquoted(groups[1..])
  }

  /** The arguments list of handleInput before its head is removed. */
  function TokenList(s: string): seq<string>
  {
    Unquoted(GroupsFrom(s, 0))
  }

  /** The find() loop of handleInput. */
  method ScanTokens(s: string) returns (tokens: seq<string>)
    ensures tokens == TokenList(s)
    ensures forall t :: 0 <= t < |tokens| ==> tokens[t] != [] && '"' !in tokens[t]
  {
    tokens := [];
    var p := 0;
    var m := FindFrom(s, 0);
    while m.Some?
      invariant p <= |s|
      invariant m == FindFrom(s, p)
      invariant tokens + Unquoted(GroupsFrom(s, p)) == TokenList(s)
      decreases |s| - p
    {
      var group := s[m.value.start..m.value.groupEnd];
      var token := ReplaceChar(group, '"', '\'');
      ScanStep(s, p, tokens);
      tokens := tokens + [token];
      p := m.value.matchEnd;
      m := FindFrom(s, p);
    }
    TokenListShape(s);
  }

  /** Every token is non-empty and free of double quotes. */
  lemma TokenListShape(s: string)
    ensures forall t :: 0 <= t < |TokenList(s)| ==> TokenList(s)[t] != [] && '"' !in TokenList(s)[t]
  {
    GroupsNonEmpty(s, 0);
    var g := GroupsFrom(s, 0);
    forall t | 0 <= t < |TokenList(s)|
      ensures TokenList(s)[t] != []
    {
      assert TokenList(s)[t] == ReplaceChar(g[t], '"', '\'');
    }
  }

  /** One find() call: the first group is unquoted and the rest of the scan resumes after the match. */
  lemma ScanStep(s: string, p: nat, tokens: seq<string>)
    requires p <= |s| && FindFrom(s, p).Some?
    ensures var m := FindFrom(s, p).value;
      p < m.matchEnd <= |s| && m.start <= m.groupEnd <= |s| &&
      tokens + Unquoted(GroupsFrom(s, p)) ==
        (tokens + [ReplaceChar(s[m.start..m.groupEnd], '"', '\'')]) + Unquoted(GroupsFrom(s, m.matchEnd))
  {
    var m := FindFrom(s, p).value;
    var rest := GroupsFrom(s, m.matchEnd);
    assert GroupsFrom(s, p) == [s[m.start..m.groupEnd]] + rest;
    UnquotedCons(tokens, s[m.start..m.groupEnd], rest);
  }

  lemma UnquotedCons(tokens: seq<string>, g: string, rest: seq<string>)
    ensures tokens + Unquoted([g] + rest) == (tokens + [ReplaceChar(g, '"', '\'')]) + Unquoted(rest)
  {
    assert ([g] + rest)[1..] == rest;
  }

  /** Every group is non-empty: a match consumes at least its first character. */
  lemma {:induction false} GroupsNonEmpty(s: string, p: nat)
    requires p <= |s|
    ensures forall t :: 0 <= t < |GroupsFrom(s, p)| ==> GroupsFrom(s, p)[t] != []
    decreases |s| - p
  {
    match FindFrom(s, p)
    case None =>
    case Some(m) =>
      GroupsNonEmpty(s, m.matchEnd);
  }

  /** A non-empty word without whitespace or double quotes. */
  predicate PlainWord(w: string)
  {
    w != [] && '"' !in w && forall k :: 0 <= k < |w| ==> !IsRegexSpace(w[k])
  }

  /** Words without whitespace or double quotes, separated by single spaces, are the tokens themselves. */
  lemma {:induction false} TokensOfWords(s: string, p: nat, words: seq<string>)
    requires p <= |s| && s[p..] == Join(words, " ")
    requires forall t :: 0 <= t < |words| ==> PlainWord(words[t])
    ensures GroupsFrom(s, p) == words
    decreases |words|
  {
    if words == [] {
      assert p == |s|;
      FindNothing(s, p);
      assert GroupsFrom(s, p) == [];
    } else if |words| == 1 {
      LastWord(s, p, words[0]);
    } else {
      var rest := words[1..];
      var next := NextWord(s, p, words);
      TokensOfWords(s, next, rest);
      ConsBoth(GroupsFrom(s, p), words, words[0], GroupsFrom(s, next), rest);
    }
  }

  lemma ConsBoth(a: seq<string>, b: seq<string>, x: string, ta: seq<string>, tb: seq<string>)
    requires a == [x] + ta && ta == tb && b != [] && b[0] == x && b[1..] == tb
    ensures a == b
  {
    assert b == [b[0]] + b[1..];
  }

  /** The last word of the line is the last group. */
  lemma LastWord(s: string, p: nat, w: string)
    requires p <= |s| && s[p..] == w && PlainWord(w)
    ensures GroupsFrom(s, p) == [w]
  {
    var e := p + |w|;
    assert s[p..e] == w;
    WordMatch(s, p, w, e);
    assert FindFrom(s, e).None? by { FindNothing(s, e); }
    assert GroupsFrom(s, e) == [];
  }

  /** A word followed by one space and more words is a group, and the scan resumes after the space. */
  lemma NextWord(s: string, p: nat, words: seq<string>) returns (next: nat)
    requires p <= |s| && |words| > 1 && s[p..] == Join(words, " ")
    requires PlainWord(words[0]) && PlainWord(words[1])
    ensures next == p + |words[0]| + 1 <= |s| && s[next..] == Join(words[1..], " ")
    ensures GroupsFrom(s, p) == [words[0]] + GroupsFrom(s, next)
  {
    var w := words[0];
    var e := p + |w|;
    var rest := words[1..];
    assert Join(words, " ") == w + " " + Join(rest, " ");
    SpaceAfter(s, p, w, Join(rest, " "));
    assert s[e + 1] == rest[0][0] by { assert rest[0] != []; JoinStarts(rest, " "); }
    WordMatch(s, p, w, e + 1);
    next := e + 1;
  }

  /** A line that reads w, a space and tail from p has w at p, the space after it and tail after that. */
  lemma SpaceAfter(s: string, p: nat, w: string, tail: string)
    requires p <= |s| && s[p..] == w + " " + tail
    ensures p + |w| + 1 <= |s| && s[p..p + |w|] == w && s[p + |w|] == ' ' && s[p + |w| + 1..] == tail
  {
    var t := s[p..];
    assert t[..|w|] == w && t[|w|] == ' ' && t[|w| + 1..] == tail;
  }

  /** A word without whitespace or quotes at p, then the end of the line or one space before a non-space: one match. */
  lemma WordMatch(s: string, p: nat, w: string, after: nat)
    requires p + |w| <= |s| && s[p..p + |w|] == w && PlainWord(w)
    requires (after == p + |w| == |s|) ||
             (after == p + |w| + 1 < |s| && s[p + |w|] == ' ' && !IsRegexSpace(s[after]))
    ensures FindFrom(s, p) == Some(TokenMatch(p, p + |w|, after))
  {
    var e := p + |w|;
    assert s[p] == w[0];
    assert forall k :: p <= k < e ==> s[k] == w[k - p];
    NonSpaceEndAt(s, p + 1, e);
    if after > e {
      assert SpaceEnd(s, e + 1) == after;
      assert SpaceEnd(s, e) == after;
    }
  }

  lemma NonSpaceEndAt(s: string, i: nat, e: nat)
    requires i <= e <= |s| && forall k :: i <= k < e ==> !IsRegexSpace(s[k])
    requires e == |s| || IsRegexSpace(s[e])
    ensures NonSpaceEnd(s, i) == e
  {
  }

  lemma JoinStarts(parts: seq<string>, sep: string)
    requires parts != [] && parts[0] != []
    ensures Join(parts, sep) != [] && Join(parts, sep)[0] == parts[0][0]
  {
  }

  lemma FindNothing(s: string, p: nat)
    requires p == |s|
    ensures FindFrom(s, p).None?
  {
  }

  /** A double-quoted span, spaces and all, is one token, its quotes turned into single quotes. */
  lemma QuotedToken(w: string)
    requires w != [] && '"' !in w && forall k :: 0 <= k < |w| ==> !IsLineTerminator(w[k])
    ensures TokenList("\"" + w + "\"") == ["'" + w + "'"]
  {
    var s := "\"" + w + "\"";
    var q := |w| + 1;
    assert s[q] == '"';
    assert forall j :: 1 <= j < q ==> s[j] == w[j - 1];
    assert ClosingQuoteFrom(s, 0, 1) == Some(q) by { ClosingQuoteAt(s, 0, 1, q); }
    assert MatchAt(s, 0) == Some(TokenMatch(0, q + 1, q + 1));
    assert FindFrom(s, q + 1).None? by { FindNothing(s, q + 1); }
    assert s[0..q + 1] == s;
    assert GroupsFrom(s, 0) == [s] + GroupsFrom(s, q + 1);
    assert GroupsFrom(s, q + 1) == [];
    var r := ReplaceChar(s, '"', '\'');
    assert r == "'" + w + "'";
    assert Unquoted([s]) == [r];
  }

  lemma {:induction false} ClosingQuoteAt(s: string, p: nat, k: nat, q: nat)
    requires p < k <= q < |s| && q >= p + 2 && s[q] == '"'
    requires forall j :: p < j <= q ==> !IsLineTerminator(s[j])
    requires forall j :: p < j < q ==> s[j] != '"'
    ensures ClosingQuoteFrom(s, p, k) == Some(q)
    decreases q - k
  {
    if k < q {
      ClosingQuoteAt(s, p, k + 1, q);
    }
  }

  /** An empty pair of double quotes yields no token at all: the lazy ".+?" needs a character between them. */
  lemma EmptyQuotesNoToken()
    ensures TokenList("\"\"") == []
  {
    var s := "\"\"";
    assert ClosingQuoteFrom(s, 0, 1) == None;
    assert ClosingQuoteFrom(s, 1, 2) == None;
    assert MatchAt(s, 0) == None;
    assert MatchAt(s, 1) == None;
    assert FindFrom(s, 0) == None;
  }

  // ---------------------------------------------------------------------
  // handleInput: the whole front

  /** A line taken apart: the assignment, the command word and its arguments. */
  datatype ParsedLine = ParsedLine(store: bool, varName: string, command: string, args: seq<string>)

  /** Everything handleInput does before dispatch; an empty token list fails at args.remove(0). */
  function ParseLine(input: string): (r: Result<ParsedLine, Failure>)
    ensures r.Err? <==> TokenList(SplitAssignment(input).commandText) == []
    ensures r.Err? ==> r.error == IndexOutOfBounds(0, 0)
    ensures r.Ok? ==> [r.value.command] + r.value.args == TokenList(SplitAssignment(input).commandText)
    ensures r.Ok? ==> r.value.store == SplitAssignment(input).store && r.value.varName == SplitAssignment(input).varName
  {
    var a := SplitAssignment(input);
    var tokens := TokenList(a.commandText);
    if tokens == [] then Err(IndexOutOfBounds(0, 0))
    else Ok(ParsedLine(a.store, a.varName, tokens[0], tokens[1..]))
  }

  /** A line of plain words is the command and its arguments, in order. */
  lemma ParseWords(words: seq<string>)
    requires words != [] && forall t :: 0 <= t < |words| ==> words[t] != [] && '"' !in words[t] && '=' !in words[t]
    requires forall t, k :: 0 <= t < |words| && 0 <= k < |words[t]| ==> !IsRegexSpace(words[t][k])
    ensures ParseLine(Join(words, " ")) == Ok(ParsedLine(false, "", words[0], words[1..]))
  {
    var s := Join(words, " ");
    JoinLacks(words, " ", '=');
    assert s[0..] == s;
    assert forall t :: 0 <= t < |words| ==> PlainWord(words[t]);
    TokensOfWords(s, 0, words);
    NoQuotesUnchanged(words);
  }

  lemma {:induction false} JoinLacks(parts: seq<string>, sep: string, c: char)
    requires c !in sep && forall t :: 0 <= t < |parts| ==> c !in parts[t]
    ensures c !in Join(parts, sep)
  {
    if |parts| > 1 {
      JoinLacks(parts[1..], sep, c);
    }
  }

  lemma NoQuotesUnchanged(words: seq<string>)
    requires forall t :: 0 <= t < |words| ==> '"' !in words[t]
    ensures Unquoted(words) == words
  {
    var u := Unquoted(words);
    forall t | 0 <= t < |words| ensures u[t] == words[t] {
      assert |u[t]| == |words[t]|;
      assert forall k :: 0 <= k < |words[t]| ==> u[t][k] == words[t][k];
    }
  }
}
