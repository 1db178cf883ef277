/** _json_tokenize in main_app.py: a total lexer that cuts any text into
    whitespace runs, structural characters, string literals, the keywords
    true/false/null, numbers and single OTHER characters. */
module Lexer {
  import opened Text

  datatype Kind =
    | WS | LBrace | RBrace | LBracket | RBracket | Colon | Comma
    | Str | True | False | Null | Number | Other

  /** A token: its kind and the exact text it covers. */
  datatype Token = Token(kind: Kind, lex: string)

  /** WS = " \t\r\n" */
  predicate IsWs(c: char) {
    c == ' ' || c == '\t' || c == '\r' || c == '\n'
  }

  /** digits = "0123456789-+." */
  predicate IsNumStart(c: char) {
    ('0' <= c <= '9') || c == '-' || c == '+' || c == '.'
  }

  /** digits + 'eE' */
  predicate IsNumChar(c: char) {
    IsNumStart(c) || c == 'e' || c == 'E'
  }

  /** The end of the whitespace run that continues at j. */
  function WsEnd(s: string, j: nat): (e: nat)
    requires j <= |s|
    ensures j <= e <= |s|
    ensures e == |s| || !IsWs(s[e])
    decreases |s| - j
  {
    if j < |s| && IsWs(s[j]) then WsEnd(s, j + 1) else j
  }

  /** The end of the number that continues at j. */
  function NumEnd(s: string, j: nat): (e: nat)
    requires j <= |s|
    ensures j <= e <= |s|
    ensures e == |s| || !IsNumChar(s[e])
    decreases |s| - j
  {
    if j < |s| && IsNumChar(s[j]) then NumEnd(s, j + 1) else j
  }

  /** The end of a string literal opened by `quote` whose scan has reached j
      with a pending escape `esc`: just after the first unescaped `quote`,
      or the end of the input. */
  function StrEnd(s: string, j: nat, quote: char, esc: bool): (e: nat)
    requires j <= |s|
    ensures j <= e <= |s|
    decreases |s| - j
  {
    if j == |s| then j
    else if !esc && s[j] == quote then j + 1
    else StrEnd(s, j + 1, quote, !esc && s[j] == '\\')
  }

  /** s continues at i with the word w. */
  predicate StartsWith(s: string, i: nat, w: string) {
    i + |w| <= |s| && forall k :: 0 <= k < |w| ==> s[i + k] == w[k]
  }

  predicate IsPunct(ch: char) {
    ch == '{' || ch == '}' || ch == '[' || ch == ']' || ch == ':' || ch == ','
  }

  /** The kind of a one-character structural token. */
  function PunctKind(ch: char): Kind
    requires IsPunct(ch)
  {
    if ch == '{' then LBrace else if ch == '}' then RBrace
    else if ch == '[' then LBracket else if ch == ']' then RBracket
    else if ch == ':' then Colon else Comma
  }

  /** The kind and the end of the token that starts at index i. */
  function Scan(s: string, i: nat): (r: (Kind, nat))
    requires i < |s|
    ensures i < r.1 <= |s|
    ensures r.0 == WS <==> IsWs(s[i])
  {
    var ch := s[i];
    if IsWs(ch) then (WS, WsEnd(s, i + 1))
    else if IsPunct(ch) then (PunctKind(ch), i + 1)
    else if ch == '"' || ch == '\'' then (Str, StrEnd(s, i + 1, ch, false))
    else if StartsWith(s, i, "true") then (True, i + 4)
    else if StartsWith(s, i, "false") then (False, i + 5)
    else if StartsWith(s, i, "null") then (Null, i + 4)
    else if IsNumStart(ch) then (Number, NumEnd(s, i + 1))
    else (Other, i + 1)
  }

  /** The token the lexer yields at index i. */
  function NextToken(s: string, i: nat): (t: Token)
    requires i < |s|
    ensures 0 < |t.lex| <= |s| - i && t.lex == s[i..i + |t.lex|]
    ensures t.kind == WS <==> IsWs(s[i])
  {
    var r := Scan(s, i);
    Token(r.0, s[i..r.1])
  }

  /** The tokens yielded from index i on. */
  function LexFrom(s: string, i: nat): seq<Token>
    decreases |s| - i
  {
    if i >= |s| then []
    else
      var t := NextToken(s, i);
      [t] + LexFrom(s, i + |t.lex|)
  }

  function Lex(s: string): seq<Token> {
    LexFrom(s, 0)
  }

  /** The lexemes of a token sequence, joined. */
  function Concat(ts: seq<Token>): string {
    if ts == [] then [] else ts[0].lex + Concat(ts[1..])
  }

  /** The end of the whitespace run that continues at j, found by a loop. */
  method SkipWs(s: string, j0: nat) returns (j: nat)
    requires j0 <= |s|
    ensures j == WsEnd(s, j0)
  {
    j := j0;
    while j < |s| && (s[j] == ' ' || s[j] == '\t' || s[j] == '\r' || s[j] == '\n')
      invariant j0 <= j <= |s| && WsEnd(s, j) == WsEnd(s, j0)
      decreases |s| - j
    {
      j := j + 1;
    }
  }

  /** The end of the number that continues at j, found by a loop. */
  method SkipNumber(s: string, j0: nat) returns (j: nat)
    requires j0 <= |s|
    ensures j == NumEnd(s, j0)
  {
    j := j0;
    while j < |s| && IsNumChar(s[j])
      invariant j0 <= j <= |s| && NumEnd(s, j) == NumEnd(s, j0)
      decreases |s| - j
    {
      j := j + 1;
    }
  }

  /** The end of the string literal opened by `quote` just before j0. */
  method SkipString(s: string, j0: nat, quote: char) returns (j: nat)
    requires j0 <= |s| && quote != '\\'
    ensures j == StrEnd(s, j0, quote, false)
  {
    j := j0;
    var esc := false;
    while j < |s|
      invariant j0 <= j <= |s| && StrEnd(s, j, quote, esc) == StrEnd(s, j0, quote, false)
      decreases |s| - j
    {
      var c := s[j];
      if esc {
        esc := false;
      } else if c == '\\' {
        esc := true;
      } else if c == quote {
        j := j + 1;
        break;
      }
      j := j + 1;
    }
  }

  /** One pass of the generator loop: the kind of the token at i and where
      it ends. */
  method ScanAt(s: string, i: nat) returns (kind: Kind, j: nat)
    requires i < |s|
    ensures (kind, j) == Scan(s, i)
  {
    var ch := s[i];
    if IsWs(ch) {
      j := SkipWs(s, i + 1);
      kind := WS;
    } else if IsPunct(ch) {
      kind, j := PunctKind(ch), i + 1;
    } else if ch == '"' || ch == '\'' {
      j := SkipString(s, i + 1, ch);
      kind := Str;
    } else if StartsWith(s, i, "true") {
      kind, j := True, i + 4;
    } else if StartsWith(s, i, "false") {
      kind, j := False, i + 5;
    } else if StartsWith(s, i, "null") {
      kind, j := Null, i + 4;
    } else if IsNumStart(ch) {
      j := SkipNumber(s, i + 1);
      kind := Number;
    } else {
      kind, j := Other, i + 1;
    }
  }

  /** list(_json_tokenize(s)) */
  method Tokenize(s: string) returns (toks: seq<Token>)
    ensures toks == Lex(s)
  {
    toks := [];
    var i: nat, n := 0, |s|;
    while i < n
      invariant i <= n
      invariant toks + LexFrom(s, i) == Lex(s)
      decreases n - i
    {
      var kind, j := ScanAt(s, i);
      var t := Token(kind, s[i..j]);
      LexFromStep(s, i);
      assert LexFrom(s, i) == [t] + LexFrom(s, j);
      assert (toks + [t]) + LexFrom(s, j) == toks + LexFrom(s, i);
      toks := toks + [t];
      i := j;
    }
  }

  /** One step of the lexer. */
  lemma LexFromStep(s: string, i: nat)
    requires i < |s|
    ensures LexFrom(s, i) == [Token(Scan(s, i).0, s[i..Scan(s, i).1])] + LexFrom(s, Scan(s, i).1)
  {
  }

  /** The lexer is lossless: the lexemes, joined in order, give back the
      input exactly. */
  lemma {:induction false} LexFromConcat(s: string, i: nat)
    requires i <= |s|
    ensures Concat(LexFrom(s, i)) == s[i..]
    decreases |s| - i
  {
    if i < |s| {
      var e := Scan(s, i).1;
      var t := Token(Scan(s, i).0, s[i..e]);
      LexFromConcat(s, e);
      LexFromStep(s, i);
      ConcatCons(t, LexFrom(s, e));
      SuffixSplit(s, i, e);
    }
  }

  lemma ConcatCons(t: Token, ts: seq<Token>)
    ensures Concat([t] + ts) == t.lex + Concat(ts)
  {
    assert ([t] + ts)[1..] == ts;
  }

  /** Every token covers at least one character, and no whitespace token
      directly follows another. */
  predicate WellShaped(ts: seq<Token>) {
    (forall k :: 0 <= k < |ts| ==> ts[k].lex != [])
    && (forall k :: 0 <= k < |ts| - 1 ==> !(ts[k].kind == WS && ts[k + 1].kind == WS))
  }

  lemma ShapeCons(t: Token, ts: seq<Token>)
    requires t.lex != [] && WellShaped(ts)
    requires t.kind == WS && ts != [] ==> ts[0].kind != WS
    ensures WellShaped([t] + ts)
  {
    var r := [t] + ts;
    forall k | 0 <= k < |r| ensures r[k].lex != [] {
      if k > 0 { assert r[k] == ts[k - 1]; }
    }
    forall k | 0 <= k < |r| - 1 ensures !(r[k].kind == WS && r[k + 1].kind == WS) {
      if k > 0 { assert r[k] == ts[k - 1] && r[k + 1] == ts[k]; }
    }
  }

  lemma {:induction false} LexFromShape(s: string, i: nat)
    ensures WellShaped(LexFrom(s, i))
    decreases |s| - i
  {
    if i < |s| {
      var e := Scan(s, i).1;
      var t := Token(Scan(s, i).0, s[i..e]);
      LexFromShape(s, e);
      LexFromStep(s, i);
      if t.kind == WS && e < |s| {
        assert e == WsEnd(s, i + 1);
        LexFromStep(s, e);
      }
      ShapeCons(t, LexFrom(s, e));
    }
  }

  /** The whole lexer: lossless, with non-empty tokens and no two whitespace
      tokens in a row. */
  lemma LexRoundTrip(s: string)
    ensures Concat(Lex(s)) == s
    ensures forall k :: 0 <= k < |Lex(s)| ==> Lex(s)[k].lex != []
    ensures forall k :: 0 <= k < |Lex(s)| - 1 ==> !(Lex(s)[k].kind == WS && Lex(s)[k + 1].kind == WS)
  {
    LexFromConcat(s, 0);
    LexFromShape(s, 0);
  }

  /** The number of backslashes directly before index p, not looking before
      index lo. */
  function BackslashRun(s: string, lo: nat, p: nat): (n: nat)
    requires lo <= p <= |s|
    ensures n <= p - lo
    decreases p - lo
  {
    if lo < p && s[p - 1] == '\\' then BackslashRun(s, lo, p - 1) + 1 else 0
  }

  /** The character at p is escaped: an odd number of backslashes, counted
      from lo, stands right before it. */
  predicate EscapedAt(s: string, lo: nat, p: nat)
    requires lo <= p <= |s|
  {
    BackslashRun(s, lo, p) % 2 == 1
  }

  /** The string scan from j, with its pending escape, never meets an
      unescaped quote, so it runs to the end of the input. */
  lemma {:induction false} StrEndRunsOut(s: string, lo: nat, j: nat, quote: char, esc: bool)
    requires lo <= j <= |s| && quote != '\\'
    requires esc == EscapedAt(s, lo, j)
    requires forall p :: j <= p < |s| && s[p] == quote ==> EscapedAt(s, lo, p)
    ensures StrEnd(s, j, quote, esc) == |s|
    decreases |s| - j
  {
    if j < |s| {
      assert !(!esc && s[j] == quote);
      assert BackslashRun(s, lo, j + 1) == if s[j] == '\\' then BackslashRun(s, lo, j) + 1 else 0;
      StrEndRunsOut(s, lo, j + 1, quote, !esc && s[j] == '\\');
    }
  }

  /** A string literal in which every later occurrence of its quote is
      escaped (an odd run of backslashes before it) has no closing quote:
      it is one STRING token running to the end of the input, and the lexer
      does not fail. */
  lemma {:induction false} UnterminatedString(s: string, i: nat)
    requires i < |s| && (s[i] == '"' || s[i] == '\'')
    requires forall p :: i < p < |s| && s[p] == s[i] ==> EscapedAt(s, i + 1, p)
    ensures LexFrom(s, i) == [Token(Str, s[i..])]
  {
    StrEndRunsOut(s, i + 1, i + 1, s[i], false);
    assert Scan(s, i) == (Str, |s|);
    assert s[i..|s|] == s[i..];
    assert NextToken(s, i) == Token(Str, s[i..]);
    assert LexFrom(s, |s|) == [];
  }

  /** A backslash escapes the character after it, so an escaped quote does
      not close the literal. */
  lemma EscapedQuoteDoesNotClose(s: string, j: nat, quote: char)
    requires quote != '\\'
    requires j + 1 < |s| && s[j] == '\\' && s[j + 1] == quote
    ensures StrEnd(s, j, quote, false) == StrEnd(s, j + 2, quote, false)
  {
    assert StrEnd(s, j, quote, false) == StrEnd(s, j + 1, quote, true);
  }
}
