/** sanitize_json_text and its helpers in main_app.py: fence removal, the
    SMART_QUOTES table, JavaScript-comment stripping and trailing-comma
    removal, applied in that order. */
module Sanitizer {
  import opened Text
  import opened Substitutions

  // ---------------------------------------------------------------- quotes

  /** SMART_QUOTES, in dict order: the three typographic double quotes
      become `"`; of the single quotes only the German pair, U+2018 and
      the low U+201A, become `'`. The table has no key for U+2019. */
  const SmartQuotes: seq<(string, string)> := [
    ("\U{201C}", "\""), ("\U{201D}", "\""), ("\U{201E}", "\""),
    ("\U{2018}", "'"), ("\U{201A}", "'")
  ]

  /** The right single quote (also the typographic apostrophe): the one
      typographic quote SMART_QUOTES has no key for. */
  const Unmapped: char := '\U{2019}'

  /** The six typographic quotes. */
  predicate IsSmartQuote(c: char) {
    c == '\U{201C}' || c == '\U{201D}' || c == '\U{201E}'
    || c == '\U{2018}' || c == '\U{2019}' || c == '\U{201A}'
  }

  /** `for k, v in table.items(): t = t.replace(k, v)` */
  function ReplaceChain(s: string, table: seq<(string, string)>): string
    requires forall e :: e in table ==> e.0 != []
    decreases |table|
  {
    if table == [] then s else ReplaceChain(ReplaceAll(s, table[0].0, table[0].1), table[1..])
  }

  function NormalizeQuotes(s: string): string {
    ReplaceChain(s, SmartQuotes)
  }

  /** Each typographic quote as its ASCII quote. */
  function QuoteOf(c: char): char {
    if c == '\U{201C}' || c == '\U{201D}' || c == '\U{201E}' then '"'
    else if c == '\U{2018}' || c == '\U{2019}' || c == '\U{201A}' then '\''
    else c
  }

  /** What SMART_QUOTES does to one character: QuoteOf, except for the
      quote it has no key for. */
  function SmartQuoteOf(c: char): char {
    if c == Unmapped then c else QuoteOf(c)
  }

  /** A one-character replacement rewrites each character on its own. */
  lemma {:induction false} ReplaceCharAt(s: string, c: char, d: char)
    ensures var r := ReplaceAll(s, [c], [d]);
      |r| == |s| && forall k :: 0 <= k < |s| ==> r[k] == (if s[k] == c then d else s[k])
    decreases |s|
  {
    if s != [] {
      ReplaceCharAt(s[1..], c, d);
      var r := ReplaceAll(s, [c], [d]);
      var rest := ReplaceAll(s[1..], [c], [d]);
      assert r == [if s[0] == c then d else s[0]] + rest;
    }
  }

  /** What a table of one-character replacements does to one character. */
  function CharChain(c: char, table: seq<(string, string)>): char
    requires forall e :: e in table ==> |e.0| == 1 && |e.1| == 1
    decreases |table|
  {
    if table == [] then c
    else CharChain(if c == table[0].0[0] then table[0].1[0] else c, table[1..])
  }

  /** A chain of one-character replacements rewrites each character on its
      own, as CharChain says. */
  lemma {:induction false} ReplaceChainCharwise(s: string, table: seq<(string, string)>)
    requires forall e :: e in table ==> |e.0| == 1 && |e.1| == 1
    ensures |ReplaceChain(s, table)| == |s|
    ensures forall k :: 0 <= k < |s| ==> ReplaceChain(s, table)[k] == CharChain(s[k], table)
    decreases |table|
  {
    if table != [] {
      var c, d := table[0].0[0], table[0].1[0];
      assert table[0].0 == [c] && table[0].1 == [d];
      var s1 := ReplaceAll(s, [c], [d]);
      ReplaceCharAt(s, c, d);
      assert forall e :: e in table[1..] ==> e in table;
      ReplaceChainCharwise(s1, table[1..]);
    }
  }

  /** Applying the table's replacements one after the other maps every
      typographic quote it has a key for to its ASCII quote and leaves every
      other character where it was; a typographic quote is left exactly
      where the text held U+2019. */
  lemma NormalizeQuotesCharwise(s: string)
    ensures |NormalizeQuotes(s)| == |s|
    ensures forall k :: 0 <= k < |s| ==> NormalizeQuotes(s)[k] == SmartQuoteOf(s[k])
    ensures forall k :: 0 <= k < |s| ==> (IsSmartQuote(NormalizeQuotes(s)[k]) <==> s[k] == Unmapped)
  {
    ReplaceChainCharwise(s, SmartQuotes);
    forall c: char ensures CharChain(c, SmartQuotes) == SmartQuoteOf(c) {
      var t := SmartQuotes;
      assert t[1..][1..][1..][1..][1..] == [];
    }
  }

  /** SMART_QUOTES as the characters of main_app.py:18-21 stand: the
      leading `"""` opens a triple-quoted string, so the first key is the
      seven characters `: '"', `, the curly double quotes are no keys at all
      and `'` is mapped to itself. */
  const SmartQuotesAsWritten: seq<(string, string)> := [
    (": '\"', ", "\""), ("\U{201E}", "\""), ("'", "'"), ("\U{201A}", "'")
  ]

  function NormalizeQuotesAsWritten(s: string): string {
    ReplaceChain(s, SmartQuotesAsWritten)
  }

  /** As written, a curly double quote survives; the intended table maps
      it to an ASCII quote. */
  lemma CurlyQuoteSurvivesAsWritten()
    ensures NormalizeQuotesAsWritten("\U{201C}") == "\U{201C}"
    ensures NormalizeQuotes("\U{201C}") == "\""
  {
    var t := SmartQuotesAsWritten;
    var c := "\U{201C}";
    assert ReplaceAll(c, t[0].0, t[0].1) == c;
    ReplaceCharAt(c, '\U{201E}', '"');
    ReplaceCharAt(c, '\'', '\'');
    ReplaceCharAt(c, '\U{201A}', '\'');
    assert t[1..][1..][1..][1..] == [];
    NormalizeQuotesCharwise(c);
  }

  /** As written, the seven characters `: '"', ` (a key, a colon and a
      single-quoted `"` in loose JSON) collapse to a single `"`. */
  lemma AsWrittenTableEatsText()
    ensures NormalizeQuotesAsWritten(": '\"', ") == "\""
  {
    var t := SmartQuotesAsWritten;
    var q := "\"";
    assert ReplaceAll([], t[0].0, t[0].1) == [];
    assert ReplaceAll(t[0].0, t[0].0, t[0].1) == q;
    assert ReplaceAll(q, t[1].0, t[1].1) == q;
    assert ReplaceAll(q, t[2].0, t[2].1) == q;
    assert ReplaceAll(q, t[3].0, t[3].1) == q;
    assert t[1..][1..][1..][1..] == [];
  }

  // -------------------------------------------------------------- comments

  predicate IsQuote(c: char) {
    c == '"' || c == '\''
  }

  /** Where a `//` comment starting its body at j stops: the first '\r' or
      '\n' at or after j, or the end. */
  function LineEnd(s: string, j: nat): (e: nat)
    requires j <= |s|
    ensures j <= e <= |s|
    ensures e < |s| ==> s[e] == '\r' || s[e] == '\n'
    ensures forall k :: j <= k < e ==> s[k] != '\r' && s[k] != '\n'
    decreases |s| - j
  {
    if j == |s| || s[j] == '\r' || s[j] == '\n' then j else LineEnd(s, j + 1)
  }

  /** Where the scan of a `/*` comment body starting at j stops: at the `*`
      of the first `*/`, or at the last character when there is none. */
  function BlockEnd(s: string, j: nat): (e: nat)
    requires j <= |s|
    ensures j <= e && (e <= |s| - 1 || e == j)
    ensures e + 1 < |s| ==> s[e] == '*' && s[e + 1] == '/'
    ensures forall k :: j <= k < e ==> !(s[k] == '*' && s[k + 1] == '/')
    decreases |s| - j
  {
    if j + 1 >= |s| || (s[j] == '*' && s[j + 1] == '/') then j else BlockEnd(s, j + 1)
  }

  /** One turn of the loop of _strip_js_comments at index i: what it
      appends, where it continues and the new quote and escape flags. */
  datatype Turn = Turn(emit: string, next: nat, inStr: bool, esc: bool)

  function StripTurn(s: string, i: nat, inStr: bool, esc: bool): (t: Turn)
    requires i < |s|
    ensures t.next > i
  {
    var ch := s[i];
    if inStr then
      if esc then Turn([ch], i + 1, true, false)
      else if ch == '\\' then Turn([ch], i + 1, true, true)
      else if IsQuote(ch) then Turn([ch], i + 1, false, false)
      else Turn([ch], i + 1, true, false)
    else if IsQuote(ch) then Turn([ch], i + 1, true, esc)
    else if ch == '/' && i + 1 < |s| && s[i + 1] == '/' then Turn([], LineEnd(s, i + 2), false, esc)
    else if ch == '/' && i + 1 < |s| && s[i + 1] == '*' then Turn([], BlockEnd(s, i + 2) + 2, false, esc)
    else Turn([ch], i + 1, false, esc)
  }

  /** The output of _strip_js_comments from index i on, in quote state
      `inStr` with a pending escape `esc`. */
  function StripFrom(s: string, i: nat, inStr: bool, esc: bool): string
    decreases |s| - i
  {
    if i >= |s| then []
    else
      var t := StripTurn(s, i, inStr, esc);
      t.emit + StripFrom(s, t.next, t.inStr, t.esc)
  }

  function StripComments(s: string): string {
    StripFrom(s, 0, false, false)
  }

  /** _strip_js_comments: one pass with a quote flag and an escape flag. */
  method StripJsComments(s: string) returns (r: string)
    ensures r == StripComments(s)
  {
    var out: string := [];
    var i: nat, n, inStr, esc := 0, |s|, false, false;
    while i < n
      invariant out + StripFrom(s, i, inStr, esc) == StripComments(s)
      decreases n - i
    {
      ghost var turn := StripTurn(s, i, inStr, esc);
      ghost var before := out;
      assert before + StripFrom(s, i, inStr, esc) == before + turn.emit + StripFrom(s, turn.next, turn.inStr, turn.esc);
      var ch := s[i];
      if inStr {
        out := out + [ch];
        if esc {
          esc := false;
        } else if ch == '\\' {
          esc := true;
        } else if ch == '"' || ch == '\'' {
          inStr := false;
        }
        i := i + 1;
      } else if ch == '"' || ch == '\'' {
        inStr := true;
        out := out + [ch];
        i := i + 1;
      } else if ch == '/' && i + 1 < n && s[i + 1] == '/' {
        i := i + 2;
        while i < n && s[i] != '\r' && s[i] != '\n'
          invariant i <= n && LineEnd(s, i) == turn.next
          decreases n - i
        {
          i := i + 1;
        }
      } else if ch == '/' && i + 1 < n && s[i + 1] == '*' {
        i := i + 2;
        while i + 1 < n && !(s[i] == '*' && s[i + 1] == '/')
          invariant i <= n && BlockEnd(s, i) + 2 == turn.next
          decreases n - i
        {
          i := i + 1;
        }
        i := i + 2;
      } else {
        out := out + [ch];
        i := i + 1;
      }
      assert out == before + turn.emit && i == turn.next && inStr == turn.inStr && esc == turn.esc;
    }
    r := out;
  }

  /** Comment stripping only deletes characters. */
  lemma {:induction false} StripFromSubseq(s: string, i: nat, inStr: bool, esc: bool)
    requires i <= |s|
    ensures IsSubseq(StripFrom(s, i, inStr, esc), s[i..])
    decreases |s| - i
  {
    if i < |s| {
      var t := StripTurn(s, i, inStr, esc);
      var rest := StripFrom(s, t.next, t.inStr, t.esc);
      assert StripFrom(s, i, inStr, esc) == t.emit + rest;
      if t.next > |s| {
        assert t.emit + rest == [];
      } else {
        StripFromSubseq(s, t.next, t.inStr, t.esc);
        if t.emit == [] {
          assert t.emit + rest == rest;
          SubseqSuffix(rest, s, i, t.next);
        } else {
          assert t.emit == [s[i]] && t.next == i + 1;
          SubseqKeepHead(rest, s, i);
        }
      }
    }
  }

  lemma StripCommentsSubseq(s: string)
    ensures IsSubseq(StripComments(s), s)
  {
    StripFromSubseq(s, 0, false, false);
  }

  /** Where a quoted region that has reached index j ends: just after the
      first unescaped quote character of either kind, or at the end. */
  function QuoteEnd(s: string, j: nat, esc: bool): (e: nat)
    requires j <= |s|
    ensures j <= e <= |s|
    decreases |s| - j
  {
    if j == |s| then j
    else if esc then QuoteEnd(s, j + 1, false)
    else if s[j] == '\\' then QuoteEnd(s, j + 1, true)
    else if IsQuote(s[j]) then j + 1
    else QuoteEnd(s, j + 1, false)
  }

  /** One step inside a quoted region: the character is copied, and the
      flags move on as StripTurn says. */
  lemma StripFromQuoted(s: string, j: nat, esc: bool)
    requires j < |s|
    ensures StripFrom(s, j, true, esc)
            == [s[j]] + StripFrom(s, j + 1, esc || !IsQuote(s[j]), !esc && s[j] == '\\')
  {
  }

  /** Inside a quoted region every character is copied as it stands, comment
      markers included, up to and including the closing quote. */
  lemma {:induction false} QuotedRegionVerbatim(s: string, j: nat, esc: bool)
    requires j <= |s|
    ensures StripFrom(s, j, true, esc) == s[j..QuoteEnd(s, j, esc)] + StripFrom(s, QuoteEnd(s, j, esc), false, false)
    decreases |s| - j
  {
    if j < |s| {
      var e := QuoteEnd(s, j, esc);
      StripFromQuoted(s, j, esc);
      SliceHead(s, j, e);
      if esc || !IsQuote(s[j]) {
        var esc2 := !esc && s[j] == '\\';
        assert e == QuoteEnd(s, j + 1, esc2);
        QuotedRegionVerbatim(s, j + 1, esc2);
        AppendJoin([s[j]], s[j + 1..e], StripFrom(s, e, false, false),
                 StripFrom(s, j, true, esc), StripFrom(s, j + 1, true, esc2), s[j..e]);
      } else {
        assert e == j + 1;
        AppendJoin([s[j]], s[j + 1..e], StripFrom(s, e, false, false),
                 StripFrom(s, j, true, esc), StripFrom(s, j + 1, false, false), s[j..e]);
      }
    }
  }

  /** A `//` comment is dropped up to, not including, its line break, which
      is kept; scanning resumes outside any string. */
  lemma LineCommentDropped(s: string, i: nat)
    requires i + 1 < |s| && s[i] == '/' && s[i + 1] == '/'
    ensures var e := LineEnd(s, i + 2);
      StripFrom(s, i, false, false) == if e == |s| then [] else [s[e]] + StripFrom(s, e + 1, false, false)
  {
  }

  /** An unterminated block comment swallows the rest of the input. */
  lemma UnterminatedBlockDropsRest(s: string, i: nat)
    requires i + 1 < |s| && s[i] == '/' && s[i + 1] == '*'
    requires forall k :: i + 2 <= k < |s| - 1 ==> !(s[k] == '*' && s[k + 1] == '/')
    ensures StripFrom(s, i, false, false) == []
  {
    var e := BlockEnd(s, i + 2);
    assert e + 2 > |s|;
  }

  /** A string opened by one kind of quote is closed by the other kind: after
      `'a"` the `//` starts a comment. */
  lemma EitherQuoteCloses()
    ensures StripComments("'a\"//x") == "'a\""
  {
    var s := "'a\"//x";
    assert s[0] == '\'' && s[1] == 'a' && s[2] == '"' && s[3] == '/' && s[4] == '/';
    assert LineEnd(s, 5) == 6;
    assert StripFrom(s, 3, false, false) == [];
    assert StripFrom(s, 2, true, false) == "\"";
    assert StripFrom(s, 1, true, false) == "a\"";
  }

  // -------------------------------------------------------------- pipeline

  /** sanitize_json_text: fences, then quotes, then comments, then trailing
      commas. */
  function SanitizeJsonText(text: string): string {
    DropTrailingCommas(StripComments(NormalizeQuotes(RemoveFences(text))))
  }

  /** The sanitised text is the fence-free, quote-normalised text with
      characters deleted, and the only typographic quote it can hold is the
      U+2019 the table has no key for. */
  lemma SanitizeJsonTextProperties(text: string)
    ensures IsSubseq(SanitizeJsonText(text), NormalizeQuotes(RemoveFences(text)))
    ensures forall k :: 0 <= k < |SanitizeJsonText(text)| && IsSmartQuote(SanitizeJsonText(text)[k]) ==>
      SanitizeJsonText(text)[k] == Unmapped
  {
    var q := NormalizeQuotes(RemoveFences(text));
    var c := StripComments(q);
    var r := SanitizeJsonText(text);
    StripCommentsSubseq(q);
    DropTrailingCommasSubseq(c);
    SubseqTrans(r, c, q);
    SubseqMembers(r, q);
    NormalizeQuotesCharwise(RemoveFences(text));
    forall k | 0 <= k < |r| && IsSmartQuote(r[k]) ensures r[k] == Unmapped {
      assert r[k] in r;
      var m :| 0 <= m < |q| && q[m] == r[k];
    }
  }
}
