/** bereinigeJSON in streamlit_app.py: the older sanitiser. It removes
    fences, maps typographic quotes and dashes, removes trailing commas and
    trims; it does not strip comments. */
module Cleanup {
  import opened Text
  import opened Substitutions
  import opened Sanitizer

  /** The replacement table, in dict order: typographic double quotes become
      `"`, typographic single quotes become `'`, en and em dashes become
      `-`. */
  const Replacements: seq<(string, string)> := [
    ("\U{201C}", "\""), ("\U{201D}", "\""), ("\U{201E}", "\""),
    ("\U{2018}", "'"), ("\U{201A}", "'"), ("\U{2019}", "'"),
    ("\U{2013}", "-"), ("\U{2014}", "-")
  ]

  /** The replacement table as the characters of streamlit_app.py:141-145
      stand: as in SMART_QUOTES, the leading `"""` opens a triple-quoted
      key, so the curly double quotes are no keys and `'` maps to itself. */
  const ReplacementsAsWritten: seq<(string, string)> := [
    (": '\"', ", "\""), ("\U{201E}", "\""), ("'", "'"), ("\U{201A}", "'"),
    ("\U{2013}", "-"), ("\U{2014}", "-")
  ]

  predicate IsDash(c: char) {
    c == '\U{2013}' || c == '\U{2014}'
  }

  /** What the table does to one character. */
  function CleanOf(c: char): char {
    if IsDash(c) then '-' else QuoteOf(c)
  }

  /** `for old, new in replacements.items(): text = text.replace(old, new)` */
  function Replace(s: string): string {
    ReplaceChain(s, Replacements)
  }

  function ReplaceAsWritten(s: string): string {
    ReplaceChain(s, ReplacementsAsWritten)
  }

  /** bereinigeJSON(text) */
  function BereinigeJson(text: string): string {
    Strip(DropTrailingCommas(Replace(RemoveFences(text))))
  }

  /** The table rewrites each character on its own, as CleanOf says. */
  lemma ReplacementsCharwise(s: string)
    ensures |Replace(s)| == |s|
    ensures forall k :: 0 <= k < |s| ==> Replace(s)[k] == CleanOf(s[k])
  {
    ReplaceChainCharwise(s, Replacements);
    forall k | 0 <= k < |s| ensures Replace(s)[k] == CleanOf(s[k]) {
      ReplacementsChar(s[k]);
    }
  }

  /** The table, applied to one character. */
  lemma ReplacementsChar(c: char)
    ensures CharChain(c, Replacements) == CleanOf(c)
  {
    var t := Replacements;
    assert t[1..][1..][1..][1..][1..][1..][1..][1..] == [];
  }

  /** A character-for-character rewrite that neither creates nor removes
      backticks keeps a text free of fences. */
  lemma NoFenceCharwise(s: string, r: string)
    requires NoFence(s) && |r| == |s|
    requires forall k :: 0 <= k < |s| ==> (r[k] == '`' <==> s[k] == '`')
    ensures NoFence(r)
  {
    forall k | 0 <= k < |r| ensures !FenceAt(r, k) {
      assert !FenceAt(s, k);
    }
  }

  /** The table leaves no typographic quote and no dash, and creates no
      fence. */
  lemma ReplaceClean(f: string)
    requires NoFence(f)
    ensures NoFence(Replace(f))
    ensures forall k :: 0 <= k < |Replace(f)| ==> !IsSmartQuote(Replace(f)[k]) && !IsDash(Replace(f)[k])
  {
    var q := Replace(f);
    ReplacementsCharwise(f);
    forall k | 0 <= k < |q|
      ensures !IsSmartQuote(q[k]) && !IsDash(q[k]) && (q[k] == '`' <==> f[k] == '`')
    {
      assert q[k] == CleanOf(f[k]);
    }
    NoFenceCharwise(f, q);
  }

  /** Before the final trim: no fence, no typographic quote, no dash. */
  lemma ReplacedAndDropped(f: string)
    requires NoFence(f)
    ensures var d := DropTrailingCommas(Replace(f));
      NoFence(d) && forall k :: 0 <= k < |d| ==> !IsSmartQuote(d[k]) && !IsDash(d[k])
  {
    var q := Replace(f);
    var d := DropTrailingCommas(q);
    ReplaceClean(f);
    assert NoFence(d) by {
      DropTrailingCommasNoFence(q);
    }
    DropTrailingCommasSubseq(q);
    AllSubseq(d, q, c => !IsSmartQuote(c) && !IsDash(c));
  }

  /** Trimming keeps a text free of fences, typographic quotes and dashes. */
  lemma StripKeepsClean(d: string, r: string)
    requires NoFence(d)
    requires forall k :: 0 <= k < |d| ==> !IsSmartQuote(d[k]) && !IsDash(d[k])
    requires r == Strip(d)
    ensures NoFence(r) && (forall k :: 0 <= k < |r| ==> !IsSmartQuote(r[k]) && !IsDash(r[k]))
    ensures r == [] || (!IsSpace(r[0]) && !IsSpace(r[|r| - 1]))
    ensures exists lo :: InfixAt(r, d, lo)
  {
    StripIsInfix(d);
    var lo :| InfixAt(r, d, lo);
    assert NoFence(r) by {
      NoFenceInfix(d, r, lo);
    }
    AllInfix(r, d, lo, c => !IsSmartQuote(c) && !IsDash(c));
  }

  /** The result is trimmed, holds no fence, no typographic quote and no
      en or em dash, and is a piece of the rewritten text after trailing
      commas are gone. */
  lemma BereinigeJsonProperties(text: string)
    ensures var r := BereinigeJson(text);
      (r == [] || (!IsSpace(r[0]) && !IsSpace(r[|r| - 1])))
      && NoFence(r)
      && (forall k :: 0 <= k < |r| ==> !IsSmartQuote(r[k]) && !IsDash(r[k]))
      && (exists lo :: InfixAt(r, DropTrailingCommas(Replace(RemoveFences(text))), lo))
  {
    var f := RemoveFences(text);
    var d := DropTrailingCommas(Replace(f));
    var r := BereinigeJson(text);
    assert r == Strip(d);
    ReplacedAndDropped(f);
    StripKeepsClean(d, r);
  }

  /** As written, a curly double quote survives; the intended table maps it. */
  lemma CurlyQuoteSurvivesCleanupAsWritten()
    ensures ReplaceAsWritten("\U{201D}") == "\U{201D}"
    ensures Replace("\U{201D}") == "\""
  {
    CurlyQuoteKeptAsWritten();
    CurlyQuoteMapped();
  }

  lemma CurlyQuoteKeptAsWritten()
    ensures ReplaceAsWritten("\U{201D}") == "\U{201D}"
  {
    var t := ReplacementsAsWritten;
    var c := "\U{201D}";
    assert ReplaceAll(c, t[0].0, t[0].1) == c;
    ReplaceCharAt(c, '\U{201E}', '"');
    ReplaceCharAt(c, '\'', '\'');
    ReplaceCharAt(c, '\U{201A}', '\'');
    ReplaceCharAt(c, '\U{2013}', '-');
    ReplaceCharAt(c, '\U{2014}', '-');
    assert t[1..][1..][1..][1..][1..][1..] == [];
  }

  lemma CurlyQuoteMapped()
    ensures Replace("\U{201D}") == "\""
  {
    ReplacementsCharwise("\U{201D}");
  }
}
