/** The regular-expression substitutions both sanitisers share, written out
    as scans over the string: fence removal (re.sub of "```(?:json)?\s*"
    followed by .replace("```", "") and .strip()) and trailing-comma removal
    (re.sub of ",\s*(?=[}\]])"). */
module Substitutions {
  import opened Text

  /** Three backticks start at index k. */
  predicate FenceAt(s: string, k: int) {
    0 <= k && k + 3 <= |s| && s[k] == '`' && s[k + 1] == '`' && s[k + 2] == '`'
  }

  predicate NoFence(s: string) {
    forall k :: 0 <= k < |s| ==> !FenceAt(s, k)
  }

  /** The optional `json` tag under re.IGNORECASE: Python's case folding also
      lets U+017F LATIN SMALL LETTER LONG S stand for `s`. */
  predicate JsonTag(s: string) {
    |s| >= 4
    && (s[0] == 'j' || s[0] == 'J')
    && (s[1] == 's' || s[1] == 'S' || s[1] == '\U{17F}')
    && (s[2] == 'o' || s[2] == 'O')
    && (s[3] == 'n' || s[3] == 'N')
  }

  /** re.sub(r"```(?:json)?\s*", "", s, flags=re.IGNORECASE): at each scan
      position a fence, an optional tag and the whitespace after it go. */
  function FenceSub(s: string): string
    decreases |s|
  {
    if |s| >= 3 && s[..3] == "```" then
      FenceSub(LStrip(if JsonTag(s[3..]) then s[7..] else s[3..]))
    else if s == [] then []
    else [s[0]] + FenceSub(s[1..])
  }

  /** The fence step of both sanitisers: the regex, then .replace("```", ""),
      then .strip(). No fence is left and the result is trimmed. */
  function RemoveFences(s: string): (r: string)
    ensures NoFence(r)
    ensures r == [] || (!IsSpace(r[0]) && !IsSpace(r[|r| - 1]))
  {
    var t := ReplaceAll(FenceSub(s), "```", "");
    NoFenceAfterReplace(FenceSub(s));
    StripIsInfix(t);
    var a :| InfixAt(Strip(t), t, a);
    NoFenceInfix(t, Strip(t), a);
    Strip(t)
  }

  lemma {:induction false} NoFenceInfix(s: string, r: string, lo: int)
    requires NoFence(s) && InfixAt(r, s, lo)
    ensures NoFence(r)
  {
    forall k | 0 <= k < |r| ensures !FenceAt(r, k) {
      if FenceAt(r, k) { assert FenceAt(s, lo + k); }
    }
  }

  /** Backticks at the head of a replaced string were already at the head
      of its input. */
  lemma {:induction false} ReplaceLeadingTicks(t: string)
    ensures var r := ReplaceAll(t, "```", "");
      (|r| >= 1 && r[0] == '`' ==> |t| >= 1 && t[0] == '`')
      && (|r| >= 2 && r[0] == '`' && r[1] == '`' ==> |t| >= 2 && t[0] == '`' && t[1] == '`')
    decreases |t|
  {
    if |t| >= 3 {
      if t[..3] == "```" {
        assert t[0] == '`' && t[1] == '`';
      } else {
        ReplaceLeadingTicks(t[1..]);
      }
    }
  }

  /** After .replace("```", "") no three backticks remain. */
  lemma {:induction false} NoFenceAfterReplace(t: string)
    ensures NoFence(ReplaceAll(t, "```", ""))
    decreases |t|
  {
    var r := ReplaceAll(t, "```", "");
    if |t| < 3 {
      assert r == t;
    } else if t[..3] == "```" {
      NoFenceAfterReplace(t[3..]);
      assert r == ReplaceAll(t[3..], "```", "");
    } else {
      var rest := ReplaceAll(t[1..], "```", "");
      assert r == [t[0]] + rest;
      NoFenceAfterReplace(t[1..]);
      ReplaceLeadingTicks(t[1..]);
      assert t[..3] == [t[0], t[1], t[2]];
      forall k | 0 <= k < |r| ensures !FenceAt(r, k) {
        if k > 0 {
          assert !FenceAt(rest, k - 1);
        }
      }
    }
  }

  /** The lookahead of ",\s*(?=[}\]])": whitespace, then a closer. */
  predicate CloserAfterSpaces(t: string) {
    var u := LStrip(t);
    u != [] && (u[0] == '}' || u[0] == ']')
  }

  /** re.sub(r",\s*(?=[}\]])", "", s): a comma followed by whitespace and a
      closer goes together with that whitespace; the scan resumes at the
      closer. */
  function DropTrailingCommas(s: string): string
    decreases |s|
  {
    if s == [] then []
    else if s[0] == ',' && CloserAfterSpaces(s[1..]) then DropTrailingCommas(LStrip(s[1..]))
    else [s[0]] + DropTrailingCommas(s[1..])
  }

  /** The characters other than commas and whitespace, in order. */
  function Solid(s: string): string {
    if s == [] then [] else (if s[0] == ',' || IsSpace(s[0]) then [] else [s[0]]) + Solid(s[1..])
  }

  lemma {:induction false} SolidLStrip(s: string)
    ensures Solid(LStrip(s)) == Solid(s)
    decreases |s|
  {
    if s != [] && IsSpace(s[0]) { SolidLStrip(s[1..]); }
  }

  /** Trailing-comma removal only deletes characters. */
  lemma {:induction false} DropTrailingCommasSubseq(s: string)
    ensures IsSubseq(DropTrailingCommas(s), s)
    decreases |s|
  {
    if s == [] {
    } else if s[0] == ',' && CloserAfterSpaces(s[1..]) {
      var l := LStrip(s[1..]);
      DropTrailingCommasSubseq(l);
      assert l == s[|s| - |l|..];
      SubseqDrop(DropTrailingCommas(l), s, |s| - |l|);
    } else {
      DropTrailingCommasSubseq(s[1..]);
      var r := DropTrailingCommas(s);
      assert r == [s[0]] + DropTrailingCommas(s[1..]);
      assert r[1..] == DropTrailingCommas(s[1..]);
    }
  }

  /** What trailing-comma removal deletes is commas and whitespace only. */
  lemma {:induction false} DropTrailingCommasKeepsSolid(s: string)
    ensures Solid(DropTrailingCommas(s)) == Solid(s)
    decreases |s|
  {
    if s == [] {
    } else if s[0] == ',' && CloserAfterSpaces(s[1..]) {
      DropTrailingCommasKeepsSolid(LStrip(s[1..]));
      SolidLStrip(s[1..]);
    } else {
      var rest := DropTrailingCommas(s[1..]);
      var r := DropTrailingCommas(s);
      assert r == [s[0]] + rest;
      assert r[0] == s[0] && r[1..] == rest;
      DropTrailingCommasKeepsSolid(s[1..]);
    }
  }

  lemma LStripSpacesThen(w: string, t: string)
    requires forall k :: 0 <= k < |w| ==> IsSpace(w[k])
    requires t != [] && !IsSpace(t[0])
    ensures LStrip(w + t) == t
    decreases |w|
  {
    if w != [] {
      assert (w + t)[1..] == w[1..] + t;
      LStripSpacesThen(w[1..], t);
    } else {
      assert w + t == t;
    }
  }

  /** Wherever it stands, a comma followed only by whitespace and then `}`
      or `]` is removed together with that whitespace; the closer and what
      follows it are scanned on, and the text before it is substituted on
      its own. */
  lemma {:induction false} TrailingCommaRemoved(a: string, w: string, c: char, t: string)
    requires forall k :: 0 <= k < |w| ==> IsSpace(w[k])
    requires c == '}' || c == ']'
    ensures DropTrailingCommas(a + ([','] + w + [c] + t)) == DropTrailingCommas(a) + ([c] + DropTrailingCommas(t))
  {
    TrailingCommaAtHead(w, c, t);
    DropTrailingCommasAppend(a, [','] + w + [c] + t);
  }

  /** A trailing comma at the head of the text. */
  lemma {:induction false} TrailingCommaAtHead(w: string, c: char, t: string)
    requires forall k :: 0 <= k < |w| ==> IsSpace(w[k])
    requires c == '}' || c == ']'
    ensures DropTrailingCommas([','] + w + [c] + t) == [c] + DropTrailingCommas(t)
  {
    var s := [','] + w + [c] + t;
    assert s[0] == ',' && s[1..] == w + ([c] + t);
    LStripSpacesThen(w, [c] + t);
    assert CloserAfterSpaces(s[1..]);
    DropTrailingCommasStep(s);
    DropTrailingCommasStep([c] + t);
    assert ([c] + t)[0] == c && ([c] + t)[1..] == t;
  }

  /** Stripping the front of `x + c` strips the front of x, when c does
      not start with whitespace. */
  lemma {:induction false} LStripAppend(x: string, c: string)
    requires c == [] || !IsSpace(c[0])
    ensures LStrip(x + c) == LStrip(x) + c
    decreases |x|
  {
    if x == [] {
      assert x + c == c;
    } else if IsSpace(x[0]) {
      assert (x + c)[1..] == x[1..] + c;
      LStripAppend(x[1..], c);
    } else {
      assert (x + c)[0] == x[0];
    }
  }

  /** A text that starts with neither whitespace nor a closer is substituted
      on its own: a match that starts before it ends before it. */
  lemma {:induction false} DropTrailingCommasAppend(a: string, c: string)
    requires c == [] || (!IsSpace(c[0]) && c[0] != '}' && c[0] != ']')
    ensures DropTrailingCommas(a + c) == DropTrailingCommas(a) + DropTrailingCommas(c)
    decreases |a|
  {
    if a == [] {
      assert a + c == c;
    } else if a[0] == ',' && CloserAfterSpaces(a[1..]) {
      DropTrailingCommasAppend(LStrip(a[1..]), c);
      AppendMatchStep(a, c);
    } else {
      DropTrailingCommasAppend(a[1..], c);
      AppendMissStep(a, c);
    }
  }

  /** The lookahead of a comma does not see past the end of x when c starts
      with neither whitespace nor a closer. */
  lemma {:induction false} CloserAfterSpacesAppend(x: string, c: string)
    requires c == [] || (!IsSpace(c[0]) && c[0] != '}' && c[0] != ']')
    ensures LStrip(x + c) == LStrip(x) + c
    ensures CloserAfterSpaces(x + c) == CloserAfterSpaces(x)
  {
    LStripAppend(x, c);
    if LStrip(x) == [] {
      assert LStrip(x) + c == c;
    } else {
      assert (LStrip(x) + c)[0] == LStrip(x)[0];
    }
  }

  /** The step of DropTrailingCommasAppend at a comma that goes. */
  lemma {:induction false} AppendMatchStep(a: string, c: string)
    requires c == [] || (!IsSpace(c[0]) && c[0] != '}' && c[0] != ']')
    requires a != [] && a[0] == ',' && CloserAfterSpaces(a[1..])
    requires DropTrailingCommas(LStrip(a[1..]) + c) == DropTrailingCommas(LStrip(a[1..])) + DropTrailingCommas(c)
    ensures DropTrailingCommas(a + c) == DropTrailingCommas(a) + DropTrailingCommas(c)
  {
    var s := a + c;
    var l := LStrip(a[1..]);
    AppendTail(a, c);
    assert s[0] == ',' && CloserAfterSpaces(s[1..]) && LStrip(s[1..]) == l + c by {
      CloserAfterSpacesAppend(a[1..], c);
    }
    assert DropTrailingCommas(s) == DropTrailingCommas(l + c) by { CommaGoes(s); }
    assert DropTrailingCommas(a) == DropTrailingCommas(l) by { CommaGoes(a); }
  }

  /** The step of DropTrailingCommasAppend at a character that stays. */
  lemma {:induction false} AppendMissStep(a: string, c: string)
    requires c == [] || (!IsSpace(c[0]) && c[0] != '}' && c[0] != ']')
    requires a != [] && !(a[0] == ',' && CloserAfterSpaces(a[1..]))
    requires DropTrailingCommas(a[1..] + c) == DropTrailingCommas(a[1..]) + DropTrailingCommas(c)
    ensures DropTrailingCommas(a + c) == DropTrailingCommas(a) + DropTrailingCommas(c)
  {
    var s := a + c;
    AppendTail(a, c);
    assert !(s[0] == ',' && CloserAfterSpaces(s[1..])) by {
      CloserAfterSpacesAppend(a[1..], c);
    }
    assert DropTrailingCommas(s) == [a[0]] + DropTrailingCommas(a[1..] + c) by { CharStays(s); }
    assert DropTrailingCommas(a) == [a[0]] + DropTrailingCommas(a[1..]) by { CharStays(a); }
    AppendAssoc([a[0]], DropTrailingCommas(a[1..]), DropTrailingCommas(c));
  }

  /** The step of the substitution at a comma that goes. */
  lemma {:induction false} CommaGoes(s: string)
    requires s != [] && s[0] == ',' && CloserAfterSpaces(s[1..])
    ensures DropTrailingCommas(s) == DropTrailingCommas(LStrip(s[1..]))
  {
  }

  /** The step of the substitution at a character that stays. */
  lemma {:induction false} CharStays(s: string)
    requires s != [] && !(s[0] == ',' && CloserAfterSpaces(s[1..]))
    ensures DropTrailingCommas(s) == [s[0]] + DropTrailingCommas(s[1..])
  {
  }

  /** One step of the substitution. */
  lemma {:induction false} DropTrailingCommasStep(s: string)
    requires s != []
    ensures DropTrailingCommas(s) == if s[0] == ',' && CloserAfterSpaces(s[1..]) then DropTrailingCommas(LStrip(s[1..]))
                                     else [s[0]] + DropTrailingCommas(s[1..])
  {
  }

  /** Leading backticks of the output were leading backticks of the input. */
  lemma {:induction false} DropLeadingTicks(t: string)
    ensures var r := DropTrailingCommas(t);
      (|r| >= 1 && r[0] == '`' ==> |t| >= 1 && t[0] == '`')
      && (|r| >= 2 && r[0] == '`' && r[1] == '`' ==> |t| >= 2 && t[0] == '`' && t[1] == '`')
    decreases |t|
  {
    if t != [] {
      if t[0] == ',' && CloserAfterSpaces(t[1..]) {
        var l := LStrip(t[1..]);
        assert DropTrailingCommas(l) == [l[0]] + DropTrailingCommas(l[1..]);
      } else {
        DropLeadingTicks(t[1..]);
      }
    }
  }

  /** Trailing-comma removal never joins backticks into a fence. */
  lemma {:induction false} DropTrailingCommasNoFence(s: string)
    requires NoFence(s)
    ensures NoFence(DropTrailingCommas(s))
    decreases |s|
  {
    if s == [] {
    } else if s[0] == ',' && CloserAfterSpaces(s[1..]) {
      var l := LStrip(s[1..]);
      NoFenceInfix(s, l, |s| - |l|);
      DropTrailingCommasNoFence(l);
    } else {
      var rest := DropTrailingCommas(s[1..]);
      var r := DropTrailingCommas(s);
      assert r == [s[0]] + rest;
      NoFenceInfix(s, s[1..], 1);
      DropTrailingCommasNoFence(s[1..]);
      DropLeadingTicks(s[1..]);
      assert !FenceAt(s, 0);
      forall k | 0 <= k < |r| ensures !FenceAt(r, k) {
        if k > 0 {
          assert !FenceAt(rest, k - 1);
        }
      }
    }
  }

  /** The substitution is not idempotent: a comma that only stands before a
      closer once the next comma has gone survives the first pass. */
  lemma {:induction false} DropTrailingCommasNotIdempotent()
    ensures DropTrailingCommas(",,]") == ",]"
    ensures DropTrailingCommas(",]") == "]"
  {
    OneTrailingComma();
    TwoTrailingCommas();
  }

  /** `,]` loses its comma. */
  lemma {:induction false} OneTrailingComma()
    ensures DropTrailingCommas(",]") == "]"
  {
    var one, close: string := ",]", "]";
    CloserKept();
    assert one[0] == ',' && one[1..] == close;
    assert LStrip(close) == close by { assert !IsSpace(']'); }
    DropTrailingCommasStep(one);
  }

  /** A lone closer stays. */
  lemma {:induction false} CloserKept()
    ensures DropTrailingCommas("]") == "]"
  {
    var close: string := "]";
    DropTrailingCommasStep(close);
    assert close[1..] == [];
  }

  /** Of `,,]` only the second comma goes: the first is followed by a comma. */
  lemma {:induction false} TwoTrailingCommas()
    ensures DropTrailingCommas(",,]") == [','] + DropTrailingCommas(",]")
  {
    var one, two: string := ",]", ",,]";
    assert two[0] == ',' && two[1..] == one;
    assert !CloserAfterSpaces(one) by {
      assert LStrip(one) == one by { assert !IsSpace(','); }
    }
    DropTrailingCommasStep(two);
  }

  /** The whitespace run at the start of t. */
  function SpaceRun(t: string): (w: string)
    ensures |w| <= |t| && w == t[..|w|]
    ensures forall k :: 0 <= k < |w| ==> IsSpace(w[k])
    ensures |w| == |t| || !IsSpace(t[|w|])
  {
    if t != [] && IsSpace(t[0]) then [t[0]] + SpaceRun(t[1..]) else []
  }

  /** The index of the last newline in w, or -1. */
  function LastNewline(w: string): (k: int)
    ensures -1 <= k < |w|
    ensures 0 <= k ==> w[k] == '\n'
    ensures forall j :: k < j < |w| ==> w[j] != '\n'
  {
    if w == [] then -1
    else if w[|w| - 1] == '\n' then |w| - 1
    else LastNewline(w[..|w| - 1])
  }

  /** re.sub(r",\s*\n", "\n", s): a comma followed by a whitespace run that
      holds a newline is replaced, together with the run up to its last
      newline (the greedy `\s*` backs off to it), by one newline; the scan
      resumes after that newline. */
  function DropCommaNewlines(s: string): string
    decreases |s|
  {
    if s == [] then []
    else if s[0] == ',' && LastNewline(SpaceRun(s[1..])) >= 0 then
      "\n" + DropCommaNewlines(s[2 + LastNewline(SpaceRun(s[1..]))..])
    else [s[0]] + DropCommaNewlines(s[1..])
  }

  /** Dropping a prefix of commas and whitespace does not change Solid. */
  lemma {:induction false} SolidDropPrefix(s: string, m: nat)
    requires m <= |s|
    requires forall k :: 0 <= k < m ==> s[k] == ',' || IsSpace(s[k])
    ensures Solid(s[m..]) == Solid(s)
    decreases m
  {
    if m > 0 {
      SolidDropPrefix(s[1..], m - 1);
      assert s[1..][m - 1..] == s[m..];
    }
  }

  /** The substitution replaces the newline it consumes by itself, so the
      output is the input with some characters deleted. */
  lemma {:induction false} DropCommaNewlinesSubseq(s: string)
    ensures IsSubseq(DropCommaNewlines(s), s)
    decreases |s|
  {
    if s == [] {
    } else if s[0] == ',' && LastNewline(SpaceRun(s[1..])) >= 0 {
      var k := LastNewline(SpaceRun(s[1..]));
      var t := s[2 + k..];
      DropCommaNewlinesHit(s, k);
      DropCommaNewlinesSubseq(t);
      assert s[1 + k] == '\n';
      SubseqKeepHead(DropCommaNewlines(t), s, 1 + k);
      SubseqDrop(DropCommaNewlines(s), s, 1 + k);
    } else {
      DropCommaNewlinesMiss(s);
      DropCommaNewlinesSubseq(s[1..]);
      SubseqKeepHead(DropCommaNewlines(s[1..]), s, 0);
      assert s[0..] == s;
    }
  }

  /** What the substitution deletes is commas and whitespace only. */
  lemma {:induction false} DropCommaNewlinesKeepsSolid(s: string)
    ensures Solid(DropCommaNewlines(s)) == Solid(s)
    decreases |s|
  {
    if s != [] {
      var n := ResumeAt(s);
      DropCommaNewlinesKeepsSolid(s[n..]);
      SolidStep(s, n);
    }
  }

  /** Where the substitution resumes after its first step. */
  function ResumeAt(s: string): (n: nat)
    requires s != []
    ensures 1 <= n <= |s|
  {
    if s[0] == ',' && LastNewline(SpaceRun(s[1..])) >= 0 then 2 + LastNewline(SpaceRun(s[1..])) else 1
  }

  /** One step keeps Solid, given that the rest does. */
  lemma {:induction false} SolidStep(s: string, n: nat)
    requires s != [] && n == ResumeAt(s)
    requires Solid(DropCommaNewlines(s[n..])) == Solid(s[n..])
    ensures Solid(DropCommaNewlines(s)) == Solid(s)
  {
    if n == 1 {
      SolidMiss(s);
    } else {
      CommaRunBlank(s);
      DropCommaNewlinesHit(s, n - 2);
      SolidHit(s, n);
    }
  }

  /** A comma run replaced by a newline keeps Solid, given that the rest
      does. */
  lemma {:induction false} SolidHit(s: string, m: nat)
    requires m <= |s|
    requires forall j :: 0 <= j < m ==> s[j] == ',' || IsSpace(s[j])
    requires DropCommaNewlines(s) == "\n" + DropCommaNewlines(s[m..])
    requires Solid(DropCommaNewlines(s[m..])) == Solid(s[m..])
    ensures Solid(DropCommaNewlines(s)) == Solid(s)
  {
    SolidCons('\n', DropCommaNewlines(s[m..]));
    SolidDropPrefix(s, m);
  }

  /** A kept first character keeps Solid, given that the rest does. */
  lemma {:induction false} SolidMiss(s: string)
    requires s != [] && !(s[0] == ',' && LastNewline(SpaceRun(s[1..])) >= 0)
    requires Solid(DropCommaNewlines(s[1..])) == Solid(s[1..])
    ensures Solid(DropCommaNewlines(s)) == Solid(s)
  {
    DropCommaNewlinesMiss(s);
    SolidCons(s[0], DropCommaNewlines(s[1..]));
  }

  /** One step of the substitution, where a comma run ends in a newline. */
  lemma {:induction false} DropCommaNewlinesHit(s: string, k: int)
    requires s != [] && s[0] == ',' && k == LastNewline(SpaceRun(s[1..])) && k >= 0
    ensures 2 + k <= |s|
    ensures DropCommaNewlines(s) == "\n" + DropCommaNewlines(s[2 + k..])
  {
  }

  /** One step of the substitution, where the first character is kept. */
  lemma {:induction false} DropCommaNewlinesMiss(s: string)
    requires s != [] && !(s[0] == ',' && LastNewline(SpaceRun(s[1..])) >= 0)
    ensures DropCommaNewlines(s) == [s[0]] + DropCommaNewlines(s[1..])
  {
  }

  /** What the substitution consumes is the comma and blanks. */
  lemma {:induction false} CommaRunBlank(s: string)
    requires s != [] && s[0] == ','
    requires LastNewline(SpaceRun(s[1..])) >= 0
    ensures 2 + LastNewline(SpaceRun(s[1..])) <= |s|
    ensures forall j :: 0 <= j < 2 + LastNewline(SpaceRun(s[1..])) ==> s[j] == ',' || IsSpace(s[j])
  {
    var w := SpaceRun(s[1..]);
    forall j | 1 <= j < 2 + LastNewline(w) ensures IsSpace(s[j]) {
      assert s[j] == w[j - 1];
    }
  }

  /** Solid, one character at a time. */
  lemma {:induction false} SolidCons(x: char, t: string)
    ensures Solid([x] + t) == (if x == ',' || IsSpace(x) then [] else [x]) + Solid(t)
  {
    assert ([x] + t)[0] == x && ([x] + t)[1..] == t;
  }

  /** A whitespace run ends where the text after it starts with a
      non-space. */
  lemma {:induction false} SpaceRunAppend(t: string, c: string)
    requires c == [] || !IsSpace(c[0])
    ensures SpaceRun(t + c) == SpaceRun(t)
  {
    if t == [] {
      assert t + c == c;
    } else {
      assert (t + c)[0] == t[0] && (t + c)[1..] == t[1..] + c;
      SpaceRunAppend(t[1..], c);
    }
  }

  /** One step of the substitution, whichever way it goes. */
  lemma {:induction false} DropCommaNewlinesResume(s: string)
    requires s != []
    ensures DropCommaNewlines(s) == (if ResumeAt(s) == 1 then [s[0]] else "\n") + DropCommaNewlines(s[ResumeAt(s)..])
  {
    if ResumeAt(s) == 1 {
      DropCommaNewlinesMiss(s);
    } else {
      DropCommaNewlinesHit(s, ResumeAt(s) - 2);
    }
  }

  /** The first step on `a + c` is the first step on `a` when `c` starts
      with a non-space. */
  lemma {:induction false} ResumeAtAppend(a: string, c: string)
    requires a != [] && (c == [] || !IsSpace(c[0]))
    ensures ResumeAt(a + c) == ResumeAt(a) && (a + c)[0] == a[0]
    ensures (a + c)[ResumeAt(a)..] == a[ResumeAt(a)..] + c
  {
    assert (a + c)[1..] == a[1..] + c;
    SpaceRunAppend(a[1..], c);
  }

  /** A text that starts with a non-space is substituted on its own: no
      match reaches across its start. */
  lemma {:induction false} DropCommaNewlinesAppend(a: string, c: string)
    requires c == [] || !IsSpace(c[0])
    ensures DropCommaNewlines(a + c) == DropCommaNewlines(a) + DropCommaNewlines(c)
    decreases |a|
  {
    if a == [] {
      assert a + c == c;
    } else {
      var n := ResumeAt(a);
      var head: string := if n == 1 then [a[0]] else "\n";
      ResumeAtAppend(a, c);
      DropCommaNewlinesResume(a);
      DropCommaNewlinesResume(a + c);
      DropCommaNewlinesAppend(a[n..], c);
      AppendAssoc(head, DropCommaNewlines(a[n..]), DropCommaNewlines(c));
    }
  }

  /** Text without a comma is left alone. */
  lemma {:induction false} DropCommaNewlinesNoComma(w: string)
    requires forall k :: 0 <= k < |w| ==> w[k] != ','
    ensures DropCommaNewlines(w) == w
    decreases |w|
  {
    if w != [] {
      DropCommaNewlinesMiss(w);
      DropCommaNewlinesNoComma(w[1..]);
    }
  }

  /** The whitespace run after a comma is the whole blank piece w when the
      text after w starts with a non-space. */
  lemma {:induction false} CommaRun(w: string, rest: string)
    requires forall k :: 0 <= k < |w| ==> IsSpace(w[k])
    requires rest == [] || !IsSpace(rest[0])
    ensures ([','] + w + rest)[0] == ','
    ensures ([','] + w + rest)[1..] == w + rest
    ensures SpaceRun(w + rest) == w
  {
    SpaceRunAppend(w, rest);
  }

  /** The blanks `v` after the last newline and the text after them. */
  lemma {:induction false} BlanksKept(v: string, rest: string)
    requires forall k :: 0 <= k < |v| ==> IsSpace(v[k])
    requires rest == [] || !IsSpace(rest[0])
    ensures DropCommaNewlines(v + rest) == v + DropCommaNewlines(rest)
  {
    DropCommaNewlinesAppend(v, rest);
    DropCommaNewlinesNoComma(v);
  }

  /** The last newline of `u + "\n" + v`, where v holds none. */
  lemma {:induction false} LastNewlineAt(u: string, v: string)
    requires forall k :: 0 <= k < |u| ==> IsSpace(u[k])
    requires forall k :: 0 <= k < |v| ==> IsSpace(v[k]) && v[k] != '\n'
    ensures forall k :: 0 <= k < |u + "\n" + v| ==> IsSpace((u + "\n" + v)[k])
    ensures LastNewline(u + "\n" + v) == |u|
  {
    var w := u + "\n" + v;
    assert w[|u|] == '\n';
    assert forall k :: |u| < k < |w| ==> w[k] == v[k - |u| - 1];
  }

  /** The substitution on a comma whose run holds a newline. */
  lemma {:induction false} DroppedHere(u: string, v: string, rest: string)
    requires forall k :: 0 <= k < |u| ==> IsSpace(u[k])
    requires forall k :: 0 <= k < |v| ==> IsSpace(v[k]) && v[k] != '\n'
    requires rest == [] || !IsSpace(rest[0])
    ensures DropCommaNewlines([','] + (u + "\n" + v) + rest) == "\n" + v + DropCommaNewlines(rest)
  {
    var w := u + "\n" + v;
    LastNewlineAt(u, v);
    CommaRun(w, rest);
    CommaHit(w, rest, |u|);
    AfterLastNewline(u, v, rest);
    BlanksKept(v, rest);
  }

  /** The step on a comma whose run w holds its last newline at k. */
  lemma {:induction false} CommaHit(w: string, rest: string, k: int)
    requires SpaceRun(w + rest) == w && LastNewline(w) == k && k >= 0
    ensures DropCommaNewlines([','] + w + rest) == "\n" + DropCommaNewlines(([','] + w + rest)[2 + k..])
  {
    var t := [','] + w + rest;
    assert t[0] == ',' && t[1..] == w + rest;
    DropCommaNewlinesHit(t, k);
  }

  lemma {:induction false} AfterLastNewline(u: string, v: string, rest: string)
    ensures ([','] + (u + "\n" + v) + rest)[2 + |u|..] == v + rest
  {
  }

  /** The substitution on a comma whose run holds no newline. */
  lemma {:induction false} KeptHere(w: string, rest: string)
    requires forall k :: 0 <= k < |w| ==> IsSpace(w[k]) && w[k] != '\n'
    requires rest == [] || !IsSpace(rest[0])
    ensures DropCommaNewlines([','] + w + rest) == [','] + w + DropCommaNewlines(rest)
  {
    var t := [','] + w + rest;
    CommaRun(w, rest);
    NoNewlineNoLast(w);
    DropCommaNewlinesMiss(t);
    BlanksKept(w, rest);
    FrontThrough(DropCommaNewlines(t), DropCommaNewlines(w + rest), ',', w, DropCommaNewlines(rest));
  }

  /** A run without a newline has no last newline. */
  lemma {:induction false} NoNewlineNoLast(w: string)
    requires forall k :: 0 <= k < |w| ==> w[k] != '\n'
    ensures LastNewline(w) == -1
  {
  }

  /** One character in front of a split. */
  lemma {:induction false} FrontThrough(x: string, y: string, c: char, w: string, z: string)
    requires x == [c] + y && y == w + z
    ensures x == [c] + w + z
  {
    assert [c] + (w + z) == [c] + w + z;
  }

  /** A comma whose whitespace run `u + "\n" + v` holds a newline goes, and
      the run up to its last newline becomes that one newline; the blanks
      `v` after it stay. The text before and after is substituted on its
      own. */
  lemma {:induction false} CommaAtLineEndDropped(a: string, u: string, v: string, rest: string)
    requires forall k :: 0 <= k < |u| ==> IsSpace(u[k])
    requires forall k :: 0 <= k < |v| ==> IsSpace(v[k]) && v[k] != '\n'
    requires rest == [] || !IsSpace(rest[0])
    ensures DropCommaNewlines(a + ([','] + (u + "\n" + v) + rest))
      == DropCommaNewlines(a) + ("\n" + v + DropCommaNewlines(rest))
  {
    DroppedHere(u, v, rest);
    DropCommaNewlinesAppend(a, [','] + (u + "\n" + v) + rest);
  }

  /** A comma whose whitespace run holds no newline stays, with its run. */
  lemma {:induction false} CommaInsideLineKept(a: string, w: string, rest: string)
    requires forall k :: 0 <= k < |w| ==> IsSpace(w[k]) && w[k] != '\n'
    requires rest == [] || !IsSpace(rest[0])
    ensures DropCommaNewlines(a + ([','] + w + rest)) == DropCommaNewlines(a) + ([','] + w + DropCommaNewlines(rest))
  {
    KeptHere(w, rest);
    DropCommaNewlinesAppend(a, [','] + w + rest);
  }
}
