/** _auto_insert_commas in main_app.py: the last repair strategy of the
    loose JSON parser. It walks the token stream with a stack of open
    containers and inserts a comma where two values stand side by side. */
module CommaRepair {
  import opened Text
  import opened Lexer

  /** The kind of container a bracket opened. */
  datatype Ctx = Object | Array

  /** A piece of the repaired text: a token of the input, kept verbatim, or
      a comma the repair inserted. */
  datatype Piece = Keep(tok: Token) | Inserted

  /** VALUE_TYPES: the kinds after which a comma may be inserted. */
  predicate IsValueType(k: Kind) {
    k == Str || k == Number || k == True || k == False || k == Null || k == RBrace || k == RBracket
  }

  /** The kinds that start a value. */
  predicate StartsValue(k: Kind) {
    k == Str || k == Number || k == True || k == False || k == Null || k == LBrace || k == LBracket
  }

  /** The lookahead test of the array branch. As written (`asWritten`) it is
      VALUE_TYPES plus the two openers, which also admits the closers `}` and
      `]`; the evident intent is the kinds that start a value. */
  predicate ArrayNext(k: Kind, asWritten: bool) {
    StartsValue(k) || (asWritten && (k == RBrace || k == RBracket))
  }

  /** The repaired text. */
  function Render(ps: seq<Piece>): string {
    if ps == [] then []
    else (if ps[0].Keep? then ps[0].tok.lex else ",") + Render(ps[1..])
  }

  /** The repaired text without the inserted commas. */
  function Erase(ps: seq<Piece>): string {
    if ps == [] then []
    else (if ps[0].Keep? then ps[0].tok.lex else []) + Erase(ps[1..])
  }

  /** The first index at or after j that does not hold a whitespace token. */
  function SkipWsTokens(toks: seq<Token>, j: nat): (e: nat)
    requires j <= |toks|
    ensures j <= e <= |toks|
    ensures forall k :: j <= k < e ==> toks[k].kind == WS
    ensures e == |toks| || toks[e].kind != WS
    decreases |toks| - j
  {
    if j < |toks| && toks[j].kind == WS then SkipWsTokens(toks, j + 1) else j
  }

  /** The tokens toks[a..b], kept. */
  function Keeps(toks: seq<Token>, a: nat, b: nat): (ps: seq<Piece>)
    requires a <= b <= |toks|
    ensures |ps| == b - a && forall k :: 0 <= k < b - a ==> ps[k] == Keep(toks[a + k])
  {
    seq(b - a, k requires 0 <= k < b - a => Keep(toks[a + k]))
  }

  /** The outcome of one pass of the repair loop: what it appends, where it
      continues and the new stack. */
  datatype Turn = Turn(emit: seq<Piece>, next: nat, stack: seq<Ctx>)

  /** The object branch inserts a comma when the value is followed, after
      whitespace, by a string and then, after whitespace, by a colon. */
  predicate KeyFollows(toks: seq<Token>, j: nat)
    requires j <= |toks|
  {
    j < |toks| && toks[j].kind == Str &&
    var jj := SkipWsTokens(toks, j + 1);
    jj < |toks| && toks[jj].kind == Colon
  }

  /** Whether the value branch inserts a comma before token j. */
  predicate ValueComma(toks: seq<Token>, j: nat, stack: seq<Ctx>, asWritten: bool)
    requires j <= |toks| && stack != []
  {
    if stack[|stack| - 1] == Object then KeyFollows(toks, j)
    else j < |toks| && ArrayNext(toks[j].kind, asWritten)
  }

  /** One pass of the loop at token i. */
  function RepairTurn(toks: seq<Token>, i: nat, stack: seq<Ctx>, asWritten: bool): (t: Turn)
    requires i < |toks|
    ensures i < t.next <= |toks|
    ensures t.emit != [] && t.emit[0] == Keep(toks[i])
  {
    var tok := toks[i];
    if tok.kind == LBrace then Turn([Keep(tok)], i + 1, stack + [Object])
    else if tok.kind == LBracket then Turn([Keep(tok)], i + 1, stack + [Array])
    else if tok.kind == RBrace then
      Turn([Keep(tok)], i + 1, if stack != [] && stack[|stack| - 1] == Object then stack[..|stack| - 1] else stack)
    else if tok.kind == RBracket then
      Turn([Keep(tok)], i + 1, if stack != [] && stack[|stack| - 1] == Array then stack[..|stack| - 1] else stack)
    else if stack != [] && IsValueType(tok.kind) then
      var j := SkipWsTokens(toks, i + 1);
      Turn([Keep(tok)] + Keeps(toks, i + 1, j) + (if ValueComma(toks, j, stack, asWritten) then [Inserted] else []), j, stack)
    else Turn([Keep(tok)], i + 1, stack)
  }

  /** The pieces appended from token i on, with the given stack. */
  function RepairFrom(toks: seq<Token>, i: nat, stack: seq<Ctx>, asWritten: bool): seq<Piece>
    decreases |toks| - i
  {
    if i >= |toks| then []
    else
      var t := RepairTurn(toks, i, stack, asWritten);
      t.emit + RepairFrom(toks, t.next, t.stack, asWritten)
  }

  function Repair(toks: seq<Token>, asWritten: bool): seq<Piece> {
    RepairFrom(toks, 0, [], asWritten)
  }

  lemma {:induction false} RenderAppend(a: seq<Piece>, b: seq<Piece>)
    ensures Render(a + b) == Render(a) + Render(b)
    ensures Erase(a + b) == Erase(a) + Erase(b)
  {
    if a != [] {
      RenderAppend(a[1..], b);
      assert (a + b)[1..] == a[1..] + b;
    } else {
      assert a + b == b;
    }
  }

  lemma {:induction false} ConcatAppend(a: seq<Token>, b: seq<Token>)
    ensures Concat(a + b) == Concat(a) + Concat(b)
  {
    if a != [] {
      ConcatAppend(a[1..], b);
      assert (a + b)[1..] == a[1..] + b;
    } else {
      assert a + b == b;
    }
  }

  /** Kept tokens render and erase to their own text. */
  lemma {:induction false} KeepsText(toks: seq<Token>, a: nat, b: nat)
    requires a <= b <= |toks|
    ensures Render(Keeps(toks, a, b)) == Concat(toks[a..b])
    ensures Erase(Keeps(toks, a, b)) == Concat(toks[a..b])
    decreases b - a
  {
    if a < b {
      KeepsText(toks, a + 1, b);
      assert Keeps(toks, a, b) == [Keep(toks[a])] + Keeps(toks, a + 1, b);
      RenderAppend([Keep(toks[a])], Keeps(toks, a + 1, b));
      assert toks[a..b] == [toks[a]] + toks[a + 1..b];
      ConcatAppend([toks[a]], toks[a + 1..b]);
    }
  }

  /** The whitespace tokens from `j0` on: their text and where they end. */
  method CopyWs(toks: seq<Token>, j0: nat) returns (text: string, j: nat)
    requires j0 <= |toks|
    ensures j == SkipWsTokens(toks, j0)
    ensures text == Concat(toks[j0..j])
  {
    text := "";
    j := j0;
    assert toks[j0..j0] == [];
    while j < |toks| && toks[j].kind == WS
      invariant j0 <= j <= |toks|
      invariant SkipWsTokens(toks, j) == SkipWsTokens(toks, j0)
      invariant text == Concat(toks[j0..j])
      decreases |toks| - j
    {
      assert toks[j0..j + 1] == toks[j0..j] + [toks[j]];
      ConcatAppend(toks[j0..j], [toks[j]]);
      text := text + toks[j].lex;
      j := j + 1;
    }
  }

  /** The lookahead of the value branch: whether a comma goes before token
      `j`. */
  method NeedsComma(toks: seq<Token>, j: nat, stack: seq<Ctx>, asWritten: bool) returns (comma: bool)
    requires j <= |toks| && stack != []
    ensures comma == ValueComma(toks, j, stack, asWritten)
  {
    if stack[|stack| - 1] == Object {
      comma := false;
      if j < |toks| && toks[j].kind == Str {
        var _, jj := CopyWs(toks, j + 1);
        comma := jj < |toks| && toks[jj].kind == Colon;
      }
    } else {
      comma := j < |toks| && ArrayNext(toks[j].kind, asWritten);
    }
  }

  /** The value branch of the loop: the value, the whitespace after it and,
      when the next token calls for it, a comma. */
  method EmitValue(toks: seq<Token>, i: nat, stack: seq<Ctx>, asWritten: bool) returns (out: string, next: nat)
    requires i < |toks| && stack != [] && IsValueType(toks[i].kind)
    requires toks[i].kind != RBrace && toks[i].kind != RBracket
    ensures out == Render(RepairTurn(toks, i, stack, asWritten).emit)
    ensures next == RepairTurn(toks, i, stack, asWritten).next
  {
    var ws, j := CopyWs(toks, i + 1);
    var comma := NeedsComma(toks, j, stack, asWritten);
    out := toks[i].lex + ws + (if comma then "," else "");
    ValueRender(toks, i, j, comma);
    next := j;
  }

  lemma RenderOne(tok: Token)
    ensures Render([Keep(tok)]) == tok.lex
  {
    assert [Keep(tok)][1..] == [];
  }

  /** One pass of the loop, rendered. */
  lemma RepairFromStep(toks: seq<Token>, i: nat, stack: seq<Ctx>, asWritten: bool)
    requires i < |toks|
    ensures var t := RepairTurn(toks, i, stack, asWritten);
      Render(RepairFrom(toks, i, stack, asWritten)) == Render(t.emit) + Render(RepairFrom(toks, t.next, t.stack, asWritten))
    ensures var t := RepairTurn(toks, i, stack, asWritten);
      Erase(RepairFrom(toks, i, stack, asWritten)) == Erase(t.emit) + Erase(RepairFrom(toks, t.next, t.stack, asWritten))
  {
    var t := RepairTurn(toks, i, stack, asWritten);
    RenderAppend(t.emit, RepairFrom(toks, t.next, t.stack, asWritten));
  }

  /** The text the value branch appends. */
  lemma ValueRender(toks: seq<Token>, i: nat, j: nat, comma: bool)
    requires i < j <= |toks|
    ensures Render([Keep(toks[i])] + Keeps(toks, i + 1, j) + (if comma then [Inserted] else []))
      == toks[i].lex + Concat(toks[i + 1..j]) + (if comma then "," else "")
  {
    var tail: seq<Piece> := if comma then [Inserted] else [];
    assert Render(tail) == (if comma then "," else "") by {
      if comma {
        assert tail[1..] == [];
      }
    }
    KeptRender(toks, i, j);
    RenderAppend([Keep(toks[i])] + Keeps(toks, i + 1, j), tail);
  }

  /** The kept tokens of a pass render as their text. */
  lemma KeptRender(toks: seq<Token>, i: nat, j: nat)
    requires i < j <= |toks|
    ensures Render([Keep(toks[i])] + Keeps(toks, i + 1, j)) == toks[i].lex + Concat(toks[i + 1..j])
  {
    RenderOne(toks[i]);
    KeepsText(toks, i + 1, j);
    RenderAppend([Keep(toks[i])], Keeps(toks, i + 1, j));
  }

  /** One pass of the loop body at token i: the text it appends, the next
      index and the new stack. */
  method Step(toks: seq<Token>, i: nat, stack0: seq<Ctx>, asWritten: bool)
    returns (text: string, next: nat, stack: seq<Ctx>)
    requires i < |toks|
    ensures var t := RepairTurn(toks, i, stack0, asWritten);
      text == Render(t.emit) && next == t.next && stack == t.stack
  {
    var tok := toks[i];
    RenderOne(tok);
    stack := stack0;
    if tok.kind == LBrace {
      stack := stack + [Object];
      text, next := tok.lex, i + 1;
    } else if tok.kind == LBracket {
      stack := stack + [Array];
      text, next := tok.lex, i + 1;
    } else if tok.kind == RBrace {
      if stack != [] && stack[|stack| - 1] == Object {
        stack := stack[..|stack| - 1];
      }
      text, next := tok.lex, i + 1;
    } else if tok.kind == RBracket {
      if stack != [] && stack[|stack| - 1] == Array {
        stack := stack[..|stack| - 1];
      }
      text, next := tok.lex, i + 1;
    } else if stack != [] && IsValueType(tok.kind) {
      text, next := EmitValue(toks, i, stack, asWritten);
    } else {
      text, next := tok.lex, i + 1;
    }
  }

  /** _auto_insert_commas(raw); `asWritten` selects the lookahead test of
      the array branch. */
  method AutoInsertCommas(raw: string, asWritten: bool) returns (r: string)
    ensures r == Render(Repair(Lex(raw), asWritten))
  {
    var toks := Tokenize(raw);
    var out: string := [];
    var stack: seq<Ctx> := [];
    var i: nat := 0;
    while i < |toks|
      invariant i <= |toks|
      invariant out + Render(RepairFrom(toks, i, stack, asWritten)) == Render(Repair(toks, asWritten))
      decreases |toks| - i
    {
      var text, next, after := Step(toks, i, stack, asWritten);
      RepairFromStep(toks, i, stack, asWritten);
      AppendAssoc(out, text, Render(RepairFrom(toks, next, after, asWritten)));
      out, i, stack := out + text, next, after;
    }
    r := out;
  }

  /** A pass inserts at most one comma, as its last piece, and only before a
      token the lookahead admits. */
  lemma InsertedTurn(toks: seq<Token>, i: nat, stack: seq<Ctx>, asWritten: bool)
    requires i < |toks|
    ensures var t := RepairTurn(toks, i, stack, asWritten);
      forall p :: 0 <= p < |t.emit| && t.emit[p] == Inserted ==>
        p == |t.emit| - 1 && t.next < |toks| && ArrayNext(toks[t.next].kind, asWritten)
  {
    var t := RepairTurn(toks, i, stack, asWritten);
    var tok := toks[i];
    if tok.kind == LBrace || tok.kind == LBracket || tok.kind == RBrace || tok.kind == RBracket
       || !(stack != [] && IsValueType(tok.kind)) {
      assert t.emit == [Keep(tok)];
    } else {
      var j := SkipWsTokens(toks, i + 1);
      var c := ValueComma(toks, j, stack, asWritten);
      var ks := Keeps(toks, i + 1, j);
      assert t.emit == [Keep(tok)] + ks + (if c then [Inserted] else []);
      assert forall p :: 0 <= p < 1 + |ks| ==> t.emit[p].Keep?;
    }
  }

  /** The pieces a pass emits, without inserted commas, are the tokens it
      consumed. */
  lemma TurnErase(toks: seq<Token>, i: nat, stack: seq<Ctx>, asWritten: bool)
    requires i < |toks|
    ensures var t := RepairTurn(toks, i, stack, asWritten);
      Erase(t.emit) == Concat(toks[i..t.next])
  {
    var t := RepairTurn(toks, i, stack, asWritten);
    var tok := toks[i];
    assert Erase([Keep(tok)]) == tok.lex by { assert [Keep(tok)][1..] == []; }
    ConcatAppend([tok], toks[i + 1..t.next]);
    assert toks[i..t.next] == [tok] + toks[i + 1..t.next];
    assert Concat([tok]) == tok.lex by { assert [tok][1..] == []; }
    if t.emit != [Keep(tok)] {
      var ks := Keeps(toks, i + 1, t.next);
      var tail: seq<Piece> := t.emit[1 + |ks|..];
      assert t.emit == [Keep(tok)] + ks + tail;
      assert Erase(tail) == [] by {
        if tail != [] {
          assert tail == [Inserted];
          assert tail[1..] == [];
        }
      }
      KeepsText(toks, i + 1, t.next);
      RenderAppend([Keep(tok)], ks);
      RenderAppend([Keep(tok)] + ks, tail);
    } else {
      assert toks[i + 1..t.next] == [];
    }
  }

  lemma {:induction false} RepairFromErase(toks: seq<Token>, i: nat, stack: seq<Ctx>, asWritten: bool)
    requires i <= |toks|
    ensures Erase(RepairFrom(toks, i, stack, asWritten)) == Concat(toks[i..])
    decreases |toks| - i
  {
    if i < |toks| {
      var t := RepairTurn(toks, i, stack, asWritten);
      var front, back := toks[i..t.next], toks[t.next..];
      assert Erase(RepairFrom(toks, i, stack, asWritten)) == Concat(front) + Concat(back) by {
        RepairFromStep(toks, i, stack, asWritten);
        TurnErase(toks, i, stack, asWritten);
        RepairFromErase(toks, t.next, t.stack, asWritten);
      }
      assert Concat(toks[i..]) == Concat(front) + Concat(back) by {
        SuffixSplit(toks, i, t.next);
        ConcatAppend(front, back);
      }
    } else {
      assert toks[i..] == [];
    }
  }

  /** The repair only inserts commas: deleting the inserted commas from its
      output gives back the input text exactly. */
  lemma RepairOnlyInsertsCommas(raw: string, asWritten: bool)
    ensures Erase(Repair(Lex(raw), asWritten)) == raw
  {
    RepairFromErase(Lex(raw), 0, [], asWritten);
    assert Lex(raw)[0..] == Lex(raw);
    LexRoundTrip(raw);
  }

  /** Every inserted comma is directly followed by a kept token whose kind
      the array lookahead admits. */
  predicate InsertionsAdmitted(ps: seq<Piece>, asWritten: bool) {
    forall p :: 0 <= p < |ps| && ps[p] == Inserted ==>
      p + 1 < |ps| && ps[p + 1].Keep? && ArrayNext(ps[p + 1].tok.kind, asWritten)
  }

  lemma {:induction false} InsertedBeforeAdmitted(toks: seq<Token>, i: nat, stack: seq<Ctx>, asWritten: bool)
    ensures InsertionsAdmitted(RepairFrom(toks, i, stack, asWritten), asWritten)
    decreases |toks| - i
  {
    if i < |toks| {
      var t := RepairTurn(toks, i, stack, asWritten);
      var rest := RepairFrom(toks, t.next, t.stack, asWritten);
      assert RepairFrom(toks, i, stack, asWritten) == t.emit + rest;
      InsertedBeforeAdmitted(toks, t.next, t.stack, asWritten);
      InsertedTurn(toks, i, stack, asWritten);
      if t.next < |toks| {
        RepairFromHead(toks, t.next, t.stack, asWritten);
      }
      AdmittedAppend(t.emit, rest, asWritten);
    }
  }

  /** The output from a token on starts with that token. */
  lemma RepairFromHead(toks: seq<Token>, i: nat, stack: seq<Ctx>, asWritten: bool)
    requires i < |toks|
    ensures var ps := RepairFrom(toks, i, stack, asWritten);
      ps != [] && ps[0] == Keep(toks[i])
  {
    var t := RepairTurn(toks, i, stack, asWritten);
    assert RepairFrom(toks, i, stack, asWritten) == t.emit + RepairFrom(toks, t.next, t.stack, asWritten);
  }

  /** A turn whose only insertion is last, before an admitted kept token,
      followed by admitted insertions, gives admitted insertions. */
  lemma AdmittedAppend(e: seq<Piece>, rest: seq<Piece>, asWritten: bool)
    requires InsertionsAdmitted(rest, asWritten)
    requires forall p :: 0 <= p < |e| && e[p] == Inserted ==>
      p == |e| - 1 && rest != [] && rest[0].Keep? && ArrayNext(rest[0].tok.kind, asWritten)
    ensures InsertionsAdmitted(e + rest, asWritten)
  {
    var ps := e + rest;
    forall p | 0 <= p < |ps| && ps[p] == Inserted
      ensures p + 1 < |ps| && ps[p + 1].Keep? && ArrayNext(ps[p + 1].tok.kind, asWritten)
    {
      if p < |e| {
        assert e[p] == Inserted;
        assert ps[p + 1] == rest[0];
      } else {
        assert rest[p - |e|] == Inserted;
        assert ps[p + 1] == rest[p - |e| + 1];
      }
    }
  }

  // ---------------------------------------------------------------------
  // Where the commas go, stated on the whole token list

  /** The kinds the value branch handles: VALUE_TYPES without the closers,
      which the bracket branches take first. */
  predicate IsScalar(k: Kind) {
    k == Str || k == Number || k == True || k == False || k == Null
  }

  /** How one token changes the stack of open containers. */
  function StackStep(stack: seq<Ctx>, k: Kind): seq<Ctx> {
    if k == LBrace then stack + [Object]
    else if k == LBracket then stack + [Array]
    else if k == RBrace then (if stack != [] && stack[|stack| - 1] == Object then stack[..|stack| - 1] else stack)
    else if k == RBracket then (if stack != [] && stack[|stack| - 1] == Array then stack[..|stack| - 1] else stack)
    else stack
  }

  /** The open containers before token j. */
  function StackAt(toks: seq<Token>, j: nat): seq<Ctx>
    requires j <= |toks|
  {
    if j == 0 then [] else StackStep(StackAt(toks, j - 1), toks[j - 1].kind)
  }

  /** The last token before j that is not whitespace, or -1. */
  function PrevSolid(toks: seq<Token>, j: nat): (v: int)
    requires j <= |toks|
    ensures -1 <= v < j
    ensures v >= 0 ==> toks[v].kind != WS
    ensures forall k :: v < k < j ==> toks[k].kind == WS
  {
    if j == 0 then -1 else if toks[j - 1].kind != WS then j - 1 else PrevSolid(toks, j - 1)
  }

  /** Apart from whitespace, token j follows a value inside a container. */
  predicate AfterValue(toks: seq<Token>, j: nat)
    requires j <= |toks|
  {
    var v := PrevSolid(toks, j);
    v >= 0 && IsScalar(toks[v].kind) && StackAt(toks, v) != []
  }

  /** The comma rule: a comma goes before token j when j follows a value
      inside a container and either the innermost container is an object
      and a key follows (a STRING, then after whitespace a `:`), or it is
      an array and the kind of token j passes the array lookahead. */
  predicate CommaBefore(toks: seq<Token>, j: nat, asWritten: bool)
    requires j <= |toks|
  {
    j < |toks| && AfterValue(toks, j) &&
    var st := StackAt(toks, PrevSolid(toks, j));
    if st[|st| - 1] == Object then KeyFollows(toks, j) else ArrayNext(toks[j].kind, asWritten)
  }

  /** For each token, whether the comma rule puts a comma before it. */
  function CommaMarks(toks: seq<Token>, asWritten: bool): (m: seq<bool>)
    ensures |m| == |toks|
  {
    seq(|toks|, j requires 0 <= j < |toks| => CommaBefore(toks, j, asWritten))
  }

  /** The tokens from j on, each with a comma in front where `m` marks
      one. */
  function Woven(toks: seq<Token>, m: seq<bool>, j: nat): seq<Piece>
    requires j <= |toks| == |m|
    decreases |toks| - j
  {
    if j == |toks| then []
    else (if m[j] then [Inserted] else []) + [Keep(toks[j])] + Woven(toks, m, j + 1)
  }

  /** Token i and what follows it, without a comma in front of token i. */
  function WovenFrom(toks: seq<Token>, m: seq<bool>, i: nat): seq<Piece>
    requires i <= |toks| == |m|
  {
    if i == |toks| then [] else [Keep(toks[i])] + Woven(toks, m, i + 1)
  }

  /** The loop starts a pass at token i: i is not whitespace that the value
      branch copies along with the value before it. */
  predicate TurnStart(toks: seq<Token>, i: nat)
    requires i <= |toks|
  {
    i == |toks| || toks[i].kind != WS || !AfterValue(toks, i)
  }

  /** The repair puts a comma exactly where the comma rule says, and
      nowhere else: its output is the token list with those commas woven
      in. */
  lemma RepairIsWoven(toks: seq<Token>, asWritten: bool)
    ensures Repair(toks, asWritten) == Woven(toks, CommaMarks(toks, asWritten), 0)
  {
    var m := CommaMarks(toks, asWritten);
    RepairWovenFrom(toks, m, 0, asWritten);
    if toks != [] {
      assert !m[0];
      WovenStep(toks, m, 0);
    }
  }

  lemma {:induction false} RepairWovenFrom(toks: seq<Token>, m: seq<bool>, i: nat, asWritten: bool)
    requires i <= |toks| && m == CommaMarks(toks, asWritten) && TurnStart(toks, i)
    ensures RepairFrom(toks, i, StackAt(toks, i), asWritten) == WovenFrom(toks, m, i)
    decreases |toks| - i
  {
    if i < |toks| {
      if StackAt(toks, i) != [] && IsScalar(toks[i].kind) {
        var j := SkipWsTokens(toks, i + 1);
        RepairWovenFrom(toks, m, j, asWritten);
        MarksAfterValue(toks, i, asWritten);
        ValueTurnWoven(toks, m, i, asWritten);
      } else {
        MarksAfterOther(toks, i, asWritten);
        RepairWovenFrom(toks, m, i + 1, asWritten);
        OtherTurnWoven(toks, m, i, asWritten);
      }
    }
  }

  /** After a value the whitespace carries no comma, and the next solid
      token carries the one the value branch decides on. */
  lemma MarksAfterValue(toks: seq<Token>, i: nat, asWritten: bool)
    requires i < |toks| && StackAt(toks, i) != [] && IsScalar(toks[i].kind)
    ensures forall k :: i + 1 <= k < SkipWsTokens(toks, i + 1) ==> !CommaMarks(toks, asWritten)[k]
    ensures SkipWsTokens(toks, i + 1) < |toks| ==>
      CommaMarks(toks, asWritten)[SkipWsTokens(toks, i + 1)]
      == ValueComma(toks, SkipWsTokens(toks, i + 1), StackAt(toks, i), asWritten)
  {
    var j := SkipWsTokens(toks, i + 1);
    forall k | i + 1 <= k < j
      ensures !CommaMarks(toks, asWritten)[k]
    {
      WsUnmarked(toks, k, asWritten);
    }
    if j < |toks| {
      PrevSolidSkip(toks, i, j);
      MarkAfterSolid(toks, i, j, asWritten);
    }
  }

  /** Whitespace never carries a comma. */
  lemma WsUnmarked(toks: seq<Token>, k: nat, asWritten: bool)
    requires k < |toks| && toks[k].kind == WS
    ensures !CommaMarks(toks, asWritten)[k]
  {
    assert CommaMarks(toks, asWritten)[k] == CommaBefore(toks, k, asWritten);
  }

  /** The mark of a token whose previous solid token is the value at v. */
  lemma MarkAfterSolid(toks: seq<Token>, v: nat, j: nat, asWritten: bool)
    requires v < j < |toks| && PrevSolid(toks, j) == v && StackAt(toks, v) != [] && IsScalar(toks[v].kind)
    ensures CommaMarks(toks, asWritten)[j] == ValueComma(toks, j, StackAt(toks, v), asWritten)
  {
    assert CommaMarks(toks, asWritten)[j] == CommaBefore(toks, j, asWritten);
  }

  /** After any other pass the next token starts a pass and carries no
      comma. */
  lemma MarksAfterOther(toks: seq<Token>, i: nat, asWritten: bool)
    requires i < |toks| && TurnStart(toks, i)
    requires !(StackAt(toks, i) != [] && IsScalar(toks[i].kind))
    ensures TurnStart(toks, i + 1)
    ensures i + 1 < |toks| ==> !CommaMarks(toks, asWritten)[i + 1]
  {
    NoPending(toks, i);
  }

  /** A pass that is not the value branch leaves no comma pending. */
  lemma NoPending(toks: seq<Token>, i: nat)
    requires i < |toks| && TurnStart(toks, i)
    requires !(StackAt(toks, i) != [] && IsScalar(toks[i].kind))
    ensures !AfterValue(toks, i + 1)
  {
  }

  /** A pass that only keeps its token, given the passes after it. */
  lemma OtherTurnWoven(toks: seq<Token>, m: seq<bool>, i: nat, asWritten: bool)
    requires i < |toks| == |m| && !(StackAt(toks, i) != [] && IsScalar(toks[i].kind))
    requires i + 1 < |toks| ==> !m[i + 1]
    requires RepairFrom(toks, i + 1, StackAt(toks, i + 1), asWritten) == WovenFrom(toks, m, i + 1)
    ensures RepairFrom(toks, i, StackAt(toks, i), asWritten) == WovenFrom(toks, m, i)
  {
    OtherFrom(toks, i, asWritten);
    UnmarkedNext(toks, m, i + 1);
  }

  /** The pass at a token that is not the value branch. */
  lemma OtherFrom(toks: seq<Token>, i: nat, asWritten: bool)
    requires i < |toks| && !(StackAt(toks, i) != [] && IsScalar(toks[i].kind))
    ensures RepairFrom(toks, i, StackAt(toks, i), asWritten)
      == [Keep(toks[i])] + RepairFrom(toks, i + 1, StackAt(toks, i + 1), asWritten)
  {
    var st := StackAt(toks, i);
    OtherTurn(toks, i, st, asWritten);
    RepairFromUnfold(toks, i, st, asWritten);
  }

  /** An unmarked token starts its own woven rest. */
  lemma UnmarkedNext(toks: seq<Token>, m: seq<bool>, j: nat)
    requires j <= |toks| == |m| && (j < |toks| ==> !m[j])
    ensures Woven(toks, m, j) == WovenFrom(toks, m, j)
  {
    if j < |toks| {
      WovenStep(toks, m, j);
    }
  }

  /** A pass that is not the value branch keeps its token only. */
  lemma OtherTurn(toks: seq<Token>, i: nat, st: seq<Ctx>, asWritten: bool)
    requires i < |toks| && !(st != [] && IsScalar(toks[i].kind))
    ensures RepairTurn(toks, i, st, asWritten) == Turn([Keep(toks[i])], i + 1, StackStep(st, toks[i].kind))
  {
  }

  /** RepairFrom, one pass unfolded. */
  lemma RepairFromUnfold(toks: seq<Token>, i: nat, st: seq<Ctx>, asWritten: bool)
    requires i < |toks|
    ensures var t := RepairTurn(toks, i, st, asWritten);
      RepairFrom(toks, i, st, asWritten) == t.emit + RepairFrom(toks, t.next, t.stack, asWritten)
  {
  }

  /** One token of the woven list. */
  lemma WovenStep(toks: seq<Token>, m: seq<bool>, j: nat)
    requires j < |toks| == |m|
    ensures Woven(toks, m, j) == (if m[j] then [Inserted] else []) + WovenFrom(toks, m, j)
  {
    var c: seq<Piece> := if m[j] then [Inserted] else [];
    PiecesAssoc2(c, Keep(toks[j]), Woven(toks, m, j + 1));
  }

  lemma PiecesAssoc2(a: seq<Piece>, x: Piece, b: seq<Piece>)
    ensures a + [x] + b == a + ([x] + b)
  {
  }

  /** The value branch, given the passes after it. */
  lemma ValueTurnWoven(toks: seq<Token>, m: seq<bool>, i: nat, asWritten: bool)
    requires i < |toks| == |m| && StackAt(toks, i) != [] && IsScalar(toks[i].kind)
    requires forall k :: i + 1 <= k < SkipWsTokens(toks, i + 1) ==> !m[k]
    requires SkipWsTokens(toks, i + 1) < |toks| ==>
      m[SkipWsTokens(toks, i + 1)] == ValueComma(toks, SkipWsTokens(toks, i + 1), StackAt(toks, i), asWritten)
    requires RepairFrom(toks, SkipWsTokens(toks, i + 1), StackAt(toks, SkipWsTokens(toks, i + 1)), asWritten)
      == WovenFrom(toks, m, SkipWsTokens(toks, i + 1))
    ensures RepairFrom(toks, i, StackAt(toks, i), asWritten) == WovenFrom(toks, m, i)
  {
    var st := StackAt(toks, i);
    var j := SkipWsTokens(toks, i + 1);
    var comma: seq<Piece> := if ValueComma(toks, j, st, asWritten) then [Inserted] else [];
    ValueFrom(toks, i, asWritten);
    WovenAfterValue(toks, m, i, j, comma);
    JoinValue(RepairFrom(toks, i, st, asWritten), WovenFrom(toks, m, i), Keep(toks[i]), Keeps(toks, i + 1, j), comma,
              RepairFrom(toks, j, StackAt(toks, j), asWritten), WovenFrom(toks, m, j));
  }

  /** The value branch copies the value, the whitespace after it and maybe
      a comma, then goes on at the next solid token with the same stack. */
  lemma {:induction false} ValueFrom(toks: seq<Token>, i: nat, asWritten: bool)
    requires i < |toks| && StackAt(toks, i) != [] && IsScalar(toks[i].kind)
    ensures var j := SkipWsTokens(toks, i + 1);
      RepairFrom(toks, i, StackAt(toks, i), asWritten)
      == ([Keep(toks[i])] + Keeps(toks, i + 1, j) + (if ValueComma(toks, j, StackAt(toks, i), asWritten) then [Inserted] else []))
         + RepairFrom(toks, j, StackAt(toks, j), asWritten)
  {
    var st := StackAt(toks, i);
    var j := SkipWsTokens(toks, i + 1);
    ValueTurnIs(toks, i, st, j, if ValueComma(toks, j, st, asWritten) then [Inserted] else [], asWritten);
    RepairFromUnfold(toks, i, st, asWritten);
    StackAtNext(toks, i);
    ScalarKeepsStack(st, toks[i].kind);
    StackThroughWs(toks, i + 1, j);
  }

  /** StackAt, one token further. */
  lemma StackAtNext(toks: seq<Token>, i: nat)
    requires i < |toks|
    ensures StackAt(toks, i + 1) == StackStep(StackAt(toks, i), toks[i].kind)
  {
  }

  /** A scalar leaves the stack as it is. */
  lemma ScalarKeepsStack(st: seq<Ctx>, k: Kind)
    requires IsScalar(k)
    ensures StackStep(st, k) == st
  {
  }

  /** The pass of the value branch. */
  lemma {:induction false} ValueTurnIs(toks: seq<Token>, i: nat, st: seq<Ctx>, j: nat, comma: seq<Piece>, asWritten: bool)
    requires i < |toks| && st != [] && IsScalar(toks[i].kind) && j == SkipWsTokens(toks, i + 1)
    requires comma == if ValueComma(toks, j, st, asWritten) then [Inserted] else []
    ensures RepairTurn(toks, i, st, asWritten).emit == [Keep(toks[i])] + Keeps(toks, i + 1, j) + comma
    ensures RepairTurn(toks, i, st, asWritten).next == j
    ensures RepairTurn(toks, i, st, asWritten).stack == st
  {
  }

  /** The woven list at a value: the value, the unmarked whitespace, the
      mark of the next solid token and that token's woven rest. */
  lemma WovenAfterValue(toks: seq<Token>, m: seq<bool>, i: nat, j: nat, c: seq<Piece>)
    requires i + 1 <= j <= |toks| == |m|
    requires forall k :: i + 1 <= k < j ==> !m[k]
    requires c == if j < |toks| && m[j] then [Inserted] else []
    ensures WovenFrom(toks, m, i) == [Keep(toks[i])] + (Keeps(toks, i + 1, j) + (c + WovenFrom(toks, m, j)))
  {
    WovenWs(toks, m, i + 1, j);
    if j < |toks| {
      WovenStep(toks, m, j);
    }
  }

  /** Both sides, assembled from equal parts. */
  lemma JoinValue(r: seq<Piece>, w: seq<Piece>, x: Piece, ks: seq<Piece>, c: seq<Piece>, rj: seq<Piece>, wj: seq<Piece>)
    requires r == ([x] + ks + c) + rj && w == [x] + (ks + (c + wj)) && rj == wj
    ensures r == w
  {
    PiecesAssoc(x, ks, c, wj);
  }

  lemma PiecesAssoc(x: Piece, a: seq<Piece>, b: seq<Piece>, c: seq<Piece>)
    ensures ([x] + a + b) + c == [x] + (a + (b + c))
  {
  }

  /** Whitespace does not change the stack. */
  lemma {:induction false} StackThroughWs(toks: seq<Token>, a: nat, b: nat)
    requires a <= b <= |toks|
    requires forall k :: a <= k < b ==> toks[k].kind == WS
    ensures StackAt(toks, b) == StackAt(toks, a)
    decreases b - a
  {
    if a < b {
      StackThroughWs(toks, a, b - 1);
    }
  }

  /** The last non-whitespace token before j, when only whitespace lies
      between. */
  lemma {:induction false} PrevSolidSkip(toks: seq<Token>, v: nat, j: nat)
    requires v < j <= |toks| && toks[v].kind != WS
    requires forall k :: v < k < j ==> toks[k].kind == WS
    ensures PrevSolid(toks, j) == v
    decreases j - v
  {
    if j > v + 1 {
      PrevSolidSkip(toks, v, j - 1);
    }
  }

  /** Unmarked tokens are kept one by one. */
  lemma {:induction false} WovenWs(toks: seq<Token>, m: seq<bool>, a: nat, j: nat)
    requires a <= j <= |toks| == |m|
    requires forall k :: a <= k < j ==> !m[k]
    ensures Woven(toks, m, a) == Keeps(toks, a, j) + Woven(toks, m, j)
    decreases j - a
  {
    if a < j {
      WovenWs(toks, m, a + 1, j);
      UnmarkedWoven(toks, m, a, j);
    }
  }

  /** One unmarked token of the woven list, given the rest. */
  lemma UnmarkedWoven(toks: seq<Token>, m: seq<bool>, a: nat, j: nat)
    requires a < j <= |toks| == |m| && !m[a]
    requires Woven(toks, m, a + 1) == Keeps(toks, a + 1, j) + Woven(toks, m, j)
    ensures Woven(toks, m, a) == Keeps(toks, a, j) + Woven(toks, m, j)
  {
    WovenStep(toks, m, a);
    KeepsCons(toks, a, j);
    ConsThrough(Woven(toks, m, a), Woven(toks, m, a + 1), Keeps(toks, a, j), Keeps(toks, a + 1, j), Woven(toks, m, j), Keep(toks[a]));
  }

  /** Putting one more piece in front of both sides of a split. */
  lemma ConsThrough(w: seq<Piece>, w1: seq<Piece>, k: seq<Piece>, k1: seq<Piece>, rest: seq<Piece>, x: Piece)
    requires w == [x] + w1 && w1 == k1 + rest && k == [x] + k1
    ensures w == k + rest
  {
    assert [x] + (k1 + rest) == ([x] + k1) + rest;
  }

  lemma KeepsCons(toks: seq<Token>, a: nat, j: nat)
    requires a < j <= |toks|
    ensures Keeps(toks, a, j) == [Keep(toks[a])] + Keeps(toks, a + 1, j)
  {
  }

  /** With no container open and no opener ahead, nothing is inserted: the
      output is the input. */
  lemma {:induction false} NoOpenerNoInsertion(toks: seq<Token>, i: nat, asWritten: bool)
    requires i <= |toks|
    requires forall k :: i <= k < |toks| ==> toks[k].kind != LBrace && toks[k].kind != LBracket
    ensures Inserted !in RepairFrom(toks, i, [], asWritten)
    ensures Render(RepairFrom(toks, i, [], asWritten)) == Concat(toks[i..])
    decreases |toks| - i
  {
    if i < |toks| {
      NoOpenerNoInsertion(toks, i + 1, asWritten);
      NoOpenerStep(toks, i, asWritten);
    } else {
      assert toks[i..] == [];
    }
  }

  /** One token with nothing open and no opener: it is kept and nothing
      is inserted after it. */
  lemma NoOpenerStep(toks: seq<Token>, i: nat, asWritten: bool)
    requires i < |toks| && toks[i].kind != LBrace && toks[i].kind != LBracket
    requires Inserted !in RepairFrom(toks, i + 1, [], asWritten)
    requires Render(RepairFrom(toks, i + 1, [], asWritten)) == Concat(toks[i + 1..])
    ensures Inserted !in RepairFrom(toks, i, [], asWritten)
    ensures Render(RepairFrom(toks, i, [], asWritten)) == Concat(toks[i..])
  {
    var rest := RepairFrom(toks, i + 1, [], asWritten);
    assert RepairFrom(toks, i, [], asWritten) == [Keep(toks[i])] + rest by {
      assert RepairTurn(toks, i, [], asWritten) == Turn([Keep(toks[i])], i + 1, []);
    }
    RenderOne(toks[i]);
    RenderAppend([Keep(toks[i])], rest);
    SuffixSplit(toks, i, i + 1);
    ConcatAppend([toks[i]], toks[i + 1..]);
    assert Concat([toks[i]]) == toks[i].lex by { assert [toks[i]][1..] == []; }
  }

  /** The tokens of `[1]`. */
  const OneElementArray: seq<Token> := [Token(LBracket, "["), Token(Number, "1"), Token(RBracket, "]")]

  /** The three turns of the loop over `[1]`: the opener pushes an array
      context, the number keeps its place and is followed by a comma exactly
      when the lookahead admits `]`, and the closer pops the context. */
  lemma OneElementTurns(asWritten: bool)
    ensures RepairTurn(OneElementArray, 0, [], asWritten) == Turn([Keep(OneElementArray[0])], 1, [Array])
    ensures RepairTurn(OneElementArray, 1, [Array], asWritten)
      == Turn([Keep(OneElementArray[1])] + (if asWritten then [Inserted] else []), 2, [Array])
    ensures RepairTurn(OneElementArray, 2, [Array], asWritten) == Turn([Keep(OneElementArray[2])], 3, [])
  {
    OneElementValueTurn(asWritten);
  }

  /** The turn at the number of `[1]`. */
  lemma OneElementValueTurn(asWritten: bool)
    ensures RepairTurn(OneElementArray, 1, [Array], asWritten)
      == Turn([Keep(OneElementArray[1])] + (if asWritten then [Inserted] else []), 2, [Array])
  {
    var toks := OneElementArray;
    assert SkipWsTokens(toks, 2) == 2;
    assert Keeps(toks, 2, 2) == [];
  }

  /** The pieces of the repaired `[1]`. */
  lemma OneElementPieces(asWritten: bool)
    ensures Repair(OneElementArray, asWritten)
      == [Keep(OneElementArray[0]), Keep(OneElementArray[1])] + (if asWritten then [Inserted] else []) + [Keep(OneElementArray[2])]
  {
    var toks := OneElementArray;
    OneElementTurns(asWritten);
    var r2 := RepairFrom(toks, 2, [Array], asWritten);
    assert r2 == [Keep(toks[2])] + RepairFrom(toks, 3, [], asWritten);
    assert r2 == [Keep(toks[2])];
    var r1 := RepairFrom(toks, 1, [Array], asWritten);
    assert r1 == [Keep(toks[1])] + (if asWritten then [Inserted] else []) + r2;
    assert Repair(toks, asWritten) == [Keep(toks[0])] + r1;
  }

  /** How the repaired `[1]` renders. */
  lemma OneElementRender(asWritten: bool)
    ensures Render(Repair(OneElementArray, asWritten)) == if asWritten then "[1,]" else "[1]"
  {
    var toks := OneElementArray;
    OneElementPieces(asWritten);
    var close := [Keep(toks[2])];
    assert Render(close) == "]" by { RenderOne(toks[2]); }
    var mid := (if asWritten then [Inserted] else []) + close;
    assert Render(mid) == (if asWritten then "," else "") + "]" by {
      if asWritten { assert mid[1..] == close; }
      else { assert mid == close; }
    }
    var one := [Keep(toks[1])] + mid;
    assert Render(one) == "1" + Render(mid) by { assert one[1..] == mid; }
    var all := [Keep(toks[0])] + one;
    assert Render(all) == "[" + Render(one) by { assert all[1..] == one; }
    assert Repair(toks, asWritten) == all;
  }

  /** As written, the array lookahead admits `]`, so a one-element array
      gains a trailing comma and is no longer JSON. */
  lemma ClosingBracketGetsComma()
    ensures Render(Repair(OneElementArray, true)) == "[1,]"
    ensures Render(Repair(Lex("[1]"), true)) == "[1,]"
  {
    OneElementRender(true);
    LexOneElement();
  }

  /** With the intended lookahead a one-element array is left alone. */
  lemma ClosingBracketKeptIntended()
    ensures Render(Repair(OneElementArray, false)) == "[1]"
    ensures Render(Repair(Lex("[1]"), false)) == "[1]"
  {
    OneElementRender(false);
    LexOneElement();
  }

  /** The text `[1]` lexes to the three tokens of OneElementArray. */
  lemma LexOneElement()
    ensures Lex("[1]") == OneElementArray
  {
    var s: string := "[1]";
    LexOneElementTail();
    LexFromStep(s, 0);
    ScanOneElement();
    assert s[0..1] == "[";
  }

  /** From the number on, `[1]` lexes to the number and the closer. */
  lemma LexOneElementTail()
    ensures LexFrom("[1]", 1) == [Token(Number, "1"), Token(RBracket, "]")]
  {
    var s: string := "[1]";
    LexOneElementClose();
    LexFromStep(s, 1);
    ScanOneElement();
    assert s[1..2] == "1";
  }

  /** The last token of `[1]` is its closer. */
  lemma LexOneElementClose()
    ensures LexFrom("[1]", 2) == [Token(RBracket, "]")]
  {
    var s: string := "[1]";
    LexFromStep(s, 2);
    ScanOneElement();
    assert s[2..3] == "]";
  }

  /** The scan of `[1]` at each of its three characters. */
  lemma ScanOneElement()
    ensures Scan("[1]", 0) == (LBracket, 1)
    ensures Scan("[1]", 1) == (Number, 2)
    ensures Scan("[1]", 2) == (RBracket, 3)
  {
    var s: string := "[1]";
    assert Scan(s, 0) == (LBracket, 1);
    assert Scan(s, 1) == (Number, 2);
  }
}
