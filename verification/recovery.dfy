/** parse_json_loose in main_app.py: sanitise the model's text, then try in
    turn the whole text, every bracketed span longest first, the text with
    line-end commas removed and finally the comma-repaired text. */
module Recovery {
  import opened Wrappers
  import opened Text
  import opened Json
  import opened Substitutions
  import opened Sanitizer
  import opened Lexer
  import opened CommaRepair

  // ---------------------------------------------------------------------
  // Bracketed spans

  /** The spans the scan for one opener/closer pair records from index i on,
      with the given stack of open positions. Every closer that meets an
      open opener pops it and records the span between them; the scan does
      not know about string literals. */
  function SpansFrom(text: string, i: nat, stack: seq<nat>, opener: char, closer: char): seq<string>
    requires i <= |text|
    requires forall k :: 0 <= k < |stack| ==> stack[k] < i
    decreases |text| - i
  {
    if i == |text| then []
    else if text[i] == opener then SpansFrom(text, i + 1, stack + [i], opener, closer)
    else if text[i] == closer && stack != [] then
      [text[stack[|stack| - 1]..i + 1]] + SpansFrom(text, i + 1, stack[..|stack| - 1], opener, closer)
    else SpansFrom(text, i + 1, stack, opener, closer)
  }

  function Spans(text: string, opener: char, closer: char): seq<string> {
    SpansFrom(text, 0, [], opener, closer)
  }

  /** The candidates list: the `{}` spans, then the `[]` spans. */
  function Candidates(text: string): seq<string> {
    Spans(text, '{', '}') + Spans(text, '[', ']')
  }

  /** The scan for one opener/closer pair in parse_json_loose. */
  method BracketSpans(text: string, opener: char, closer: char) returns (spans: seq<string>)
    ensures spans == Spans(text, opener, closer)
  {
    spans := [];
    var stack: seq<nat> := [];
    var i := 0;
    while i < |text|
      invariant i <= |text|
      invariant forall k :: 0 <= k < |stack| ==> stack[k] < i
      invariant spans + SpansFrom(text, i, stack, opener, closer) == Spans(text, opener, closer)
      decreases |text| - i
    {
      var ch := text[i];
      if ch == opener {
        stack := stack + [i];
      } else if ch == closer && stack != [] {
        var start := stack[|stack| - 1];
        stack := stack[..|stack| - 1];
        spans := spans + [text[start..i + 1]];
      }
      i := i + 1;
    }
  }

  /** The opener count minus the closer count. */
  function Net(s: string, opener: char, closer: char): int {
    if s == [] then 0
    else
      var last := s[|s| - 1];
      Net(s[..|s| - 1], opener, closer) + (if last == opener then 1 else if last == closer then -1 else 0)
  }

  /** A matched span: it opens with the opener, closes with the closer, every
      proper prefix has more openers than closers and the whole has as many
      of each. */
  predicate Matched(s: string, opener: char, closer: char) {
    2 <= |s| && s[0] == opener && s[|s| - 1] == closer
    && Net(s, opener, closer) == 0
    && forall j :: 0 < j < |s| ==> Net(s[..j], opener, closer) >= 1
  }

  /** What the scan knows about its stack at index i. */
  predicate StackInv(text: string, i: nat, stack: seq<nat>, opener: char, closer: char) {
    i <= |text|
    && (forall k :: 0 <= k < |stack| ==> stack[k] < i && text[stack[k]] == opener)
    && (forall k :: 0 <= k < |stack| ==> Net(text[stack[k]..i], opener, closer) == |stack| - k)
    && (forall k, j :: 0 <= k < |stack| && stack[k] < j <= i ==> Net(text[stack[k]..j], opener, closer) >= 1)
  }

  lemma NetSnoc(text: string, a: nat, j: nat, opener: char, closer: char)
    requires a <= j < |text|
    ensures Net(text[a..j + 1], opener, closer) == Net(text[a..j], opener, closer)
      + (if text[j] == opener then 1 else if text[j] == closer then -1 else 0)
  {
    assert text[a..j + 1][..j - a] == text[a..j];
  }

  /** An opener is pushed. */
  lemma StackPush(text: string, i: nat, stack: seq<nat>, opener: char, closer: char)
    requires i < |text| && text[i] == opener && StackInv(text, i, stack, opener, closer)
    ensures StackInv(text, i + 1, stack + [i], opener, closer)
  {
    var st := stack + [i];
    forall k | 0 <= k < |stack| ensures Net(text[stack[k]..i + 1], opener, closer) == |st| - k {
      NetSnoc(text, stack[k], i, opener, closer);
    }
    assert Net(text[i..i + 1], opener, closer) == 1 by {
      assert text[i..i + 1][..0] == [];
    }
    forall k, j | 0 <= k < |st| && st[k] < j <= i + 1
      ensures Net(text[st[k]..j], opener, closer) >= 1
    {
      if j == i + 1 && k < |stack| {
        assert st[k] == stack[k];
      }
    }
  }

  /** A closer pops the innermost open opener. */
  lemma StackPop(text: string, i: nat, stack: seq<nat>, opener: char, closer: char)
    requires opener != closer
    requires i < |text| && text[i] == closer && stack != [] && StackInv(text, i, stack, opener, closer)
    ensures StackInv(text, i + 1, stack[..|stack| - 1], opener, closer)
  {
    var st := stack[..|stack| - 1];
    forall k | 0 <= k < |st| ensures Net(text[st[k]..i + 1], opener, closer) == |st| - k {
      NetSnoc(text, stack[k], i, opener, closer);
    }
    forall k, j | 0 <= k < |st| && st[k] < j <= i + 1
      ensures Net(text[st[k]..j], opener, closer) >= 1
    {
      assert st[k] == stack[k];
    }
  }

  /** Any other character, or a closer with nothing open, leaves the stack. */
  lemma StackKeep(text: string, i: nat, stack: seq<nat>, opener: char, closer: char)
    requires i < |text| && text[i] != opener && (text[i] != closer || stack == [])
    requires StackInv(text, i, stack, opener, closer)
    ensures StackInv(text, i + 1, stack, opener, closer)
  {
    forall k | 0 <= k < |stack| ensures Net(text[stack[k]..i + 1], opener, closer) == |stack| - k {
      NetSnoc(text, stack[k], i, opener, closer);
    }
  }

  /** The span a closer pops is matched. */
  lemma PoppedMatched(text: string, i: nat, stack: seq<nat>, opener: char, closer: char)
    requires opener != closer
    requires i < |text| && text[i] == closer && stack != [] && StackInv(text, i, stack, opener, closer)
    ensures Matched(text[stack[|stack| - 1]..i + 1], opener, closer)
  {
    var top := stack[|stack| - 1];
    var c := text[top..i + 1];
    NetSnoc(text, top, i, opener, closer);
    assert Net(text[top..i], opener, closer) == 1;
    forall j | 0 < j < |c| ensures Net(c[..j], opener, closer) >= 1 {
      assert c[..j] == text[top..top + j];
    }
  }

  /** Every span the scan records is matched and is a piece of the text. */
  lemma {:induction false} SpansFromMatched(text: string, i: nat, stack: seq<nat>, opener: char, closer: char)
    requires opener != closer
    requires StackInv(text, i, stack, opener, closer)
    ensures forall c :: c in SpansFrom(text, i, stack, opener, closer) ==>
      Matched(c, opener, closer) && exists lo :: InfixAt(c, text, lo)
    decreases |text| - i
  {
    if i < |text| {
      if text[i] == opener {
        StackPush(text, i, stack, opener, closer);
        SpansFromMatched(text, i + 1, stack + [i], opener, closer);
      } else if text[i] == closer && stack != [] {
        var top := stack[|stack| - 1];
        StackPop(text, i, stack, opener, closer);
        SpansFromMatched(text, i + 1, stack[..|stack| - 1], opener, closer);
        PoppedMatched(text, i, stack, opener, closer);
        assert InfixAt(text[top..i + 1], text, top);
      } else {
        StackKeep(text, i, stack, opener, closer);
        SpansFromMatched(text, i + 1, stack, opener, closer);
      }
    }
  }

  /** The recorded spans are matched pieces of the text. */
  lemma SpansMatched(text: string, opener: char, closer: char)
    requires opener != closer
    ensures forall c :: c in Spans(text, opener, closer) ==>
      Matched(c, opener, closer) && exists lo :: InfixAt(c, text, lo)
  {
    SpansFromMatched(text, 0, [], opener, closer);
  }

  /** The stack after the scan has looked at index i. */
  function NextStack(text: string, i: nat, stack: seq<nat>, opener: char, closer: char): seq<nat>
    requires i < |text|
  {
    if text[i] == opener then stack + [i]
    else if text[i] == closer && stack != [] then stack[..|stack| - 1]
    else stack
  }

  /** What the scan records at index i: the span a closer pops. */
  function Recorded(text: string, i: nat, stack: seq<nat>, opener: char, closer: char): seq<string>
    requires i < |text| && forall k :: 0 <= k < |stack| ==> stack[k] < i
  {
    if text[i] != opener && text[i] == closer && stack != [] then [text[stack[|stack| - 1]..i + 1]] else []
  }

  /** One step of the scan. */
  lemma SpansFromStep(text: string, i: nat, stack: seq<nat>, opener: char, closer: char)
    requires i < |text| && forall k :: 0 <= k < |stack| ==> stack[k] < i
    ensures forall k :: 0 <= k < |NextStack(text, i, stack, opener, closer)| ==> NextStack(text, i, stack, opener, closer)[k] < i + 1
    ensures SpansFrom(text, i, stack, opener, closer)
      == Recorded(text, i, stack, opener, closer) + SpansFrom(text, i + 1, NextStack(text, i, stack, opener, closer), opener, closer)
  {
  }

  /** The scan keeps its stack invariant. */
  lemma StackNext(text: string, i: nat, stack: seq<nat>, opener: char, closer: char)
    requires opener != closer
    requires i < |text| && StackInv(text, i, stack, opener, closer)
    ensures StackInv(text, i + 1, NextStack(text, i, stack, opener, closer), opener, closer)
  {
    if text[i] == opener {
      StackPush(text, i, stack, opener, closer);
    } else if text[i] == closer && stack != [] {
      StackPop(text, i, stack, opener, closer);
    } else {
      StackKeep(text, i, stack, opener, closer);
    }
  }

  /** The matched span text[lo..hi + 1] is still to be recorded at index i:
      the scan has not passed hi, and once past lo it holds lo open. */
  predicate Awaits(text: string, i: nat, stack: seq<nat>, lo: nat, hi: nat, opener: char, closer: char) {
    lo < hi < |text| && i <= hi && Matched(text[lo..hi + 1], opener, closer) && (lo < i ==> lo in stack)
  }

  /** A proper prefix of a matched span has more openers than closers. */
  lemma SpanPrefixOpen(text: string, lo: nat, hi: nat, j: nat, opener: char, closer: char)
    requires lo < j <= hi < |text| && Matched(text[lo..hi + 1], opener, closer)
    ensures Net(text[lo..j], opener, closer) >= 1
  {
    assert text[lo..hi + 1][..j - lo] == text[lo..j];
  }

  /** An awaited span stays awaited until the scan reaches its closer: no
      closer before hi pops lo, because every proper prefix of the span
      has more openers than closers. */
  lemma AwaitStep(text: string, i: nat, stack: seq<nat>, lo: nat, hi: nat, opener: char, closer: char)
    requires opener != closer
    requires StackInv(text, i, stack, opener, closer) && Awaits(text, i, stack, lo, hi, opener, closer) && i < hi
    ensures Awaits(text, i + 1, NextStack(text, i, stack, opener, closer), lo, hi, opener, closer)
  {
    if lo == i {
      assert text[i] == text[lo..hi + 1][0];
    } else if lo < i {
      var k :| 0 <= k < |stack| && stack[k] == lo;
      if text[i] != opener && text[i] == closer {
        SpanPrefixOpen(text, lo, hi, i + 1, opener, closer);
        NetSnoc(text, lo, i, opener, closer);
        assert k != |stack| - 1;
        assert stack[..|stack| - 1][k] == lo;
      }
    }
  }

  /** At its closer an awaited span is on top of the stack. */
  lemma AwaitRecorded(text: string, hi: nat, stack: seq<nat>, lo: nat, opener: char, closer: char)
    requires opener != closer
    requires StackInv(text, hi, stack, opener, closer) && Awaits(text, hi, stack, lo, hi, opener, closer)
    ensures Recorded(text, hi, stack, opener, closer) == [text[lo..hi + 1]]
  {
    var span := text[lo..hi + 1];
    var k :| 0 <= k < |stack| && stack[k] == lo;
    assert text[hi] == span[|span| - 1];
    NetSnoc(text, lo, hi, opener, closer);
  }

  /** The stack of open positions once the scan has looked at text[..i]. */
  function ScanStack(text: string, i: nat, opener: char, closer: char): (st: seq<nat>)
    requires i <= |text|
    ensures forall k :: 0 <= k < |st| ==> st[k] < i
  {
    if i == 0 then [] else NextStack(text, i - 1, ScanStack(text, i - 1, opener, closer), opener, closer)
  }

  /** The scan's own stack keeps the invariant. */
  lemma {:induction false} ScanStackInv(text: string, i: nat, opener: char, closer: char)
    requires opener != closer && i <= |text|
    ensures StackInv(text, i, ScanStack(text, i, opener, closer), opener, closer)
  {
    if i > 0 {
      ScanStackInv(text, i - 1, opener, closer);
      StackNext(text, i - 1, ScanStack(text, i - 1, opener, closer), opener, closer);
    }
  }

  /** The matched span text[lo..hi + 1] is still to be recorded by the
      scan at index i. */
  predicate AwaitsAt(text: string, i: nat, lo: nat, hi: nat, opener: char, closer: char)
    requires i <= |text|
  {
    Awaits(text, i, ScanStack(text, i, opener, closer), lo, hi, opener, closer)
  }

  /** An awaited span stays awaited past every index before its closer. */
  lemma ScanAwaitStep(text: string, i: nat, lo: nat, hi: nat, opener: char, closer: char)
    requires opener != closer && i < hi < |text| && AwaitsAt(text, i, lo, hi, opener, closer)
    ensures AwaitsAt(text, i + 1, lo, hi, opener, closer)
  {
    ScanStackInv(text, i, opener, closer);
    AwaitStep(text, i, ScanStack(text, i, opener, closer), lo, hi, opener, closer);
  }

  /** At its closer the scan records an awaited span. */
  lemma ScanRecorded(text: string, lo: nat, hi: nat, opener: char, closer: char)
    requires opener != closer && hi < |text| && AwaitsAt(text, hi, lo, hi, opener, closer)
    ensures Recorded(text, hi, ScanStack(text, hi, opener, closer), opener, closer) == [text[lo..hi + 1]]
  {
    ScanStackInv(text, hi, opener, closer);
    AwaitRecorded(text, hi, ScanStack(text, hi, opener, closer), lo, opener, closer);
  }

  lemma {:induction false} AwaitedFound(text: string, i: nat, lo: nat, hi: nat, opener: char, closer: char)
    requires opener != closer && i <= hi < |text| && AwaitsAt(text, i, lo, hi, opener, closer)
    ensures text[lo..hi + 1] in SpansFrom(text, i, ScanStack(text, i, opener, closer), opener, closer)
    decreases hi - i
  {
    if i == hi {
      ScanRecorded(text, lo, hi, opener, closer);
      FoundHere(text, i, ScanStack(text, i, opener, closer), text[lo..hi + 1], opener, closer);
    } else {
      ScanAwaitStep(text, i, lo, hi, opener, closer);
      AwaitedFound(text, i + 1, lo, hi, opener, closer);
      FoundLater(text, i, ScanStack(text, i, opener, closer), text[lo..hi + 1], opener, closer);
    }
  }

  /** What the step at i records is among the spans from i on. */
  lemma FoundHere(text: string, i: nat, stack: seq<nat>, x: string, opener: char, closer: char)
    requires i < |text| && forall k :: 0 <= k < |stack| ==> stack[k] < i
    requires Recorded(text, i, stack, opener, closer) == [x]
    ensures x in SpansFrom(text, i, stack, opener, closer)
  {
    SpansFromStep(text, i, stack, opener, closer);
    assert SpansFrom(text, i, stack, opener, closer)[0] == x;
  }

  /** A span recorded after the step at i is among the spans from i on. */
  lemma FoundLater(text: string, i: nat, stack: seq<nat>, x: string, opener: char, closer: char)
    requires i < |text| && forall k :: 0 <= k < |stack| ==> stack[k] < i
    requires x in SpansFrom(text, i + 1, NextStack(text, i, stack, opener, closer), opener, closer)
    ensures x in SpansFrom(text, i, stack, opener, closer)
  {
    SpansFromStep(text, i, stack, opener, closer);
  }

  /** x before y in `sp`. */
  predicate InOrder(sp: seq<string>, x: string, y: string) {
    exists p1, p2 :: 0 <= p1 < p2 < |sp| && sp[p1] == x && sp[p2] == y
  }

  lemma InOrderAppend(head: seq<string>, rest: seq<string>, x: string, y: string)
    requires InOrder(rest, x, y)
    ensures InOrder(head + rest, x, y)
  {
    var q1, q2 :| 0 <= q1 < q2 < |rest| && rest[q1] == x && rest[q2] == y;
    assert (head + rest)[|head| + q1] == x && (head + rest)[|head| + q2] == y;
  }

  lemma InOrderCons(x: string, rest: seq<string>, y: string)
    requires y in rest
    ensures InOrder([x] + rest, x, y)
  {
    var q :| 0 <= q < |rest| && rest[q] == y;
    assert ([x] + rest)[0] == x && ([x] + rest)[1 + q] == y;
  }

  lemma {:induction false} AwaitedInOrder(text: string, i: nat, lo1: nat, hi1: nat, lo2: nat, hi2: nat, opener: char, closer: char)
    requires opener != closer && i <= hi1 < hi2 < |text|
    requires AwaitsAt(text, i, lo1, hi1, opener, closer) && AwaitsAt(text, i, lo2, hi2, opener, closer)
    ensures InOrder(SpansFrom(text, i, ScanStack(text, i, opener, closer), opener, closer), text[lo1..hi1 + 1], text[lo2..hi2 + 1])
    decreases hi1 - i
  {
    if i == hi1 {
      ScanRecorded(text, lo1, hi1, opener, closer);
      ScanAwaitStep(text, i, lo2, hi2, opener, closer);
      AwaitedFound(text, i + 1, lo2, hi2, opener, closer);
      FirstHere(text, i, ScanStack(text, i, opener, closer), text[lo1..hi1 + 1], text[lo2..hi2 + 1], opener, closer);
    } else {
      ScanAwaitStep(text, i, lo1, hi1, opener, closer);
      ScanAwaitStep(text, i, lo2, hi2, opener, closer);
      AwaitedInOrder(text, i + 1, lo1, hi1, lo2, hi2, opener, closer);
      InOrderLater(text, i, ScanStack(text, i, opener, closer), text[lo1..hi1 + 1], text[lo2..hi2 + 1], opener, closer);
    }
  }

  /** The step at i records x, and y comes later. */
  lemma FirstHere(text: string, i: nat, stack: seq<nat>, x: string, y: string, opener: char, closer: char)
    requires i < |text| && forall k :: 0 <= k < |stack| ==> stack[k] < i
    requires Recorded(text, i, stack, opener, closer) == [x]
    requires y in SpansFrom(text, i + 1, NextStack(text, i, stack, opener, closer), opener, closer)
    ensures InOrder(SpansFrom(text, i, stack, opener, closer), x, y)
  {
    SpansFromStep(text, i, stack, opener, closer);
    InOrderCons(x, SpansFrom(text, i + 1, NextStack(text, i, stack, opener, closer), opener, closer), y);
  }

  /** An order among the spans recorded later survives this step. */
  lemma InOrderLater(text: string, i: nat, stack: seq<nat>, x: string, y: string, opener: char, closer: char)
    requires i < |text| && forall k :: 0 <= k < |stack| ==> stack[k] < i
    requires InOrder(SpansFrom(text, i + 1, NextStack(text, i, stack, opener, closer), opener, closer), x, y)
    ensures InOrder(SpansFrom(text, i, stack, opener, closer), x, y)
  {
    SpansFromStep(text, i, stack, opener, closer);
    InOrderAppend(Recorded(text, i, stack, opener, closer), SpansFrom(text, i + 1, NextStack(text, i, stack, opener, closer), opener, closer), x, y);
  }

  /** Every matched piece of the text, from an opener to the closer that
      matches it, is recorded as a candidate. */
  lemma MatchedSpanRecorded(text: string, opener: char, closer: char, lo: nat, hi: nat)
    requires opener != closer && lo < hi < |text|
    requires Matched(text[lo..hi + 1], opener, closer)
    ensures text[lo..hi + 1] in Spans(text, opener, closer)
  {
    AwaitedFound(text, 0, lo, hi, opener, closer);
  }

  /** Candidates are recorded in the order of their closing brackets: a
      matched span that closes first comes first. */
  lemma SpansInClosingOrder(text: string, opener: char, closer: char, lo1: nat, hi1: nat, lo2: nat, hi2: nat)
    requires opener != closer && lo1 < hi1 < hi2 < |text| && lo2 < hi2
    requires Matched(text[lo1..hi1 + 1], opener, closer) && Matched(text[lo2..hi2 + 1], opener, closer)
    ensures InOrder(Spans(text, opener, closer), text[lo1..hi1 + 1], text[lo2..hi2 + 1])
  {
    AwaitedInOrder(text, 0, lo1, hi1, lo2, hi2, opener, closer);
  }

  /** The scan does not skip string literals: a closer inside a string
      closes the span. */
  lemma CloserInStringCloses()
    ensures Spans("{\"}\"}", '{', '}') == ["{\"}"]
  {
    var t: string := "{\"}\"}";
    assert SpansFrom(t, 5, [], '{', '}') == [];
    assert SpansFrom(t, 4, [], '{', '}') == [];
    assert SpansFrom(t, 3, [], '{', '}') == [];
    assert t[0..3] == "{\"}";
    assert SpansFrom(t, 2, [0], '{', '}') == ["{\"}"];
    assert SpansFrom(t, 1, [0], '{', '}') == ["{\"}"];
  }

  /** Nested spans are all recorded, the inner one first. */
  lemma NestedSpansRecorded()
    ensures Spans("{{}}", '{', '}') == ["{}", "{{}}"]
  {
    var t: string := "{{}}";
    assert SpansFrom(t, 4, [], '{', '}') == [];
    assert t[0..4] == "{{}}";
    assert SpansFrom(t, 3, [0], '{', '}') == ["{{}}"];
    assert t[1..3] == "{}";
    assert SpansFrom(t, 2, [0, 1], '{', '}') == ["{}", "{{}}"];
  }

  // ---------------------------------------------------------------------
  // sorted(candidates, key=len, reverse=True)

  /** The elements of length n, in order. */
  function Bucket(cs: seq<string>, n: nat): (r: seq<string>)
    ensures forall k :: 0 <= k < |r| ==> |r[k]| == n
  {
    if cs == [] then []
    else (if |cs[0]| == n then [cs[0]] else []) + Bucket(cs[1..], n)
  }

  /** The buckets n, n-1, ..., 0, in that order. */
  function BucketsDown(cs: seq<string>, n: nat): (r: seq<string>)
    ensures forall k :: 0 <= k < |r| ==> |r[k]| <= n
  {
    (Bucket(cs, n) + if n == 0 then [] else BucketsDown(cs, n - 1))
  }

  function MaxLen(cs: seq<string>): (m: nat)
    ensures forall k :: 0 <= k < |cs| ==> |cs[k]| <= m
  {
    if cs == [] then 0 else var m := MaxLen(cs[1..]); if |cs[0]| > m then |cs[0]| else m
  }

  /** A stable sort by length, longest first: each length's elements in
      their original order, the lengths from the greatest down. */
  function SortByLenDesc(cs: seq<string>): seq<string> {
    BucketsDown(cs, MaxLen(cs))
  }

  lemma {:induction false} BucketAppend(a: seq<string>, b: seq<string>, n: nat)
    ensures Bucket(a + b, n) == Bucket(a, n) + Bucket(b, n)
  {
    if a == [] {
      assert a + b == b;
    } else {
      var head: seq<string> := if |a[0]| == n then [a[0]] else [];
      BucketAppend(a[1..], b, n);
      ConsAssoc(a[0], a[1..], b);
      assert [a[0]] + a[1..] == a;
      BucketCons(a[0], a[1..] + b, n);
      BucketCons(a[0], a[1..], n);
      AppendJoin(head, Bucket(a[1..], n), Bucket(b, n), Bucket(a + b, n), Bucket(a[1..] + b, n), Bucket(a, n));
    }
  }

  lemma BucketCons(x: string, cs: seq<string>, n: nat)
    ensures Bucket([x] + cs, n) == (if |x| == n then [x] else []) + Bucket(cs, n)
  {
    assert ([x] + cs)[0] == x && ([x] + cs)[1..] == cs;
  }

  lemma {:induction false} BucketOfBucket(cs: seq<string>, m: nat, n: nat)
    ensures Bucket(Bucket(cs, m), n) == if m == n then Bucket(cs, m) else []
  {
    if cs != [] {
      BucketOfBucket(cs[1..], m, n);
      var head: seq<string> := if |cs[0]| == m then [cs[0]] else [];
      BucketAppend(head, Bucket(cs[1..], m), n);
      if head != [] {
        assert Bucket(head, n) == (if m == n then head else []) by { assert head[1..] == []; }
      }
    }
  }

  /** BucketsDown(cs, m) holds each length up to m exactly as cs does. */
  lemma {:induction false} BucketsDownBucket(cs: seq<string>, m: nat, n: nat)
    ensures Bucket(BucketsDown(cs, m), n) == if n <= m then Bucket(cs, n) else []
  {
    var rest: seq<string> := if m == 0 then [] else BucketsDown(cs, m - 1);
    BucketAppend(Bucket(cs, m), rest, n);
    BucketOfBucket(cs, m, n);
    if m > 0 {
      BucketsDownBucket(cs, m - 1, n);
    }
  }

  lemma {:induction false} BucketAll(cs: seq<string>, n: nat)
    requires forall k :: 0 <= k < |cs| ==> |cs[k]| == n
    ensures Bucket(cs, n) == cs
  {
    if cs != [] {
      BucketAll(cs[1..], n);
    }
  }

  /** The elements of length at most m, in order. */
  function UpTo(cs: seq<string>, m: nat): seq<string> {
    if cs == [] then [] else (if |cs[0]| <= m then [cs[0]] else []) + UpTo(cs[1..], m)
  }

  lemma {:induction false} UpToSplit(cs: seq<string>, m: nat)
    requires m > 0
    ensures multiset(UpTo(cs, m)) == multiset(Bucket(cs, m)) + multiset(UpTo(cs, m - 1))
  {
    if cs != [] {
      UpToSplit(cs[1..], m);
    }
  }

  lemma {:induction false} BucketsDownMultiset(cs: seq<string>, m: nat)
    ensures multiset(BucketsDown(cs, m)) == multiset(UpTo(cs, m))
  {
    if m == 0 {
      assert UpTo(cs, 0) == Bucket(cs, 0) by { UpToZero(cs); }
    } else {
      BucketsDownMultiset(cs, m - 1);
      UpToSplit(cs, m);
    }
  }

  lemma {:induction false} UpToZero(cs: seq<string>)
    ensures UpTo(cs, 0) == Bucket(cs, 0)
  {
    if cs != [] {
      UpToZero(cs[1..]);
    }
  }

  lemma {:induction false} UpToAll(cs: seq<string>, m: nat)
    requires forall k :: 0 <= k < |cs| ==> |cs[k]| <= m
    ensures UpTo(cs, m) == cs
  {
    if cs != [] {
      UpToAll(cs[1..], m);
    }
  }

  /** The sort is a permutation, puts longer strings first and keeps the
      original order among strings of the same length. */
  lemma SortByLenDescCorrect(cs: seq<string>)
    ensures multiset(SortByLenDesc(cs)) == multiset(cs)
    ensures forall a, b :: 0 <= a < b < |SortByLenDesc(cs)| ==> |SortByLenDesc(cs)[a]| >= |SortByLenDesc(cs)[b]|
    ensures forall n: nat :: Bucket(SortByLenDesc(cs), n) == Bucket(cs, n)
  {
    var m := MaxLen(cs);
    BucketsDownMultiset(cs, m);
    UpToAll(cs, m);
    forall n: nat ensures Bucket(SortByLenDesc(cs), n) == Bucket(cs, n) {
      BucketsDownBucket(cs, m, n);
      if n > m {
        BucketEmpty(cs, n);
      }
    }
    BucketsDownDescending(cs, m);
  }

  lemma {:induction false} BucketEmpty(cs: seq<string>, n: nat)
    requires forall k :: 0 <= k < |cs| ==> |cs[k]| != n
    ensures Bucket(cs, n) == []
  {
    if cs != [] {
      BucketEmpty(cs[1..], n);
    }
  }

  lemma {:induction false} BucketsDownDescending(cs: seq<string>, m: nat)
    ensures forall a, b :: 0 <= a < b < |BucketsDown(cs, m)| ==> |BucketsDown(cs, m)[a]| >= |BucketsDown(cs, m)[b]|
  {
    var r := BucketsDown(cs, m);
    var bk := Bucket(cs, m);
    var rest: seq<string> := if m == 0 then [] else BucketsDown(cs, m - 1);
    assert r == bk + rest;
    if m > 0 {
      BucketsDownDescending(cs, m - 1);
    }
    forall a, b | 0 <= a < b < |r| ensures |r[a]| >= |r[b]| {
      if a < |bk| {
        assert |r[a]| == m;
        if b >= |bk| {
          assert r[b] == rest[b - |bk|];
        }
      } else {
        assert r[a] == rest[a - |bk|] && r[b] == rest[b - |bk|];
      }
    }
  }

  // ---------------------------------------------------------------------
  // The attempts

  /** The result of the first attempt that parses; when none does, the error
      of the last one (the final json.loads raises it to the caller). */
  function FirstOk(attempts: seq<string>, parse: string -> Result<Value, string>): (r: Result<Value, string>)
    requires attempts != []
    ensures r.Ok? <==> exists k :: 0 <= k < |attempts| && parse(attempts[k]).Ok?
    ensures r.Ok? ==> exists k :: 0 <= k < |attempts| && parse(attempts[k]) == r &&
                                  forall j :: 0 <= j < k ==> parse(attempts[j]).Err?
    ensures r.Err? ==> r == parse(attempts[|attempts| - 1])
  {
    var first := parse(attempts[0]);
    if first.Ok? || |attempts| == 1 then first
    else
      var rest := FirstOk(attempts[1..], parse);
      assert forall k :: 1 <= k < |attempts| ==> attempts[k] == attempts[1..][k - 1];
      rest
  }

  /** Once the attempts before k have failed, attempt k decides when it
      parses or is the last. */
  lemma {:induction false} FirstOkAt(attempts: seq<string>, parse: string -> Result<Value, string>, k: nat)
    requires k < |attempts|
    requires forall j :: 0 <= j < k ==> parse(attempts[j]).Err?
    requires parse(attempts[k]).Ok? || k == |attempts| - 1
    ensures FirstOk(attempts, parse) == parse(attempts[k])
  {
    if k > 0 {
      assert parse(attempts[0]).Err?;
      FirstOkAt(attempts[1..], parse, k - 1);
    }
  }

  /** The texts parse_json_loose hands to json.loads, in order. */
  function Attempts(text: string, asWritten: bool): (a: seq<string>)
    ensures |a| >= 3
  {
    AttemptsOn(SanitizeJsonText(text), asWritten)
  }

  /** The attempts for an already sanitised text t; `asWritten` selects
      the array lookahead of the comma repair. */
  function AttemptsOn(t: string, asWritten: bool): (a: seq<string>)
    ensures |a| >= 3
  {
    [t] + SortByLenDesc(Candidates(t)) + [DropCommaNewlines(t), Render(Repair(Lex(t), asWritten))]
  }

  /** parse_json_loose(text), with json.loads as the parameter `parse`. With
      `asWritten` set the comma repair uses the array lookahead as written,
      otherwise the intended one. */
  method ParseLoose(text: string, parse: string -> Result<Value, string>, asWritten: bool) returns (r: Result<Value, string>)
    ensures r == FirstOk(Attempts(text, asWritten), parse)
  {
    var t := SanitizeJsonText(text);
    r := TryAttempts(t, parse, asWritten);
  }

  /** parse_json_loose after its sanitising line. */
  method TryAttempts(t: string, parse: string -> Result<Value, string>, asWritten: bool) returns (r: Result<Value, string>)
    ensures r == FirstOk(AttemptsOn(t, asWritten), parse)
  {
    ghost var tail := [DropCommaNewlines(t), Render(Repair(Lex(t), asWritten))];
    r := parse(t);
    if r.Ok? {
      FirstOkAt(AttemptsOn(t, asWritten), parse, 0);
      return;
    }
    var braces := BracketSpans(t, '{', '}');
    var brackets := BracketSpans(t, '[', ']');
    var sorted := SortByLenDesc(braces + brackets);
    assert FirstOk(sorted + tail, parse) == FirstOk(AttemptsOn(t, asWritten), parse) by {
      ConsAssoc(t, sorted, tail);
      FirstOkCons(t, sorted + tail, parse);
    }
    var k := 0;
    while k < |sorted|
      invariant k <= |sorted|
      invariant FirstOk(sorted[k..] + tail, parse) == FirstOk(AttemptsOn(t, asWritten), parse)
      decreases |sorted| - k
    {
      r := parse(sorted[k]);
      SliceCons(sorted, k, tail);
      FirstOkCons(sorted[k], sorted[k + 1..] + tail, parse);
      if r.Ok? {
        return;
      }
      k := k + 1;
    }
    assert sorted[k..] == [];
    assert sorted[k..] + tail == [tail[0]] + [tail[1]];
    FirstOkCons(tail[0], [tail[1]], parse);
    var cleaned := DropCommaNewlines(t);
    r := parse(cleaned);
    if r.Ok? {
      return;
    }
    var repaired := AutoInsertCommas(t, asWritten);
    r := parse(repaired);
  }

  /** One attempt, then the rest when it fails. */
  lemma FirstOkCons(x: string, rest: seq<string>, parse: string -> Result<Value, string>)
    requires rest != []
    ensures FirstOk([x] + rest, parse) == if parse(x).Ok? then parse(x) else FirstOk(rest, parse)
  {
    assert ([x] + rest)[0] == x;
    assert ([x] + rest)[1..] == rest;
  }

  /** Whatever the text, the sanitised text is the first thing tried, and
      the repaired text is the last. */
  lemma ParseLooseOrder(text: string, parse: string -> Result<Value, string>, asWritten: bool)
    ensures parse(SanitizeJsonText(text)).Ok? ==> FirstOk(Attempts(text, asWritten), parse) == parse(SanitizeJsonText(text))
    ensures (forall k :: 0 <= k < |Attempts(text, asWritten)| ==> parse(Attempts(text, asWritten)[k]).Err?) ==>
      FirstOk(Attempts(text, asWritten), parse) == parse(Render(Repair(Lex(SanitizeJsonText(text)), asWritten)))
  {
    var a := Attempts(text, asWritten);
    if parse(SanitizeJsonText(text)).Ok? {
      FirstOkAt(a, parse, 0);
    }
    if forall k :: 0 <= k < |a| ==> parse(a[k]).Err? {
      FirstOkAt(a, parse, |a| - 1);
    }
  }
}
