/** Picking the payload out of what the model returned: the root selection
    and tool-use extraction of main_app.py, and the tool-block unwrap and
    result checks of streamlit_app.py. */
module Envelope {
  import opened Wrappers
  import opened Text
  import opened Json
  import Cleanup

  // ---------------------------------------------------------------------
  // _waehle_root

  /** The payload already sits at the top: it holds `speiseplan`, `rezepte`
      or `tag`. */
  predicate IsRoot(v: Value) {
    Has(v, "speiseplan") || Has(v, "rezepte") || Has(v, "tag")
  }

  /** The wrapper keys, in the order they are tried. */
  const WrapperKeys: seq<string> := ["data", "result", "output"]

  /** The value under a wrapper key, when it is a root. */
  predicate WrapsRoot(v: Value, key: string)
    requires v.Obj?
  {
    Get(v, key).Obj? && IsRoot(Get(v, key))
  }

  /** _waehle_root(parsed) */
  function WaehleRoot(v: Value): (r: Value)
    ensures !v.Obj? || IsRoot(v) ==> r == v
    ensures v.Obj? && !IsRoot(v) ==>
      (exists k :: 0 <= k < |WrapperKeys| && r == Get(v, WrapperKeys[k]) && WrapsRoot(v, WrapperKeys[k]) &&
                   forall j :: 0 <= j < k ==> !WrapsRoot(v, WrapperKeys[j]))
      || (r == v && forall k :: 0 <= k < |WrapperKeys| ==> !WrapsRoot(v, WrapperKeys[k]))
    ensures r == v || IsRoot(r)
  {
    var keys := WrapperKeys;
    assert keys[0] == "data" && keys[1] == "result" && keys[2] == "output";
    if !v.Obj? || IsRoot(v) then v
    else if WrapsRoot(v, keys[0]) then Get(v, keys[0])
    else if WrapsRoot(v, keys[1]) then Get(v, keys[1])
    else if WrapsRoot(v, keys[2]) then Get(v, keys[2])
    else v
  }

  /** Choosing the root twice changes nothing. */
  lemma WaehleRootIdempotent(v: Value)
    ensures WaehleRoot(WaehleRoot(v)) == WaehleRoot(v)
  {
  }

  // ---------------------------------------------------------------------
  // _extract_tool_input_from_anthropic

  /** A content item that is a dict with type `tool_use`. */
  predicate IsToolUse(item: Value) {
    item.Obj? && Get(item, "type") == Str("tool_use")
  }

  /** `item.get("input")` of the first tool_use item, None when that item has
      no input or a null one; None when no item is a tool_use. */
  function FirstToolInput(items: seq<Value>): (r: Option<Value>)
    ensures r.Some? ==> r.value != Null
    ensures r.Some? ==> exists k :: 0 <= k < |items| && IsToolUse(items[k]) && Get(items[k], "input") == r.value &&
                                  forall j :: 0 <= j < k ==> !IsToolUse(items[j])
    ensures (forall k :: 0 <= k < |items| ==> !IsToolUse(items[k])) ==> r == None
  {
    if items == [] then None
    else if IsToolUse(items[0]) then
      (if Get(items[0], "input") == Null then None else Some(Get(items[0], "input")))
    else
      var r := FirstToolInput(items[1..]);
      assert forall k :: 1 <= k < |items| ==> items[k] == items[1..][k - 1];
      r
  }

  /** _extract_tool_input_from_anthropic(data): a missing or non-list
      `content`, or a `data` that is not a dict, gives None (the exceptions
      are swallowed). */
  function ExtractToolInput(data: Value): (r: Option<Value>)
    ensures !data.Obj? || !Get(data, "content").Arr? ==> r == None
    ensures data.Obj? && Get(data, "content").Arr? ==> r == FirstToolInput(Get(data, "content").items)
  {
    if data.Obj? && Get(data, "content").Arr? then FirstToolInput(Get(data, "content").items)
    else None
  }

  /** The first tool_use block decides: a later block is never consulted. */
  lemma FirstToolUseDecides(before: seq<Value>, block: Value, after: seq<Value>)
    requires forall j :: 0 <= j < |before| ==> !IsToolUse(before[j])
    requires IsToolUse(block)
    ensures FirstToolInput(before + [block] + after)
      == if Get(block, "input") == Null then None else Some(Get(block, "input"))
  {
    if before != [] {
      assert (before + [block] + after)[1..] == before[1..] + [block] + after;
      FirstToolUseDecides(before[1..], block, after);
    } else {
      assert (before + [block] + after)[0] == block;
    }
  }

  // ---------------------------------------------------------------------
  // Tool-block unwrap in rufe_claude_api (streamlit_app.py)

  /** What the answer of rufe_claude_api turns into. */
  datatype Reply =
    | Payload(v: Value)
    | ParseFailed(msg: string)
    | NoAnswer
    | Raised

  /** A block the unwrap looks at: a tool_use block named return_json. */
  predicate IsReturnJson(block: Value)
    requires block.Obj?
  {
    Get(block, "type") == Str("tool_use") && Get(block, "name") == Str("return_json")
  }

  /** The payload of one return_json block: `block['input']['input']` when
      the block input is a dict holding `input`, else the block input when
      it is a dict, else nothing (the loop goes on). */
  function Unwrap(block: Value): (r: Option<Value>)
    requires block.Obj?
    ensures Get(block, "input").Obj? && Has(Get(block, "input"), "input") ==> r == Some(Get(Get(block, "input"), "input"))
    ensures Get(block, "input").Obj? && !Has(Get(block, "input"), "input") ==> r == Some(Get(block, "input"))
    ensures !Get(block, "input").Obj? ==> r == None
  {
    var inp := Get(block, "input");
    if Has(block, "input") && inp.Obj? && Has(inp, "input") then Some(Get(inp, "input"))
    else if Has(block, "input") && inp.Obj? then Some(inp)
    else None
  }

  /** A block the loop passes over: a dict that is not a return_json block
      with a dict input. */
  predicate PassedOver(block: Value) {
    block.Obj? && !(IsReturnJson(block) && Unwrap(block).Some?)
  }

  /** Block k is the first one the loop does not pass over. */
  predicate DecidesAt(blocks: seq<Value>, k: int) {
    0 <= k < |blocks| && !PassedOver(blocks[k]) && forall j :: 0 <= j < k ==> PassedOver(blocks[j])
  }

  /** How a block that is not passed over ends the loop: with its payload
      when it is a dict, raising when it is not (`block.get` fails). */
  function Decision(block: Value): Reply
    requires !PassedOver(block)
  {
    if block.Obj? then Payload(Unwrap(block).value) else Raised
  }

  /** The loop over the content blocks: the first block that is not passed
      over ends it. When every block is passed over the loop falls
      through. */
  function UnwrapBlocks(blocks: seq<Value>): (r: Option<Reply>)
    ensures r.None? <==> forall k :: 0 <= k < |blocks| ==> PassedOver(blocks[k])
    ensures r.Some? ==> exists k :: DecidesAt(blocks, k) && r.value == Decision(blocks[k])
  {
    if blocks == [] then None
    else if !PassedOver(blocks[0]) then
      assert DecidesAt(blocks, 0);
      Some(Decision(blocks[0]))
    else
      var r := UnwrapBlocks(blocks[1..]);
      PassedOverShift(blocks);
      r
  }

  /** Behind a first block that is passed over, the loop sees the rest. */
  lemma PassedOverShift(blocks: seq<Value>)
    requires blocks != [] && PassedOver(blocks[0])
    ensures (forall k :: 0 <= k < |blocks| ==> PassedOver(blocks[k]))
      <==> (forall k :: 0 <= k < |blocks[1..]| ==> PassedOver(blocks[1..][k]))
    ensures forall k :: DecidesAt(blocks[1..], k) ==> DecidesAt(blocks, k + 1)
  {
    assert forall k :: 1 <= k < |blocks| ==> blocks[k] == blocks[1..][k - 1];
  }

  /** The answer of rufe_claude_api for a response whose `content` is the
      list `blocks`: the tool blocks first, then the text of the first block,
      cleaned and parsed. */
  function ReadReply(blocks: seq<Value>, parse: string -> Result<Value, string>): (r: Reply)
    ensures UnwrapBlocks(blocks).Some? ==> r == UnwrapBlocks(blocks).value
    ensures UnwrapBlocks(blocks).None? && blocks == [] ==> r == NoAnswer
    ensures UnwrapBlocks(blocks).None? && blocks != [] && !Truthy(Get(blocks[0], "text")) ==> r == NoAnswer
    ensures UnwrapBlocks(blocks).None? && blocks != [] && Truthy(Get(blocks[0], "text")) && !Get(blocks[0], "text").Str? ==>
      r == Raised
    ensures UnwrapBlocks(blocks).None? && blocks != [] && Truthy(Get(blocks[0], "text")) && Get(blocks[0], "text").Str? ==>
      var parsed := parse(Cleanup.BereinigeJson(Get(blocks[0], "text").s));
      (parsed.Ok? ==> r == Payload(parsed.value)) && (parsed.Err? ==> r == ParseFailed(parsed.error))
  {
    match UnwrapBlocks(blocks)
    case Some(reply) => reply
    case None =>
      if blocks == [] then NoAnswer
      else
        // blocks[0] is a dict here, or the loop would have raised
        var text := Get(blocks[0], "text");
        if !Truthy(text) then NoAnswer
        else if !text.Str? then Raised
        else match parse(Cleanup.BereinigeJson(text.s))
          case Ok(v) => Payload(v)
          case Err(e) => ParseFailed(e)
  }

  /** A return_json block whose input wraps another `input` hands over the
      inner one, and an earlier block that is not return_json is passed
      over. */
  lemma UnwrapNested(other: Value, block: Value, inner: Value)
    requires other.Obj? && !IsReturnJson(other)
    requires block.Obj? && IsReturnJson(block)
    requires Get(block, "input") == Obj([("input", inner)])
    ensures ReadReply([other, block], x => Err("")) == Payload(inner)
  {
    var blocks := [other, block];
    assert blocks[1..] == [block];
    assert UnwrapBlocks([block]) == Some(Payload(inner));
  }

  // ---------------------------------------------------------------------
  // Result checks in generiere_rezepte_batch (streamlit_app.py)

  datatype BatchError = NoData | NotDict | MissingRezepte

  /** The checks on the parsed recipe answer; `None` is JSON null. The
      list-wrapping branch sits behind the dict check and never runs. */
  function CheckRezepte(d: Value): (r: Result<Value, BatchError>)
    ensures r.Ok? <==> d.Obj? && Has(d, "rezepte")
    ensures r.Ok? ==> r.value == d
    ensures d.Arr? ==> r.Err?
  {
    if !Truthy(d) then Err(NoData)
    else if !d.Obj? then Err(NotDict)
    else if !Has(d, "rezepte") then
      (if d.Arr? then Ok(Obj([("rezepte", d)])) else Err(MissingRezepte))
    else Ok(d)
  }
}
