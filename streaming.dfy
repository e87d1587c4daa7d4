/**
 * Display helpers for the agent's message stream, and the text that
 * `print_message` collects for its caller. The console output itself is not
 * modelled.
 */
module Streaming {
  import opened Common
  import opened Messages

  /** Python's `text[:k]`; a negative `k` counts from the end. */
  function PrefixSlice(text: string, k: int): (r: string)
    ensures r == text[..if k >= 0 then Min(k, |text|) else Max(0, |text| + k)]
  {
    if k >= |text| then text
    else if k >= 0 then text[..k]
    else if |text| + k >= 0 then text[..|text| + k]
    else ""
  }

  const Ellipsis := "..."

  /** `truncate`: the text itself when it fits in `maxLength`, else its first `maxLength` characters and "...". */
  function Truncate(text: string, maxLength: int): (r: string)
    ensures |text| <= maxLength ==> r == text
    ensures |text| > maxLength ==> |r| >= 3 && r[|r| - 3..] == Ellipsis && r[..|r| - 3] == PrefixSlice(text, maxLength)
    ensures maxLength >= 0 ==>
      && |r| <= Max(|text|, maxLength + 3)
      && r[..Min(|text|, maxLength)] == text[..Min(|text|, maxLength)]
    ensures |text| > maxLength >= 0 ==> |r| == maxLength + 3
    ensures |text| > maxLength && maxLength < 0 ==> |r| == Max(0, |text| + maxLength) + 3
  {
    if |text| <= maxLength then text else PrefixSlice(text, maxLength) + Ellipsis
  }

  /**
   * `format_tool_input`: the tool input as pretty-printed JSON, or, when the
   * serialiser raises (`dumps` gives None), its `str`, cut to 500 characters.
   */
  function FormatToolInput(toolInput: Json, dumps: Json -> Option<string>, repr: Json -> string): (r: string)
    ensures |r| <= 503
    ensures dumps(toolInput).Some? && |dumps(toolInput).value| <= 500 ==> r == dumps(toolInput).value
    ensures dumps(toolInput).None? && |repr(toolInput)| <= 500 ==> r == repr(toolInput)
  {
    match dumps(toolInput)
    case Some(formatted) => Truncate(formatted, 500)
    case None => Truncate(repr(toolInput), 500)
  }

  /** The texts of the text blocks among `blocks`, in order. */
  function BlockTexts(blocks: seq<Block>): seq<string>
    decreases |blocks|
  {
    if blocks == [] then []
    else
      var last := blocks[|blocks| - 1];
      BlockTexts(blocks[..|blocks| - 1]) + (if last.TextBlock? then [last.text] else [])
  }

  /** The text `print_message` collects from one message. */
  function CollectedText(m: Message): seq<string> {
    match m
    case AssistantMessage(content, _) => BlockTexts(content)
    case ResultMessage(_, _, result, _) => if result.Some? && result.value != "" then [result.value] else []
    case _ => []
  }

  lemma {:induction false} BlockTextsAppend(a: seq<Block>, b: seq<Block>)
    ensures BlockTexts(a + b) == BlockTexts(a) + BlockTexts(b)
    decreases |b|
  {
    if b == [] {
      assert a + b == a;
    } else {
      var k := |b| - 1;
      assert (a + b)[..|a| + k] == a + b[..k];
      BlockTextsAppend(a, b[..k]);
    }
  }

  /** Text blocks are collected one for one, and only they are. */
  lemma {:induction false} BlockTextsExactly(blocks: seq<Block>)
    ensures forall t :: t in BlockTexts(blocks) <==> TextBlock(t) in blocks
    decreases |blocks|
  {
    if blocks != [] {
      var k := |blocks| - 1;
      BlockTextsExactly(blocks[..k]);
      assert blocks == blocks[..k] + [blocks[k]];
    }
  }

  /** The caller-owned list that `print_message` appends to. */
  class TextCollector {
    var items: seq<string>

    constructor ()
      ensures items == []
    {
      items := [];
    }

    method Append(text: string)
      modifies this
      ensures items == old(items) + [text]
    {
      items := items + [text];
    }
  }

  /**
   * `print_message`: with a collector, append the text of each text block of
   * an assistant message in order, or a result message's non-empty result;
   * nothing else is appended and nothing already there changes. Without one
   * (`null`) nothing is collected.
   */
  method PrintMessage(message: Message, output: TextCollector?)
    modifies output
    ensures output != null ==> output.items == old(output.items) + CollectedText(message)
  {
    match message
    case AssistantMessage(content, _) =>
      for i := 0 to |content|
        invariant output != null ==> output.items == old(output.items) + BlockTexts(content[..i])
      {
        assert content[..i + 1] == content[..i] + [content[i]];
        BlockTextsAppend(content[..i], [content[i]]);
        var block := content[i];
        if block.TextBlock? && output != null {
          output.Append(block.text);
        }
      }
      assert content[..|content|] == content;
    case ResultMessage(_, _, result, _) =>
      if result.Some? && result.value != "" && output != null {
        output.Append(result.value);
      }
    case _ =>
  }
}
