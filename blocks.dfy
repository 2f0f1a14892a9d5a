/**
  The reply payload builder (slash_slack/blocks.py): whatever a handler
  returns is normalised into a Slack Block Kit message, a JSON object with a
  list of blocks and a visibility marker.
 */
module Blocks {
  import opened Common

  /** A JSON value. */
  datatype Json =
    | JNull
    | JBool(b: bool)
    | JInt(i: int)
    | JStr(s: string)
    | JArr(elems: seq<Json>)
    | JObj(fields: map<string, Json>)

  /** An element of a list returned by a handler. */
  datatype Item = StrItem(s: string) | DictItem(d: map<string, Json>) | OtherItem

  /**
    What a handler returns: None, a str, a dict, a list, or any other value,
    given by its `str()` form.
   */
  datatype Content =
    | NoContent
    | Text(text: string)
    | Dict(dict: map<string, Json>)
    | Items(items: seq<Item>)
    | Scalar(repr: string)

  /** `_make_mrkdown_block`: a section block holding mrkdwn text. */
  function MrkdwnBlock(text: string): Json {
    JObj(map["type" := JStr("section"), "text" := JObj(map["type" := JStr("mrkdwn"), "text" := JStr(text)])])
  }

  /** `_make_header_block`: a header block holding plain text. */
  function HeaderBlock(heading: string): Json {
    JObj(map["type" := JStr("header"), "text" := JObj(map["type" := JStr("plain_text"), "text" := JStr(heading)])])
  }

  /** The text of a block of the given kind, if `j` is one. */
  function BlockText(j: Json, blockType: string, textType: string): (r: Option<string>)
    ensures r.Some? ==> j.JObj? && "type" in j.fields && j.fields["type"] == JStr(blockType)
  {
    if j.JObj? && "type" in j.fields && j.fields["type"] == JStr(blockType) && "text" in j.fields then
      var t := j.fields["text"];
      if t.JObj? && "type" in t.fields && t.fields["type"] == JStr(textType) && "text" in t.fields
         && t.fields["text"].JStr? then Some(t.fields["text"].s)
      else None
    else None
  }

  /** A mrkdwn block gives back its text, and is not a header block. */
  lemma MrkdwnBlockText(text: string)
    ensures BlockText(MrkdwnBlock(text), "section", "mrkdwn") == Some(text)
    ensures BlockText(MrkdwnBlock(text), "header", "plain_text") == None
  {
  }

  /** A header block gives back its heading, and is not a mrkdwn block. */
  lemma HeaderBlockText(heading: string)
    ensures BlockText(HeaderBlock(heading), "header", "plain_text") == Some(heading)
    ensures BlockText(HeaderBlock(heading), "section", "mrkdwn") == None
  {
  }

  /** The blocks a list contributes: str items as mrkdwn sections, dicts as they are, nothing else. */
  function Formatted(items: seq<Item>): seq<Json>
  {
    if items == [] then []
    else
      (match items[0]
       case StrItem(s) => [MrkdwnBlock(s)]
       case DictItem(d) => [JObj(d)]
       case OtherItem => [])
      + Formatted(items[1..])
  }

  lemma {:induction false} FormattedAppend(a: seq<Item>, b: seq<Item>)
    ensures Formatted(a + b) == Formatted(a) + Formatted(b)
  {
    if a == [] {
      assert a + b == b;
    } else {
      assert (a + b)[0] == a[0];
      assert (a + b)[1..] == a[1..] + b;
      FormattedAppend(a[1..], b);
    }
  }

  /** The items that contribute a block. */
  predicate Kept(it: Item) {
    it.StrItem? || it.DictItem?
  }

  function CountKept(items: seq<Item>): nat {
    if items == [] then 0 else (if Kept(items[0]) then 1 else 0) + CountKept(items[1..])
  }

  /** One block per str or dict item, and none for any other item. */
  lemma {:induction false} FormattedLength(items: seq<Item>)
    ensures |Formatted(items)| == CountKept(items)
  {
    if items != [] {
      FormattedLength(items[1..]);
    }
  }

  /** The kept items of a list, in order. */
  function KeptItems(items: seq<Item>): (r: seq<Item>)
    ensures forall k :: 0 <= k < |r| ==> Kept(r[k])
  {
    if items == [] then []
    else if Kept(items[0]) then [items[0]] + KeptItems(items[1..])
    else KeptItems(items[1..])
  }

  function ItemBlock(it: Item): Json
    requires Kept(it)
  {
    if it.StrItem? then MrkdwnBlock(it.s) else JObj(it.d)
  }

  /** The formatted blocks are the kept items, in their order, each turned into its block. */
  lemma {:induction false} FormattedIsFilterThenMap(items: seq<Item>)
    ensures var kept := KeptItems(items);
      Formatted(items) == seq(|kept|, k requires 0 <= k < |kept| => ItemBlock(kept[k]))
  {
    if items != [] {
      FormattedIsFilterThenMap(items[1..]);
    }
  }

  /** A list of strings becomes one mrkdwn section per string, in order, each holding that string. */
  lemma {:induction false} FormattedStrings(items: seq<Item>)
    requires forall k :: 0 <= k < |items| ==> items[k].StrItem?
    ensures |Formatted(items)| == |items|
    ensures forall k :: 0 <= k < |items| ==> Formatted(items)[k] == MrkdwnBlock(items[k].s)
  {
    if items != [] {
      FormattedStrings(items[1..]);
    }
  }

  /** The blocks of the message before any header. */
  function BodyBlocks(c: Content): seq<Json> {
    match c
    case NoContent => []
    case Text(s) => [MrkdwnBlock(s)]
    case Dict(d) => [JObj(d)]
    case Items(xs) => Formatted(xs)
    case Scalar(s) => [MrkdwnBlock(s)]
  }

  function ResponseType(visibleInChannel: bool): string {
    if visibleInChannel then "in_channel" else "ephemeral"
  }

  /** No reply at all: None or the empty string. */
  predicate Silent(c: Content) {
    c == NoContent || c == Text("")
  }

  /**
    `_make_block_message`: `{}` for None or `""`; otherwise the blocks of the
    content, preceded by a header block when a non-empty header is given, and
    the response type that makes the reply visible in the channel or only to
    the requester.
   */
  method MakeBlockMessage(blocks: Content, header: Option<string>, visibleInChannel: bool) returns (r: Json)
    ensures Silent(blocks) ==> r == JObj(map[])
    ensures !Silent(blocks) ==> r.JObj? && r.fields.Keys == {"blocks", "response_type"}
    ensures !Silent(blocks) ==> r.fields["response_type"] == JStr(ResponseType(visibleInChannel))
    ensures !Silent(blocks) ==>
      r.fields["blocks"] == JArr((if header.Some? && header.value != "" then [HeaderBlock(header.value)] else []) + BodyBlocks(blocks))
  {
    var outputBlocks: seq<Json> := [];
    if blocks.NoContent? || blocks == Text("") {
      return JObj(map[]);
    }
    match blocks {
      case Dict(d) =>
        outputBlocks := [JObj(d)];
      case Items(xs) =>
        var formattedBlocks: seq<Json> := [];
        for k := 0 to |xs|
          invariant formattedBlocks == Formatted(xs[..k])
        {
          FormattedAppend(xs[..k], [xs[k]]);
          assert xs[..k + 1] == xs[..k] + [xs[k]];
          var block := xs[k];
          if block.StrItem? {
            formattedBlocks := formattedBlocks + [MrkdwnBlock(block.s)];
          }
          if block.DictItem? {
            formattedBlocks := formattedBlocks + [JObj(block.d)];
          }
        }
        assert xs[..|xs|] == xs;
        outputBlocks := formattedBlocks;
      case Text(s) =>
        outputBlocks := [MrkdwnBlock(s)];
      case Scalar(s) =>
        outputBlocks := [MrkdwnBlock(s)];
    }
    if header.Some? && header.value != "" {
      outputBlocks := [HeaderBlock(header.value)] + outputBlocks;
    }
    r := JObj(map["blocks" := JArr(outputBlocks), "response_type" := JStr(ResponseType(visibleInChannel))]);
  }
}
