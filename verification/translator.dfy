/** The per-line part of `stream_generator` (anthropic_manifold.py lines
    234-263): how one upstream line becomes zero or more text deltas and a
    decision about what happens next. JSON decoding itself is a parameter
    (`parse`); what the relay does with the decoded value is modelled here. */
module Translator {
  import Text

  /** One element of a `message` event's `content` list, as lines 255-257
      read it. */
  datatype Item =
    | TextItem(text: string)   // `{"type": "text", "text": ...}`
    | OtherItem                // a `"type"` other than "text": skipped
    | BadItem                  // no `"type"`, or a text item without `"text"`: KeyError

  /** A decoded JSON value, classified by the branch of lines 241-259 it takes. */
  datatype Event =
    | BlockStart(text: string)     // `content_block_start` with `content_block.text`
    | BlockDelta(text: string)     // `content_block_delta` with `delta.text`
    | MessageStop                  // `message_stop`
    | Message(content: seq<Item>)  // `message`; a missing `content` is the empty list
    | OtherType                    // any other `"type"` value: ignored
    | Malformed                    // not an object, no `"type"`, or a required `text`
                                   // key missing: KeyError/TypeError, not JSONDecodeError

  /** The result of `json.loads` on the text after `data: `. */
  datatype Decoded = NotJson | Json(event: Event)

  /** One item of `response.iter_lines()`: bytes that are not UTF-8 make
      `line.decode("utf-8")` raise; the rest are kept as decoded text, the
      empty text standing for the empty line. */
  datatype Line = Undecodable | Utf8(text: string)

  /** What the relay does once a line's deltas have been sent. */
  datatype Continuation =
    | Next    // run the tick check and read the next line
    | Stop    // `break` out of the loop (message_stop)
    | Raise   // an exception other than JSONDecodeError escapes the loop

  datatype Translation = Translation(texts: seq<string>, next: Continuation)

  const DataPrefix: string := "data: "

  /** The texts of a `message` event's content list in order, up to the
      first item that raises. */
  function MessageTexts(items: seq<Item>): (t: Translation)
    ensures t.next != Stop
    ensures |t.texts| <= |items|
  {
    if items == [] then Translation([], Next)
    else
      var rest := MessageTexts(items[1..]);
      match items[0]
      case TextItem(x) => Translation([x] + rest.texts, rest.next)
      case OtherItem => rest
      case BadItem => Translation([], Raise)
  }

  /** Lines 241-259 applied to a decoded value. */
  function Interpret(e: Event): Translation {
    match e
    case BlockStart(x) => Translation([x], Next)
    case BlockDelta(x) => Translation([x], Next)
    case MessageStop => Translation([], Stop)
    case Message(items) => MessageTexts(items)
    case OtherType => Translation([], Next)
    case Malformed => Translation([], Raise)
  }

  /** Lines 235-263: skip empty lines and lines without the `data: ` prefix
      (after stripping), tolerate JSON decode failures, interpret the rest. */
  function Translate(line: Line, parse: string -> Decoded): Translation {
    match line
    case Undecodable => Translation([], Raise)
    case Utf8(raw) =>
      if raw == [] then Translation([], Next)
      else
        var l := Text.Strip(raw);
        if !Text.StartsWith(l, DataPrefix) then Translation([], Next)
        else match parse(l[|DataPrefix|..])
          case NotJson => Translation([], Next)
          case Json(e) => Interpret(e)
  }

  /** A line the relay passes over without output and without stopping. */
  predicate Skipped(line: Line, parse: string -> Decoded) {
    line.Utf8? &&
    (|| line.text == []
     || !Text.StartsWith(Text.Strip(line.text), DataPrefix)
     || parse(Text.Strip(line.text)[|DataPrefix|..]) == NotJson)
  }

  /** Empty lines, lines without the `data: ` prefix and lines whose payload
      is not JSON produce nothing and do not end the stream. */
  lemma SkippedLinesAreHarmless(line: Line, parse: string -> Decoded)
    requires Skipped(line, parse)
    ensures Translate(line, parse) == Translation([], Next)
  {
  }

  /** A decoded object without a usable `"type"` is not tolerated like a
      decode failure: it ends the loop through the exception path. */
  lemma MalformedEventRaises(raw: string, parse: string -> Decoded)
    requires raw != [] && Text.StartsWith(Text.Strip(raw), DataPrefix)
    requires parse(Text.Strip(raw)[|DataPrefix|..]) == Json(Malformed)
    ensures Translate(Utf8(raw), parse) == Translation([], Raise)
  {
  }

  /** Only `message_stop` makes the loop `break`, and it forwards nothing. */
  lemma StopOnlyOnMessageStop(line: Line, parse: string -> Decoded)
    ensures Translate(line, parse).next == Stop <==>
              line.Utf8? && line.text != [] && Text.StartsWith(Text.Strip(line.text), DataPrefix)
              && parse(Text.Strip(line.text)[|DataPrefix|..]) == Json(MessageStop)
    ensures Translate(line, parse).next == Stop ==> Translate(line, parse).texts == []
  {
    match line
    case Undecodable =>
    case Utf8(raw) =>
      if raw != [] && Text.StartsWith(Text.Strip(raw), DataPrefix) {
        match parse(Text.Strip(raw)[|DataPrefix|..])
        case NotJson =>
        case Json(e) =>
          match e
          case Message(items) =>
            assert MessageTexts(items).next != Stop;
          case _ =>
      }
  }

  /** The texts of the text items, in order, with nothing else: the
      content-list reading both the streaming and the non-streaming path use. */
  function ItemTexts(items: seq<Item>): seq<string> {
    if items == [] then []
    else match items[0]
      case TextItem(x) => [x] + ItemTexts(items[1..])
      case _ => ItemTexts(items[1..])
  }

  predicate WellFormedItems(items: seq<Item>) {
    forall i :: 0 <= i < |items| ==> !items[i].BadItem?
  }

  /** Without a bad item, a `message` event forwards exactly the text items'
      texts in order; with one, it forwards the texts before the first bad
      item and then raises. */
  lemma {:induction false} MessageTextsSpec(items: seq<Item>)
    ensures WellFormedItems(items) ==> MessageTexts(items) == Translation(ItemTexts(items), Next)
    ensures !WellFormedItems(items) ==> MessageTexts(items).next == Raise
    decreases |items|
  {
    if items != [] {
      MessageTextsSpec(items[1..]);
      if WellFormedItems(items) {
        assert WellFormedItems(items[1..]) by {
          forall i | 0 <= i < |items| - 1 ensures !items[1..][i].BadItem? {
            assert items[1..][i] == items[i + 1];
          }
        }
      } else if !items[0].BadItem? {
        assert !WellFormedItems(items[1..]) by {
          var i :| 0 <= i < |items| && items[i].BadItem?;
          assert items[1..][i - 1] == items[i];
        }
      }
    }
  }
}
