/** The request side of `Pipe.pipe` in anthropic_manifold.py: the model id
    sent upstream (line 118), the rewriting and validation of message
    content with its image limits (lines 124-162, 385-401), the input-token
    estimate (lines 178-181), the non-streaming branch (lines 325-370), and
    the order in which `pipe` does these things around the streaming relay. */
module Request {
  import opened Wrappers
  import Text
  import opened Translator
  import Relay

  /** Line 118: the part of the model name after its first `.`, or the
      whole name when it has none (`find` gives -1). */
  function ModelId(model: string): (id: string)
    ensures '.' !in model ==> id == model
    ensures '.' in model ==>
      var k := |model| - |id| - 1;
      && 0 <= k && model == model[..k] + "." + id && '.' !in model[..k]
  {
    var k := Text.Find(model, '.');
    if k < 0 then model
    else
      assert model == model[..k] + "." + model[k + 1..];
      model[k + 1..]
  }

  /** A provider-prefixed name gives back the name after the prefix. */
  lemma ModelIdOfPrefixed(prefix: string, name: string)
    requires '.' !in prefix
    ensures ModelId(prefix + "." + name) == name
  {
    var m := prefix + "." + name;
    assert m[..|prefix|] == prefix;
    Text.FindAt(m, '.', |prefix|);
  }

  // ---------------------------------------------------------------------
  // process_image (lines 385-401)

  /** The `source` of an image block sent upstream. */
  datatype Source =
    | Base64(mediaType: string, data: string)
    | UrlSource(url: string)

  const DataImage: string := "data:image"
  const DataScheme: string := "data:"

  /** The media type a data URL's header names: its text after `data:` up
      to the next `:` or `;`. */
  predicate NamesMediaType(header: string, mediaType: string) {
    && Text.StartsWith(header, DataScheme + mediaType)
    && ':' !in mediaType && ';' !in mediaType
    && (|header| == |DataScheme| + |mediaType| || header[|DataScheme| + |mediaType|] in {':', ';'})
  }

  /** Lines 385-401. A `data:image` URL is split at its first comma into a
      header and base64 data, the media type being the header's text
      between its first and second `:`, cut at the first `;`; any other URL
      is passed on by reference. `None` stands for the `ValueError` of
      unpacking a data URL that has no comma. */
  function ProcessImage(url: string): (r: Option<Source>)
    ensures !Text.StartsWith(url, DataImage) ==> r == Some(UrlSource(url))
    ensures Text.StartsWith(url, DataImage) ==> (r.Some? <==> ',' in url)
  {
    if !Text.StartsWith(url, DataImage) then Some(UrlSource(url))
    else match Text.SplitOnce(url, ',')
      case NoSeparator => None
      case Pair(header, data) =>
        HeaderOfDataUrl(url, header, data);
        Some(Base64(MediaTypeOf(header), data))
  }

  /** What `process_image` makes of a data URL: the data is what follows
      the first comma, and the media type is the one the header before it
      names. */
  lemma ProcessImageSplits(url: string)
    requires ProcessImage(url).Some? && ProcessImage(url).value.Base64?
    ensures var src := ProcessImage(url).value;
      && |src.data| < |url|
      && var header := url[..|url| - |src.data| - 1];
      && Text.StartsWith(url, DataImage)
      && url == header + "," + src.data && ',' !in header
      && NamesMediaType(header, src.mediaType)
  {
    match Text.SplitOnce(url, ',')
    case Pair(header, data) => HeaderOfDataUrl(url, header, data);
  }

  /** Line 388: `mime_type.split(":")[1].split(";")[0]`. */
  function MediaTypeOf(header: string): (m: string)
    requires Text.StartsWith(header, DataScheme)
    ensures NamesMediaType(header, m)
  {
    MediaTypeField(header);
    Text.Split(Text.Split(header, ':')[1], ';')[0]
  }

  /** The text before the first comma of a `data:image` URL is a `data:`
      header, and it is what is left once the comma and data are cut off. */
  lemma HeaderOfDataUrl(url: string, header: string, data: string)
    requires Text.StartsWith(url, DataImage) && url == header + [','] + data && ',' !in header
    ensures Text.StartsWith(header, DataScheme)
    ensures |data| < |url| && url[..|url| - |data| - 1] == header
  {
    assert url[..|header|] == header && url[|header|] == ',';
    assert ',' !in DataImage;
    assert |header| >= |DataImage| by {
      assert forall k :: 0 <= k < |DataImage| ==> url[k] == DataImage[k];
    }
    assert header[..|DataScheme|] == url[..|DataScheme|] == DataImage[..|DataScheme|];
  }

  /** The second `:`-field of a header that starts with `data:`, cut at its
      first `;`, is the media type that header names. */
  lemma MediaTypeField(header: string)
    requires Text.StartsWith(header, DataScheme)
    ensures |Text.Split(header, ':')| >= 2
    ensures NamesMediaType(header, Text.Split(Text.Split(header, ':')[1], ';')[0])
  {
    var after := header[|DataScheme|..];
    SecondField(header);
    var f1 := Text.Split(after, ':')[0];
    FirstFieldIsPrefix(after, ':');
    FirstFieldIsPrefix(f1, ';');
    NamesFromPrefixes(header, f1, Text.Split(f1, ';')[0]);
  }

  /** The second `:`-field of a `data:` header is the first field of the
      text after the scheme. */
  lemma SecondField(header: string)
    requires Text.StartsWith(header, DataScheme)
    ensures var fields := Text.Split(header, ':');
            |fields| >= 2 && fields[1] == Text.Split(header[|DataScheme|..], ':')[0]
  {
    var after := header[|DataScheme|..];
    assert header == "data" + [':'] + after;
    Text.FindAt(header, ':', 4);
    assert header[..4] == "data" && header[5..] == after;
  }

  lemma NamesFromPrefixes(header: string, f1: string, m: string)
    requires Text.StartsWith(header, DataScheme)
    requires var after := header[|DataScheme|..];
             && |f1| <= |after| && after[..|f1|] == f1 && ':' !in f1
             && (|f1| < |after| ==> after[|f1|] == ':')
    requires |m| <= |f1| && f1[..|m|] == m && ';' !in m && (|m| < |f1| ==> f1[|m|] == ';')
    ensures NamesMediaType(header, m)
  {
    var after := header[|DataScheme|..];
    assert ':' !in m by {
      forall k | 0 <= k < |m| ensures m[k] != ':' {
        assert m[k] == f1[k];
      }
    }
    assert after[..|m|] == m;
    assert header[..|DataScheme| + |m|] == DataScheme + m by {
      assert header[..|DataScheme|] == DataScheme;
      assert header[|DataScheme|..|DataScheme| + |m|] == after[..|m|];
    }
    if |header| != |DataScheme| + |m| {
      assert header[|DataScheme| + |m|] == after[|m|];
      if |m| == |f1| {
        assert after[|f1|] == ':';
      } else {
        assert f1[|m|] == ';' && after[|m|] == f1[|m|];
      }
    }
  }

  /** The first part of a split is a prefix of the text, free of the
      separator, and followed by the separator unless it is all of it. */
  lemma FirstFieldIsPrefix(s: string, sep: char)
    ensures var f := Text.Split(s, sep)[0];
            && |f| <= |s| && s[..|f|] == f && sep !in f
            && (|f| < |s| ==> s[|f|] == sep)
  {
    var k := Text.Find(s, sep);
    if k >= 0 {
      assert Text.Split(s, sep)[0] == s[..k];
    }
  }

  /** A well-formed base64 data URL comes apart into the media type and
      the data it was built from. */
  lemma ProcessDataUrl(mediaType: string, data: string)
    requires Text.StartsWith(mediaType, "image")
    requires ':' !in mediaType && ';' !in mediaType && ',' !in mediaType
    ensures ProcessImage("data:" + mediaType + ";base64," + data) == Some(Base64(mediaType, data))
  {
    var header := "data:" + mediaType + ";base64";
    var url := header + "," + data;
    assert url == "data:" + mediaType + ";base64," + data;
    assert url[..|DataImage|] == DataImage by {
      assert url[..|DataImage|] == ("data:" + mediaType)[..|DataImage|];
    }
    assert ',' !in header by {
      forall k | 0 <= k < |header| ensures header[k] != ',' {
        if 5 <= k < 5 + |mediaType| {
          assert header[k] == mediaType[k - 5];
        }
      }
    }
    Text.FindAt(url, ',', |header|);
    assert url[..|header|] == header;
    var r := ProcessImage(url);
    assert r.Some? && r.value.Base64? && r.value.data == data;
    ProcessImageSplits(url);
    var m := r.value.mediaType;
    assert NamesMediaType(header, m);
    MediaTypeUnique(header, mediaType, m);
  }

  /** A header names at most one media type. */
  lemma MediaTypeUnique(header: string, m1: string, m2: string)
    requires NamesMediaType(header, m1) && NamesMediaType(header, m2)
    ensures m1 == m2
  {
    if |m1| < |m2| {
      assert false;
    } else if |m2| < |m1| {
      assert false;
    } else {
      assert m1 == header[|DataScheme|..|DataScheme| + |m1|] == m2;
    }
  }

  // ---------------------------------------------------------------------
  // Message content (lines 124-162)

  /** One element of a list-valued `content`, by the branch of lines
      133-158 it takes. */
  datatype Part =
    | TextPart(text: string)   // `{"type": "text", "text": ...}`
    | ImagePart(url: string)   // `{"type": "image_url", "image_url": {"url": ...}}`
    | OtherPart                // any other `"type"`: dropped
    | BadPart                  // no `"type"`, or a text part without `"text"`: KeyError

  /** A message's `content`: a list, or anything else, which becomes one
      text block (a missing `content` reads as the empty text). */
  datatype Content = Plain(text: string) | Parts(items: seq<Part>)

  datatype Message = Message(role: string, content: Content)

  /** A content block of the upstream payload. */
  datatype Block = TextBlock(text: string) | ImageBlock(source: Source)

  datatype Processed = Processed(role: string, blocks: seq<Block>)

  /** Why `pipe` gives up on a request before contacting the upstream. */
  datatype RequestError =
    | MissingKey          // KeyError on a part
    | TooManyImages       // "Maximum of 5 images per API call exceeded"
    | ImagesTooLarge      // "Total size of images exceeds 100 MB limit"
    | MalformedDataUrl    // ValueError unpacking a data URL without a comma

  const MaxImages: nat := 5
  const MaxImageBytes: nat := 100 * 1024 * 1024

  /** The images seen so far and the total length of their base64 data. */
  datatype Tally = Tally(images: nat, dataLength: nat)

  /** `total_image_size > 100 * 1024 * 1024`, where each image adds
      `len(data) * 3 / 4`: the estimated decoded size of all base64 data so
      far is over the limit. The sum is a multiple of 1/4, so comparing four
      times each side is exact. */
  predicate TooLarge(dataLength: nat) {
    3 * dataLength > 4 * MaxImageBytes
  }

  /** The base64 data length an image adds: `0` for a URL image. */
  function DataLength(s: Source): nat {
    if s.Base64? then |s.data| else 0
  }

  /** What `process_image` is to the loop of lines 133-158: `Validate`
      passes `ProcessImage`, and the limit proofs below hold for any reader
      that fails and measures data exactly as it does (`ReadsImages`). */
  type ImageReader = string -> Option<Source>

  /** One list element, lines 133-158. The count check precedes the
      processing of the image; the size check follows it. */
  function ProcessPart(p: Part, t: Tally, image: ImageReader): Result<(seq<Block>, Tally), RequestError> {
    match p
    case TextPart(x) => Success(([TextBlock(x)], t))
    case OtherPart => Success(([], t))
    case BadPart => Failure(MissingKey)
    case ImagePart(url) =>
      if t.images >= MaxImages then Failure(TooManyImages)
      else match image(url)
        case None => Failure(MalformedDataUrl)
        case Some(src) =>
          var t2 := Tally(t.images + 1, t.dataLength + DataLength(src));
          if TooLarge(t2.dataLength) then Failure(ImagesTooLarge)
          else Success(([ImageBlock(src)], t2))
  }

  function ProcessParts(items: seq<Part>, t: Tally, image: ImageReader): Result<(seq<Block>, Tally), RequestError> {
    if items == [] then Success(([], t))
    else match ProcessPart(items[0], t, image)
      case Failure(e) => Failure(e)
      case Success((b, t1)) =>
        match ProcessParts(items[1..], t1, image)
        case Failure(e) => Failure(e)
        case Success((bs, t2)) => Success((b + bs, t2))
  }

  function ProcessContent(c: Content, t: Tally, image: ImageReader): Result<(seq<Block>, Tally), RequestError> {
    match c
    case Plain(x) => Success(([TextBlock(x)], t))
    case Parts(items) => ProcessParts(items, t, image)
  }

  function ProcessMessages(msgs: seq<Message>, t: Tally, image: ImageReader): Result<(seq<Processed>, Tally), RequestError> {
    if msgs == [] then Success(([], t))
    else match ProcessContent(msgs[0].content, t, image)
      case Failure(e) => Failure(e)
      case Success((b, t1)) =>
        match ProcessMessages(msgs[1..], t1, image)
        case Failure(e) => Failure(e)
        case Success((ps, t2)) => Success(([Processed(msgs[0].role, b)] + ps, t2))
  }

  /** Lines 124-162 over the messages left after the system message. */
  function Validate(msgs: seq<Message>): Result<seq<Processed>, RequestError> {
    match ProcessMessages(msgs, Tally(0, 0), ProcessImage)
    case Success((ps, _)) => Success(ps)
    case Failure(e) => Failure(e)
  }

  // The reference reading of the limits: which images a request carries.

  function PartImages(items: seq<Part>): seq<string> {
    if items == [] then []
    else (if items[0].ImagePart? then [items[0].url] else []) + PartImages(items[1..])
  }

  function ContentImages(c: Content): seq<string> {
    if c.Parts? then PartImages(c.items) else []
  }

  function Images(msgs: seq<Message>): seq<string> {
    if msgs == [] then [] else ContentImages(msgs[0].content) + Images(msgs[1..])
  }

  predicate PartsReadable(items: seq<Part>) {
    forall i :: 0 <= i < |items| ==> !items[i].BadPart?
  }

  predicate ContentReadable(c: Content) {
    c.Parts? ==> PartsReadable(c.items)
  }

  /** No part lacks a key the code reads. */
  predicate Readable(msgs: seq<Message>) {
    forall i :: 0 <= i < |msgs| ==> ContentReadable(msgs[i].content)
  }

  /** The base64 data length the image URL contributes. */
  function UrlDataLength(url: string): nat {
    if Text.StartsWith(url, DataImage) then
      match Text.SplitOnce(url, ',')
      case NoSeparator => 0
      case Pair(_, data) => |data|
    else 0
  }

  function TotalDataLength(urls: seq<string>): nat {
    if urls == [] then 0 else UrlDataLength(urls[0]) + TotalDataLength(urls[1..])
  }

  predicate Unpackable(url: string) {
    Text.StartsWith(url, DataImage) ==> ',' in url
  }

  /** The limits, for images `urls` arriving after the tally `t`: at most
      five images in all, every data URL has its comma, and the total
      estimated size stays within 100 MB. */
  predicate Within(t: Tally, urls: seq<string>) {
    && t.images + |urls| <= MaxImages
    && (forall i :: 0 <= i < |urls| ==> Unpackable(urls[i]))
    && !TooLarge(t.dataLength + TotalDataLength(urls))
  }

  /** What the upstream receives for one part list: its texts and images,
      in order, with the other parts dropped. */
  predicate Carries(items: seq<Part>, blocks: seq<Block>, image: ImageReader) {
    if items == [] then blocks == []
    else match items[0]
      case TextPart(x) => |blocks| >= 1 && blocks[0] == TextBlock(x) && Carries(items[1..], blocks[1..], image)
      case ImagePart(url) =>
        && |blocks| >= 1 && blocks[0].ImageBlock? && image(url) == Some(blocks[0].source)
        && Carries(items[1..], blocks[1..], image)
      case _ => Carries(items[1..], blocks, image)
  }

  lemma ProcessImageDataLength(url: string)
    requires ProcessImage(url).Some?
    ensures DataLength(ProcessImage(url).value) == UrlDataLength(url)
  {
  }

  /** A reader that fails exactly on the URLs that cannot be unpacked and
      adds the data length the URL carries, as `ProcessImage` does. */
  ghost predicate ReadsImages(image: ImageReader) {
    forall url :: (image(url).Some? <==> Unpackable(url))
                  && (image(url).Some? ==> DataLength(image(url).value) == UrlDataLength(url))
  }

  lemma ProcessImageReads()
    ensures ReadsImages(ProcessImage)
  {
    forall url ensures ProcessImage(url).Some? ==> DataLength(ProcessImage(url).value) == UrlDataLength(url) {
      if ProcessImage(url).Some? {
        ProcessImageDataLength(url);
      }
    }
  }

  lemma ReadImage(image: ImageReader, url: string)
    requires ReadsImages(image)
    ensures image(url).Some? <==> Unpackable(url)
    ensures image(url).Some? ==> DataLength(image(url).value) == UrlDataLength(url)
  {
  }

  lemma TotalDataLengthAppend(a: seq<string>, b: seq<string>)
    ensures TotalDataLength(a + b) == TotalDataLength(a) + TotalDataLength(b)
  {
    if a != [] {
      assert (a + b)[1..] == a[1..] + b;
    } else {
      assert a + b == b;
    }
  }

  /** What validating the part list `items` after the tally `t` must give:
      success exactly when its parts are readable and its images are within
      the limits, and then the updated tally and exactly the list's texts
      and images, in order, with the other parts dropped. */
  predicate PartsOutcome(items: seq<Part>, t: Tally, r: Result<(seq<Block>, Tally), RequestError>, image: ImageReader) {
    var urls := PartImages(items);
    && (r.Success? <==> PartsReadable(items) && Within(t, urls))
    && (r.Success? ==> r.value.1 == Tally(t.images + |urls|, t.dataLength + TotalDataLength(urls)))
    && (r.Success? ==> Carries(items, r.value.0, image))
  }

  /** Lines 133-158 over a part list meet `PartsOutcome`. */
  lemma {:induction false} PartsWithinLimits(items: seq<Part>, t: Tally, image: ImageReader)
    requires ReadsImages(image)
    requires t.images <= MaxImages && !TooLarge(t.dataLength)
    ensures PartsOutcome(items, t, ProcessParts(items, t, image), image)
    decreases |items|, 2
  {
    if items != [] {
      PartsReadableCons(items);
      match items[0]
      case TextPart(x) => PartsWithinLimitsSkip(items, t, image);
      case OtherPart => PartsWithinLimitsSkip(items, t, image);
      case BadPart =>
      case ImagePart(url) => PartsWithinLimitsImage(items, t, image);
    }
  }

  lemma {:induction false} PartsWithinLimitsSkip(items: seq<Part>, t: Tally, image: ImageReader)
    requires ReadsImages(image)
    requires t.images <= MaxImages && !TooLarge(t.dataLength)
    requires items != [] && (items[0].TextPart? || items[0].OtherPart?)
    ensures PartsOutcome(items, t, ProcessParts(items, t, image), image)
    decreases |items|, 0
  {
    var head := if items[0].TextPart? then [TextBlock(items[0].text)] else [];
    PartsReadableCons(items);
    PartsWithinLimits(items[1..], t, image);
    PartsStep(items, t, image);
    SkipStep(items, t, head, ProcessParts(items[1..], t, image), image);
  }

  lemma {:induction false} PartsWithinLimitsImage(items: seq<Part>, t: Tally, image: ImageReader)
    requires ReadsImages(image)
    requires t.images <= MaxImages && !TooLarge(t.dataLength)
    requires items != [] && items[0].ImagePart?
    ensures PartsOutcome(items, t, ProcessParts(items, t, image), image)
    decreases |items|, 1
  {
    var url := items[0].url;
    if t.images < MaxImages && image(url).Some? {
      var src := image(url).value;
      ReadImage(image, url);
      var t2 := Tally(t.images + 1, t.dataLength + DataLength(src));
      TotalDataLengthAppend([url], PartImages(items[1..]));
      if !TooLarge(t2.dataLength) {
        PartsWithinLimitsAccepted(items, t, image);
      } else {
        ImageTooLarge(items, t, t2);
      }
    } else {
      ImageRefused(items, t, image);
    }
  }

  /** An image that is accepted: the rest of the list decides. */
  lemma {:induction false} PartsWithinLimitsAccepted(items: seq<Part>, t: Tally, image: ImageReader)
    requires ReadsImages(image)
    requires t.images < MaxImages && !TooLarge(t.dataLength)
    requires items != [] && items[0].ImagePart? && image(items[0].url).Some?
    requires !TooLarge(t.dataLength + DataLength(image(items[0].url).value))
    ensures PartsOutcome(items, t, ProcessParts(items, t, image), image)
    decreases |items|, 0
  {
    var url := items[0].url;
    var rest := items[1..];
    var src := image(url).value;
    var t2 := Tally(t.images + 1, t.dataLength + DataLength(src));
    PartsReadableCons(items);
    ReadImage(image, url);
    TotalDataLengthAppend([url], PartImages(rest));
    assert TotalDataLength([url]) == UrlDataLength(url);
    PartsWithinLimits(rest, t2, image);
    AcceptedUnfold(items, t, image);
    ImageStep(items, t, t2, src, ProcessParts(rest, t2, image), image);
  }

  /** `ProcessParts` after an accepted image. */
  lemma AcceptedUnfold(items: seq<Part>, t: Tally, image: ImageReader)
    requires t.images < MaxImages
    requires items != [] && items[0].ImagePart? && image(items[0].url).Some?
    requires !TooLarge(t.dataLength + DataLength(image(items[0].url).value))
    ensures var src := image(items[0].url).value;
            ProcessParts(items, t, image) ==
              match ProcessParts(items[1..], Tally(t.images + 1, t.dataLength + DataLength(src)), image)
              case Failure(e) => Failure(e)
              case Success((bs, t3)) => Success(([ImageBlock(src)] + bs, t3))
  {
    ImageAccepted(items[0].url, t, image(items[0].url).value, image);
    PartsStep(items, t, image);
  }

  lemma ImageAccepted(url: string, t: Tally, src: Source, image: ImageReader)
    requires t.images < MaxImages && image(url) == Some(src)
    requires !TooLarge(t.dataLength + DataLength(src))
    ensures ProcessPart(ImagePart(url), t, image) == Success(([ImageBlock(src)], Tally(t.images + 1, t.dataLength + DataLength(src))))
  {
  }

  /** One unfolding of `ProcessParts` after a part that was accepted. */
  lemma PartsStep(items: seq<Part>, t: Tally, image: ImageReader)
    requires items != [] && ProcessPart(items[0], t, image).Success?
    ensures var (head, t1) := ProcessPart(items[0], t, image).value;
            ProcessParts(items, t, image) ==
              match ProcessParts(items[1..], t1, image)
              case Failure(e) => Failure(e)
              case Success((bs, t2)) => Success((head + bs, t2))
  {
  }

  lemma PartsReadableCons(items: seq<Part>)
    requires items != []
    ensures PartsReadable(items) <==> !items[0].BadPart? && PartsReadable(items[1..])
  {
    var rest := items[1..];
    if !items[0].BadPart? && PartsReadable(rest) {
      forall i | 0 <= i < |items| ensures !items[i].BadPart? {
        if i > 0 { assert items[i] == rest[i - 1]; }
      }
    }
  }

  /** A text part or a dropped part leaves the tally alone. */
  lemma SkipStep(items: seq<Part>, t: Tally, head: seq<Block>, rr: Result<(seq<Block>, Tally), RequestError>, image: ImageReader)
    requires items != [] && (items[0].TextPart? || items[0].OtherPart?)
    requires head == if items[0].TextPart? then [TextBlock(items[0].text)] else []
    requires PartsReadable(items) <==> PartsReadable(items[1..])
    requires PartsOutcome(items[1..], t, rr, image)
    ensures PartsOutcome(items, t,
              match rr
              case Failure(e) => Failure(e)
              case Success((bs, t2)) => Success((head + bs, t2)), image)
  {
    assert PartImages(items) == PartImages(items[1..]);
    if rr.Success? {
      assert (head + rr.value.0)[|head|..] == rr.value.0;
    }
  }

  /** An accepted image moves the tally on by one image and its data. */
  lemma ImageStep(items: seq<Part>, t: Tally, t2: Tally, src: Source, rr: Result<(seq<Block>, Tally), RequestError>, image: ImageReader)
    requires ReadsImages(image)
    requires items != [] && items[0].ImagePart? && image(items[0].url) == Some(src)
    requires t2 == Tally(t.images + 1, t.dataLength + UrlDataLength(items[0].url))
    requires PartsReadable(items) <==> PartsReadable(items[1..])
    requires TotalDataLength([items[0].url] + PartImages(items[1..]))
               == UrlDataLength(items[0].url) + TotalDataLength(PartImages(items[1..]))
    requires PartsOutcome(items[1..], t2, rr, image)
    ensures PartsOutcome(items, t,
              match rr
              case Failure(e) => Failure(e)
              case Success((bs, t3)) => Success(([ImageBlock(src)] + bs, t3)), image)
  {
    var url := items[0].url;
    var urls := PartImages(items[1..]);
    assert PartImages(items) == [url] + urls;
    assert Unpackable(url);
    WithinShift(t, t2, url, urls);
    if rr.Success? {
      var (bs, t3) := rr.value;
      CarriesImage(items, src, bs, image);
      assert t3 == Tally(t.images + |[url] + urls|, t.dataLength + TotalDataLength([url] + urls));
    }
  }

  lemma CarriesImage(items: seq<Part>, src: Source, bs: seq<Block>, image: ImageReader)
    requires items != [] && items[0].ImagePart? && image(items[0].url) == Some(src)
    requires Carries(items[1..], bs, image)
    ensures Carries(items, [ImageBlock(src)] + bs, image)
  {
    assert ([ImageBlock(src)] + bs)[1..] == bs;
  }

  /** An image whose data takes the total over the limit is refused, and
      so is the request. */
  lemma ImageTooLarge(items: seq<Part>, t: Tally, t2: Tally)
    requires items != [] && items[0].ImagePart?
    requires t2 == Tally(t.images + 1, t.dataLength + UrlDataLength(items[0].url)) && TooLarge(t2.dataLength)
    requires TotalDataLength([items[0].url] + PartImages(items[1..]))
               == UrlDataLength(items[0].url) + TotalDataLength(PartImages(items[1..]))
    ensures !Within(t, PartImages(items))
  {
    assert PartImages(items) == [items[0].url] + PartImages(items[1..]);
  }

  /** A sixth image, or a data URL without a comma, is refused. */
  lemma ImageRefused(items: seq<Part>, t: Tally, image: ImageReader)
    requires ReadsImages(image)
    requires items != [] && items[0].ImagePart?
    requires t.images >= MaxImages || image(items[0].url).None?
    ensures !Within(t, PartImages(items))
  {
    var urls := PartImages(items);
    assert urls == [items[0].url] + PartImages(items[1..]);
    if t.images < MaxImages {
      assert !Unpackable(urls[0]);
    }
  }

  lemma WithinShift(t: Tally, t2: Tally, url: string, rest: seq<string>)
    requires t2 == Tally(t.images + 1, t.dataLength + UrlDataLength(url))
    requires Unpackable(url)
    requires TotalDataLength([url] + rest) == UrlDataLength(url) + TotalDataLength(rest)
    ensures Within(t, [url] + rest) <==> Within(t2, rest)
  {
    var urls := [url] + rest;
    if Within(t2, rest) {
      forall i | 0 <= i < |urls| ensures Unpackable(urls[i]) {
        if i > 0 { assert urls[i] == rest[i - 1]; }
      }
    }
    if Within(t, urls) {
      forall i | 0 <= i < |rest| ensures Unpackable(rest[i]) {
        assert rest[i] == urls[i + 1];
      }
    }
  }

  /** What validating the message list `msgs` after the tally `t` must
      give: success exactly when every part is readable and the request's
      images are within the limits, and then the updated tally. */
  predicate MessagesOutcome(msgs: seq<Message>, t: Tally, r: Result<(seq<Processed>, Tally), RequestError>) {
    var urls := Images(msgs);
    && (r.Success? <==> Readable(msgs) && Within(t, urls))
    && (r.Success? ==> r.value.1 == Tally(t.images + |urls|, t.dataLength + TotalDataLength(urls)))
  }

  /** The same for one message's content. */
  predicate ContentOutcome(c: Content, t: Tally, r: Result<(seq<Block>, Tally), RequestError>) {
    var urls := ContentImages(c);
    && (r.Success? <==> ContentReadable(c) && Within(t, urls))
    && (r.Success? ==> r.value.1 == Tally(t.images + |urls|, t.dataLength + TotalDataLength(urls)))
  }

  lemma ContentWithinLimits(c: Content, t: Tally, image: ImageReader)
    requires ReadsImages(image)
    requires t.images <= MaxImages && !TooLarge(t.dataLength)
    ensures ContentOutcome(c, t, ProcessContent(c, t, image))
  {
    if c.Parts? {
      PartsWithinLimits(c.items, t, image);
    }
  }

  lemma {:induction false} MessagesWithinLimits(msgs: seq<Message>, t: Tally, image: ImageReader)
    requires ReadsImages(image)
    requires t.images <= MaxImages && !TooLarge(t.dataLength)
    ensures MessagesOutcome(msgs, t, ProcessMessages(msgs, t, image))
    decreases |msgs|
  {
    if msgs != [] {
      var c := msgs[0].content;
      ContentWithinLimits(c, t, image);
      var r0 := ProcessContent(c, t, image);
      if r0.Success? {
        var t1 := r0.value.1;
        MessagesWithinLimits(msgs[1..], t1, image);
        MessagesStep(msgs, t, r0.value.0, t1, ProcessMessages(msgs[1..], t1, image), image);
      } else {
        MessagesRefused(msgs, t, image);
      }
    }
  }

  lemma ReadableCons(msgs: seq<Message>)
    requires msgs != []
    ensures Readable(msgs) <==> ContentReadable(msgs[0].content) && Readable(msgs[1..])
  {
    var rest := msgs[1..];
    if ContentReadable(msgs[0].content) && Readable(rest) {
      forall i | 0 <= i < |msgs| ensures ContentReadable(msgs[i].content) {
        if i > 0 { assert msgs[i] == rest[i - 1]; }
      }
    }
    if Readable(msgs) {
      forall i | 0 <= i < |rest| ensures ContentReadable(rest[i].content) {
        assert rest[i] == msgs[i + 1];
      }
    }
  }

  lemma ImagesCons(msgs: seq<Message>)
    requires msgs != []
    ensures Images(msgs) == ContentImages(msgs[0].content) + Images(msgs[1..])
    ensures TotalDataLength(Images(msgs)) == TotalDataLength(ContentImages(msgs[0].content)) + TotalDataLength(Images(msgs[1..]))
  {
    TotalDataLengthAppend(ContentImages(msgs[0].content), Images(msgs[1..]));
  }

  /** An accepted first message moves the tally on by its images. */
  lemma MessagesStep(msgs: seq<Message>, t: Tally, b: seq<Block>, t1: Tally, rr: Result<(seq<Processed>, Tally), RequestError>, image: ImageReader)
    requires msgs != [] && t.images <= MaxImages && !TooLarge(t.dataLength)
    requires ProcessContent(msgs[0].content, t, image) == Success((b, t1))
    requires ContentOutcome(msgs[0].content, t, Success((b, t1)))
    requires MessagesOutcome(msgs[1..], t1, rr)
    requires ProcessMessages(msgs, t, image) ==
               match rr
               case Failure(e) => Failure(e)
               case Success((ps, t2)) => Success(([Processed(msgs[0].role, b)] + ps, t2))
    ensures MessagesOutcome(msgs, t, ProcessMessages(msgs, t, image))
  {
    var first := ContentImages(msgs[0].content);
    var later := Images(msgs[1..]);
    ReadableCons(msgs);
    ImagesCons(msgs);
    WithinSplit(t, first, later);
    if rr.Success? {
      TallyAppend(t, first, later, t1, rr.value.1);
    }
  }

  lemma TallyAppend(t: Tally, first: seq<string>, later: seq<string>, t1: Tally, t2: Tally)
    requires t1 == Tally(t.images + |first|, t.dataLength + TotalDataLength(first))
    requires t2 == Tally(t1.images + |later|, t1.dataLength + TotalDataLength(later))
    requires TotalDataLength(first + later) == TotalDataLength(first) + TotalDataLength(later)
    ensures t2 == Tally(t.images + |first + later|, t.dataLength + TotalDataLength(first + later))
  {
  }

  /** A refused first message refuses the request. */
  lemma MessagesRefused(msgs: seq<Message>, t: Tally, image: ImageReader)
    requires msgs != [] && t.images <= MaxImages && !TooLarge(t.dataLength)
    requires ProcessContent(msgs[0].content, t, image).Failure?
    requires ContentOutcome(msgs[0].content, t, ProcessContent(msgs[0].content, t, image))
    ensures !(Readable(msgs) && Within(t, Images(msgs)))
  {
    ReadableCons(msgs);
    ImagesCons(msgs);
    WithinSplit(t, ContentImages(msgs[0].content), Images(msgs[1..]));
  }

  lemma WithinSplit(t: Tally, a: seq<string>, b: seq<string>)
    requires TotalDataLength(a + b) == TotalDataLength(a) + TotalDataLength(b)
    ensures Within(t, a + b) <==>
              && Within(t, a)
              && Within(Tally(t.images + |a|, t.dataLength + TotalDataLength(a)), b)
  {
    UnpackableSplit(a, b);
    SizeSplit(t.dataLength, TotalDataLength(a), TotalDataLength(b));
  }

  lemma SizeSplit(d: nat, x: nat, y: nat)
    ensures !TooLarge(d + (x + y)) <==> !TooLarge(d + x) && !TooLarge(d + x + y)
  {
  }

  lemma UnpackableSplit(a: seq<string>, b: seq<string>)
    ensures (forall i :: 0 <= i < |a + b| ==> Unpackable((a + b)[i])) <==>
              (forall i :: 0 <= i < |a| ==> Unpackable(a[i])) && (forall i :: 0 <= i < |b| ==> Unpackable(b[i]))
  {
    var ab := a + b;
    if (forall i :: 0 <= i < |a| ==> Unpackable(a[i])) && (forall i :: 0 <= i < |b| ==> Unpackable(b[i])) {
      forall i | 0 <= i < |ab| ensures Unpackable(ab[i]) {
        if i >= |a| { assert ab[i] == b[i - |a|]; } else { assert ab[i] == a[i]; }
      }
    }
    if forall i :: 0 <= i < |ab| ==> Unpackable(ab[i]) {
      forall i | 0 <= i < |a| ensures Unpackable(a[i]) {
        assert a[i] == ab[i];
      }
      forall i | 0 <= i < |b| ensures Unpackable(b[i]) {
        assert b[i] == ab[|a| + i];
      }
    }
  }

  /** The request validation of lines 124-162, as a whole: it fails exactly
      when a part lacks a key, a sixth image appears, a data URL has no
      comma, or the images' estimated size exceeds 100 MB. */
  lemma ValidateWithinLimits(msgs: seq<Message>)
    ensures Validate(msgs).Success? <==>
              && Readable(msgs)
              && |Images(msgs)| <= MaxImages
              && (forall i :: 0 <= i < |Images(msgs)| ==> Unpackable(Images(msgs)[i]))
              && !TooLarge(TotalDataLength(Images(msgs)))
  {
    ProcessImageReads();
    MessagesWithinLimits(msgs, Tally(0, 0), ProcessImage);
  }

  /** A successful validation keeps one processed message per message, with
      its role, and a non-list content becomes one text block. */
  lemma {:induction false} ValidateKeepsMessages(msgs: seq<Message>, t: Tally, image: ImageReader)
    requires ProcessMessages(msgs, t, image).Success?
    ensures var ps := ProcessMessages(msgs, t, image).value.0;
            && |ps| == |msgs|
            && (forall i :: 0 <= i < |msgs| ==> ps[i].role == msgs[i].role)
            && (forall i :: 0 <= i < |msgs| && msgs[i].content.Plain? ==>
                  ps[i].blocks == [TextBlock(msgs[i].content.text)])
    decreases |msgs|
  {
    if msgs != [] {
      var t1 := ProcessContent(msgs[0].content, t, image).value.1;
      ValidateKeepsMessages(msgs[1..], t1, image);
      var ps := ProcessMessages(msgs, t, image).value.0;
      var tail := ProcessMessages(msgs[1..], t1, image).value.0;
      assert ps == [ps[0]] + tail;
      forall i | 1 <= i < |msgs| ensures ps[i] == tail[i - 1] && msgs[i] == msgs[1..][i - 1] { }
    }
  }

  /** Every part list of a successful validation is carried over as its
      texts and images, in order, with the other parts dropped. */
  lemma {:induction false} ValidateCarriesParts(msgs: seq<Message>, t: Tally, image: ImageReader)
    requires ReadsImages(image)
    requires t.images <= MaxImages && !TooLarge(t.dataLength)
    requires ProcessMessages(msgs, t, image).Success?
    ensures var ps := ProcessMessages(msgs, t, image).value.0;
            && |ps| == |msgs|
            && forall i :: 0 <= i < |msgs| && msgs[i].content.Parts? ==> Carries(msgs[i].content.items, ps[i].blocks, image)
    decreases |msgs|
  {
    if msgs != [] {
      var c := msgs[0].content;
      var t1 := ProcessContent(c, t, image).value.1;
      if c.Parts? {
        PartsWithinLimits(c.items, t, image);
      }
      MessagesWithinLimitsTally(msgs, t, image);
      ValidateCarriesParts(msgs[1..], t1, image);
      var ps := ProcessMessages(msgs, t, image).value.0;
      var tail := ProcessMessages(msgs[1..], t1, image).value.0;
      assert ps == [ps[0]] + tail;
      forall i | 1 <= i < |msgs| ensures ps[i] == tail[i - 1] && msgs[i] == msgs[1..][i - 1] { }
    }
  }

  /** The tally after the first message stays within the limits when the
      whole list is accepted. */
  lemma MessagesWithinLimitsTally(msgs: seq<Message>, t: Tally, image: ImageReader)
    requires ReadsImages(image)
    requires msgs != [] && t.images <= MaxImages && !TooLarge(t.dataLength)
    requires ProcessMessages(msgs, t, image).Success?
    ensures var t1 := ProcessContent(msgs[0].content, t, image).value.1;
            t1.images <= MaxImages && !TooLarge(t1.dataLength)
  {
    var c := msgs[0].content;
    if c.Parts? {
      PartsWithinLimits(c.items, t, image);
    }
  }

  // ---------------------------------------------------------------------
  // Input estimate (lines 178-181)

  /** `count_tokens(get_messages_content(messages)) + len(messages)`, over
      the messages as received (system message included); `render` stands
      for `get_messages_content`. */
  function InputEstimate<M>(msgs: seq<M>, render: seq<M> -> string, count: string -> nat): (n: nat) {
    count(render(msgs)) + |msgs|
  }

  // ---------------------------------------------------------------------
  // The non-streaming branch (lines 325-370)

  /** The `usage` object of a JSON reply; a missing object or key is `None`. */
  datatype Usage = Usage(inputTokens: Option<int>, outputTokens: Option<nat>)

  /** The reply of a non-streaming request: its `content` list (missing is
      empty) and its `usage`. */
  datatype Answer = Answer(content: seq<Item>, usage: Usage)

  /** `generated_text += item["text"]` over the content list, starting from
      `acc`; `None` where an item raises `KeyError`. */
  function Accumulate(items: seq<Item>, acc: string): (r: Option<string>)
    ensures r.Some? <==> WellFormedItems(items)
    ensures r.Some? ==> r.value == acc + Relay.Concat(ItemTexts(items))
    decreases |items|
  {
    if items == [] then
      assert acc + Relay.Concat([]) == acc;
      Some(acc)
    else
      WellFormedCons(items);
      match items[0]
      case BadItem => None
      case OtherItem => Accumulate(items[1..], acc)
      case TextItem(x) =>
        ConcatCons(x, ItemTexts(items[1..]));
        Accumulate(items[1..], acc + x)
  }

  lemma WellFormedCons(items: seq<Item>)
    requires items != []
    ensures WellFormedItems(items) <==> !items[0].BadItem? && WellFormedItems(items[1..])
  {
    if !items[0].BadItem? && WellFormedItems(items[1..]) {
      forall i | 0 <= i < |items| ensures !items[i].BadItem? {
        if i > 0 { assert items[i] == items[1..][i - 1]; }
      }
    }
  }

  lemma {:induction false} ConcatCons(x: string, ss: seq<string>)
    ensures Relay.Concat([x] + ss) == x + Relay.Concat(ss)
    decreases |ss|
  {
    if ss == [] {
      assert [x] + ss == [x];
      assert Relay.Concat([x]) == Relay.Concat([]) + x;
    } else {
      var init := ss[..|ss| - 1];
      assert ([x] + ss)[..|ss|] == [x] + init;
      ConcatCons(x, init);
    }
  }

  /** The usage fields of lines 358-364: the reply's token counts where
      present, else the local estimate and a count of the generated text. */
  datatype Settled = Settled(text: string, call: Relay.UsageCall)

  function NonStream(a: Answer, estimate: int, count: string -> nat, startTime: int): (r: Option<Settled>)
    ensures r.Some? <==> WellFormedItems(a.content)
    ensures r.Some? ==> r.value.text == Relay.Concat(ItemTexts(a.content))
    ensures r.Some? ==> r.value.call.persist && r.value.call.status == Relay.Completed
    ensures r.Some? ==> r.value.call.inputTokens == (if a.usage.inputTokens.Some? then a.usage.inputTokens.value else estimate)
    ensures r.Some? ==> r.value.call.generatedTokens == Some(if a.usage.outputTokens.Some? then a.usage.outputTokens.value else count(r.value.text))
  {
    match Accumulate(a.content, "")
    case None => None
    case Some(text) =>
      assert "" + Relay.Concat(ItemTexts(a.content)) == Relay.Concat(ItemTexts(a.content));
      var generated := a.usage.outputTokens.GetOr(count(text));
      Some(Settled(text, Relay.UsageCall(a.usage.inputTokens.GetOr(estimate), Some(generated), startTime, Relay.Completed, true)))
  }

  /** Both paths read a `message` the same way: the non-streaming reply text
      is the streamed deltas of the same content, run together. */
  lemma NonStreamMatchesStream(items: seq<Item>, u: Usage, estimate: int, count: string -> nat, startTime: int)
    requires WellFormedItems(items)
    ensures NonStream(Answer(items, u), estimate, count, startTime).value.text
              == Relay.Concat(Interpret(Translator.Message(items)).texts)
  {
    MessageTextsSpec(items);
  }

  // ---------------------------------------------------------------------
  // pipe (lines 93-381)

  /** The request body fields `pipe` reads. */
  datatype Body = Body(model: string, messages: seq<Message>, stream: bool)

  /** What is sent upstream, less the sampling parameters. */
  datatype Payload = Payload(model: string, messages: seq<Processed>, stream: bool)

  /** The upstream's reply: its status code, and the body read according to
      the request's `stream` flag. */
  datatype Reply = Reply(status: int, lines: Relay.Upstream, answer: Answer)

  /** The collaborators of `pipe`: the API key valve, `pop_system_message`,
      `get_messages_content`, `count_tokens`, the JSON reader of stream
      lines, and the clock readings and client behaviour. */
  datatype Context = Context(
    apiKey: string,
    popSystem: seq<Message> -> seq<Message>,
    render: seq<Message> -> string,
    count: string -> nat,
    parse: string -> Decoded,
    startTime: int,
    streamStart: int,
    consumer: Relay.Consumer)

  datatype PipeResult =
    | NoApiKey                                   // lines 100-103
    | Rejected(error: RequestError)              // lines 128-162
    | HttpFailed(calls: seq<Relay.UsageCall>)    // lines 219-224 and 336-341
    | Streamed(payload: Payload, requested: Relay.UsageCall, outcome: Relay.Outcome)
    | Answered(payload: Payload, requested: Relay.UsageCall, settled: Option<Settled>)

  /** Every usage call a request leads to, in order. */
  function Trace(r: PipeResult): seq<Relay.UsageCall> {
    match r
    case NoApiKey => []
    case Rejected(_) => []
    case HttpFailed(calls) => calls
    case Streamed(_, q, o) => [q] + o.calls
    case Answered(_, q, s) => [q] + (if s.Some? then [s.value.call] else [])
  }

  function Persists(calls: seq<Relay.UsageCall>): nat {
    if calls == [] then 0 else (if calls[0].persist then 1 else 0) + Persists(calls[1..])
  }

  /** The whole of `pipe`: configuration check, content validation, the
      input estimate, the "Requested..." report, and then one of the two
      branches. A bad status raises before the relay exists, so no
      persisting call is made. */
  function Pipe(body: Body, ctx: Context, reply: Reply): (r: PipeResult)
    ensures r == NoApiKey <==> ctx.apiKey == []
    ensures r.Rejected? <==> ctx.apiKey != [] && Validate(ctx.popSystem(body.messages)).Failure?
    ensures r.Streamed? || r.Answered? || r.HttpFailed? ==>
      && |Trace(r)| >= 1
      && Trace(r)[0] == Relay.UsageCall(InputEstimate(body.messages, ctx.render, ctx.count), None, ctx.startTime, Relay.Requested, false)
    ensures r.HttpFailed? <==> ctx.apiKey != [] && Validate(ctx.popSystem(body.messages)).Success? && reply.status != 200
    ensures r.HttpFailed? ==> |Trace(r)| == 1
    ensures r.Streamed? || r.Answered? ==>
      r.payload == Payload(ModelId(body.model), Validate(ctx.popSystem(body.messages)).value, body.stream)
    ensures r.Streamed? <==> ctx.apiKey != [] && Validate(ctx.popSystem(body.messages)).Success? && reply.status == 200 && body.stream
    // the streamed reply goes through the relay, the other one is settled at once, both with the same estimate
    ensures r.Streamed? ==>
      r.outcome == Relay.Run(reply.lines,
                     Relay.Env(ctx.parse, ctx.count, InputEstimate(body.messages, ctx.render, ctx.count), ctx.streamStart, ctx.consumer))
    ensures r.Answered? ==>
      r.settled == NonStream(reply.answer, InputEstimate(body.messages, ctx.render, ctx.count), ctx.count, ctx.startTime)
  {
    if ctx.apiKey == [] then NoApiKey
    else match Validate(ctx.popSystem(body.messages))
      case Failure(e) => Rejected(e)
      case Success(processed) =>
        var payload := Payload(ModelId(body.model), processed, body.stream);
        var estimate := InputEstimate(body.messages, ctx.render, ctx.count);
        var requested := Relay.UsageCall(estimate, None, ctx.startTime, Relay.Requested, false);
        if reply.status != 200 then HttpFailed([requested])
        else if body.stream then
          var env := Relay.Env(ctx.parse, ctx.count, estimate, ctx.streamStart, ctx.consumer);
          Streamed(payload, requested, Relay.Run(reply.lines, env))
        else Answered(payload, requested, NonStream(reply.answer, estimate, ctx.count, ctx.startTime))
  }

  lemma PersistsAppend(a: seq<Relay.UsageCall>, b: seq<Relay.UsageCall>)
    ensures Persists(a + b) == Persists(a) + Persists(b)
  {
    if a != [] {
      assert (a + b)[1..] == a[1..] + b;
    } else {
      assert a + b == b;
    }
  }

  lemma {:induction false} PersistsNone(calls: seq<Relay.UsageCall>)
    requires forall i :: 0 <= i < |calls| ==> !calls[i].persist
    ensures Persists(calls) == 0
    decreases |calls|
  {
    if calls != [] {
      PersistsNone(calls[1..]);
    }
  }

  /** Exactly one persisting usage call per request that reached the
      upstream with status 200 and was not cut short by a bad content item
      in a non-streaming reply; none otherwise. */
  lemma PersistOnce(body: Body, ctx: Context, reply: Reply)
    ensures var r := Pipe(body, ctx, reply);
            Persists(Trace(r)) == (if r.Streamed? || (r.Answered? && r.settled.Some?) then 1 else 0)
  {
    var r := Pipe(body, ctx, reply);
    match r
    case Streamed(_, q, o) =>
      var n := |o.calls|;
      PersistsNone(o.calls[..n - 1]);
      assert o.calls == o.calls[..n - 1] + [o.calls[n - 1]];
      PersistsAppend(o.calls[..n - 1], [o.calls[n - 1]]);
      PersistsAppend([q], o.calls);
    case Answered(_, q, s) =>
      PersistsAppend([q], if s.Some? then [s.value.call] else []);
    case HttpFailed(calls) =>
    case NoApiKey =>
    case Rejected(_) =>
  }

  /** The input tokens every usage report of a request carries: the count
      of the rendered messages as received (the system message included)
      plus one per message; a non-streaming reply's final report takes the
      upstream's `input_tokens` instead when the reply has one. */
  lemma PipeInputTokens(body: Body, ctx: Context, reply: Reply)
    ensures var r := Pipe(body, ctx, reply);
            var e := ctx.count(ctx.render(body.messages)) + |body.messages|;
            && (r.HttpFailed? ==> Trace(r) == [Relay.UsageCall(e, None, ctx.startTime, Relay.Requested, false)])
            && (r.Streamed? ==> forall i :: 0 <= i < |Trace(r)| ==> Trace(r)[i].inputTokens == e)
            && (r.Answered? ==> Trace(r)[0].inputTokens == e)
            && (r.Answered? && r.settled.Some? ==>
                  && |Trace(r)| == 2
                  && Trace(r)[1].inputTokens == reply.answer.usage.inputTokens.GetOr(e))
  {
    var r := Pipe(body, ctx, reply);
    if r.Streamed? {
      TraceInputTokens(r.requested, r.outcome.calls, InputEstimate(body.messages, ctx.render, ctx.count));
    }
  }

  lemma TraceInputTokens(q: Relay.UsageCall, calls: seq<Relay.UsageCall>, e: int)
    requires q.inputTokens == e && forall i :: 0 <= i < |calls| ==> calls[i].inputTokens == e
    ensures forall i :: 0 <= i < |[q] + calls| ==> ([q] + calls)[i].inputTokens == e
  {
    forall i | 1 <= i < |[q] + calls| ensures ([q] + calls)[i].inputTokens == e {
      assert ([q] + calls)[i] == calls[i - 1];
    }
  }
}
