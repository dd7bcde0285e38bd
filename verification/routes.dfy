/** The `POST /api/amazon-main` handler (server/routes.ts): the order of its
    guards, how it picks the generated image out of the model's response,
    the pixel whitening pass, and how failures become responses. The model
    call and the image library are passed in as their outcomes. */
module Routes {
  import opened Wrappers

  newtype byte = b: int | 0 <= b < 256

  // ---------------------------------------------------------------------------
  // Request and configuration

  /** The uploaded file as multer hands it over. */
  datatype Upload = Upload(buffer: seq<byte>, mimetype: string)

  /** The two environment variables the handler needs. */
  datatype Config = Config(apiKey: Option<string>, baseUrl: Option<string>)

  /** Both variables are set and non-empty (an empty string is falsy). */
  predicate Configured(c: Config) {
    c.apiKey.Some? && c.apiKey.value != "" && c.baseUrl.Some? && c.baseUrl.value != ""
  }

  /** `req.file.mimetype || "image/jpeg"`. */
  function UploadMimeType(u: Upload): (m: string)
    ensures m != ""
    ensures u.mimetype != "" ==> m == u.mimetype
  {
    if u.mimetype != "" then u.mimetype else "image/jpeg"
  }

  // ---------------------------------------------------------------------------
  // The model's response

  datatype InlineData = InlineData(data: Option<string>, mimeType: Option<string>)
  datatype Part = Part(inlineData: Option<InlineData>, text: Option<string>)
  datatype Content = Content(parts: Option<seq<Part>>)
  datatype Candidate = Candidate(content: Option<Content>)
  datatype GenerateResponse = GenerateResponse(candidates: Option<seq<Candidate>>)

  /** `parts.find(part => part.inlineData)`: the first part carrying an
      `inlineData` object, whatever that object holds. */
  function FirstInlinePart(parts: seq<Part>): (r: Option<nat>)
    ensures r.None? <==> forall k | 0 <= k < |parts| :: parts[k].inlineData.None?
    ensures r.Some? ==> r.value < |parts| && parts[r.value].inlineData.Some?
    ensures r.Some? ==> forall k | 0 <= k < r.value :: parts[k].inlineData.None?
    decreases |parts|
  {
    if |parts| == 0 then None
    else if parts[0].inlineData.Some? then Some(0)
    else match FirstInlinePart(parts[1..])
      case None => None
      case Some(k) => Some(k + 1)
  }

  /** The parts of the first candidate, if the response has them. */
  function FirstCandidateParts(resp: GenerateResponse): Option<seq<Part>> {
    if resp.candidates.Some? && |resp.candidates.value| > 0
       && resp.candidates.value[0].content.Some? && resp.candidates.value[0].content.value.parts.Some?
    then resp.candidates.value[0].content.value.parts
    else None
  }

  /** The base64 image the handler goes on with: the data of the first part
      that has `inlineData`, if that data is present and non-empty. */
  function ImageData(resp: GenerateResponse): (r: Option<string>)
    ensures r.Some? ==> r.value != ""
  {
    match FirstCandidateParts(resp)
    case None => None
    case Some(parts) =>
      match FirstInlinePart(parts)
      case None => None
      case Some(k) =>
        var d := parts[k].inlineData.value.data;
        if d.Some? && d.value != "" then d else None
  }

  /** The image comes from the first part with `inlineData` and from no other:
      when that part's data is missing or empty, a later part with data is
      not consulted. */
  lemma ImageDataFromFirstInlinePart(resp: GenerateResponse, parts: seq<Part>, k: nat)
    requires FirstCandidateParts(resp) == Some(parts)
    requires k < |parts| && parts[k].inlineData.Some?
    requires forall j | 0 <= j < k :: parts[j].inlineData.None?
    ensures var d := parts[k].inlineData.value.data;
      ImageData(resp) == (if d.Some? && d.value != "" then d else None)
  {
    assert FirstInlinePart(parts).Some?;
  }

  /** Without a first candidate that has parts, there is no image. */
  lemma NoPartsNoImage(resp: GenerateResponse)
    requires FirstCandidateParts(resp).None?
    ensures ImageData(resp).None?
  {
  }

  // ---------------------------------------------------------------------------
  // Whitening

  /** A decoded raster: interleaved channel bytes. The decoded JPEG the
      handler whitens has at least the three colour channels. */
  datatype RawImage = RawImage(pixels: seq<byte>, width: nat, height: nat, channels: nat)
  type Raster = r: RawImage | r.channels >= 3 witness RawImage([], 0, 0, 3)

  const WhiteThreshold: byte := 250
  const White: byte := 255

  /** Where the pixel starting at offset `i` ends: `channels` bytes on, or
      the end of a buffer cut short. */
  function PixelEnd(px: seq<byte>, channels: nat, i: nat): (j: nat)
    requires i < |px| && channels > 0
    ensures i < j <= |px|
    ensures j < |px| ==> j == i + channels
  {
    if i + channels <= |px| then i + channels else |px|
  }

  /** Offset `base` is a whole number of pixels on from offset `i`. */
  predicate PixelsApart(channels: nat, i: nat, base: nat)
    decreases base - i
  {
    i == base || (0 < channels && i + channels <= base && PixelsApart(channels, i + channels, base))
  }

  /** Offset `base` is where a pixel starts. */
  predicate PixelStart(channels: nat, base: nat) {
    PixelsApart(channels, 0, base)
  }

  lemma {:induction false} PixelsApartExtend(channels: nat, i: nat, base: nat)
    requires channels > 0 && PixelsApart(channels, i, base)
    ensures PixelsApart(channels, i, base + channels)
    decreases base - i
  {
    if i < base {
      PixelsApartExtend(channels, i + channels, base);
    }
  }

  /** The loop's test on a pixel: all three colour channels at or above the
      threshold. A channel past the end of the buffer reads `undefined`,
      which compares false. */
  predicate NearWhite(pixel: seq<byte>) {
    |pixel| >= 3 && pixel[0] >= WhiteThreshold && pixel[1] >= WhiteThreshold && pixel[2] >= WhiteThreshold
  }

  /** One pixel through the pass. */
  function WhitenPixel(pixel: seq<byte>): (q: seq<byte>)
    ensures |q| == |pixel|
  {
    if NearWhite(pixel) then [White, White, White] + pixel[3..] else pixel
  }

  /** A near-white pixel has its three colour channels set to white and the
      rest kept; any other pixel passes through unchanged. */
  lemma WhitenPixelMeaning(pixel: seq<byte>)
    ensures var q := WhitenPixel(pixel);
      NearWhite(pixel) ==> q[0] == White && q[1] == White && q[2] == White && q[3..] == pixel[3..]
    ensures !NearWhite(pixel) ==> WhitenPixel(pixel) == pixel
  {
  }

  /** Whitening a pixel never darkens a byte, keeps it near white exactly
      when it was, and a second pass over it changes nothing. */
  lemma WhitenPixelBrightens(pixel: seq<byte>)
    ensures forall k | 0 <= k < |pixel| :: WhitenPixel(pixel)[k] >= pixel[k]
    ensures NearWhite(WhitenPixel(pixel)) <==> NearWhite(pixel)
    ensures WhitenPixel(WhitenPixel(pixel)) == WhitenPixel(pixel)
  {
    if NearWhite(pixel) {
      var q := WhitenPixel(pixel);
      assert q[3..] == pixel[3..];
      assert WhitenPixel(q) == [White, White, White] + q[3..];
    }
  }

  /** Reference definition of the pass over the pixels from offset `i` on. */
  function WhitenedFrom(px: seq<byte>, channels: nat, i: nat): (out: seq<byte>)
    requires channels >= 3 && i <= |px|
    ensures |out| == |px| - i
    decreases |px| - i
  {
    if i == |px| then []
    else
      var j := PixelEnd(px, channels, i);
      WhitenPixel(px[i..j]) + WhitenedFrom(px, channels, j)
  }

  /** Reference definition of the whole pass, pixel by pixel. */
  function Whitened(px: seq<byte>, channels: nat): (out: seq<byte>)
    requires channels >= 3
    ensures |out| == |px|
  {
    WhitenedFrom(px, channels, 0)
  }

  lemma Assoc(a: seq<byte>, b: seq<byte>, c: seq<byte>)
    ensures a + b + c == a + (b + c)
  {
  }

  /** The two halves of a three-part concatenation. */
  lemma SplitThree(a: seq<byte>, b: seq<byte>, c: seq<byte>)
    ensures (a + b + c)[..|a| + |b|] == a + b
    ensures (a + b + c)[|a| + |b|..] == c
  {
  }

  /** Writing white over the colour channels of a near-white pixel in the
      middle of the buffer whitens exactly that pixel. */
  lemma WriteWhite(done: seq<byte>, pixel: seq<byte>, rest: seq<byte>)
    requires NearWhite(pixel)
    ensures (done + pixel + rest)[|done| := White][|done| + 1 := White][|done| + 2 := White]
         == done + WhitenPixel(pixel) + rest
  {
    var i := |done|;
    var written := (done + pixel + rest)[i := White][i + 1 := White][i + 2 := White];
    var want := done + WhitenPixel(pixel) + rest;
    assert |written| == |want|;
    forall k | 0 <= k < |want|
      ensures written[k] == want[k]
    {
      if k < i {
      } else if k < i + |pixel| {
        assert want[k] == WhitenPixel(pixel)[k - i];
      } else {
        assert want[k] == rest[k - i - |pixel|];
      }
    }
  }

  /** The loop's test at offset `i`: the three bytes from `i` on exist and
      are at or above the threshold. */
  predicate NearWhiteAt(out: seq<byte>, i: nat) {
    i + 2 < |out| && out[i] >= WhiteThreshold && out[i + 1] >= WhiteThreshold && out[i + 2] >= WhiteThreshold
  }

  /** The body of the loop at offset `i`: the three colour bytes there are
      set to white when they pass the test. */
  function WhitenAt(out: seq<byte>, i: nat): (r: seq<byte>)
    ensures |r| == |out|
  {
    if NearWhiteAt(out, i) then out[i := White][i + 1 := White][i + 2 := White] else out
  }

  /** The loop body at the start of a pixel whitens exactly that pixel. */
  lemma WhitenAtPixel(done: seq<byte>, pixel: seq<byte>, rest: seq<byte>)
    requires |pixel| >= 3 || rest == []
    ensures WhitenAt(done + pixel + rest, |done|) == done + WhitenPixel(pixel) + rest
  {
    var out := done + pixel + rest;
    var i := |done|;
    if NearWhiteAt(out, i) {
      if |pixel| >= 3 {
        assert pixel[0] == out[i] && pixel[1] == out[i + 1] && pixel[2] == out[i + 2];
        WriteWhite(done, pixel, rest);
      }
    } else {
      if |pixel| >= 3 {
        assert pixel[0] == out[i] && pixel[1] == out[i + 1] && pixel[2] == out[i + 2];
      }
      assert !NearWhite(pixel);
    }
  }

  /** The loop's invariant at offset `i`: the bytes before `i` are the
      finished part of the pass, the bytes from `i` on are untouched. */
  predicate PassInvariant(px: seq<byte>, channels: nat, i: nat, out: seq<byte>)
    requires channels >= 3
  {
    i <= |px| == |out| && out[..i] + WhitenedFrom(px, channels, i) == Whitened(px, channels) && out[i..] == px[i..]
  }

  /** Before an iteration, the buffer is the finished part, the pixel at
      `i` and the untouched rest. */
  lemma StepShape(px: seq<byte>, i: nat, j: nat, out: seq<byte>)
    requires i <= j <= |px| == |out| && out[i..] == px[i..]
    ensures out == out[..i] + px[i..j] + px[j..]
  {
    assert out[i..] == px[i..j] + px[j..];
    assert out == out[..i] + out[i..];
  }

  /** The bookkeeping of one iteration, over plain sequences: `w` is the
      whitened pixel, `from` and `after` the reference pass from the pixel
      and from the next one. */
  lemma StepAlgebra(next: seq<byte>, done: seq<byte>, w: seq<byte>, rest: seq<byte>, from: seq<byte>, after: seq<byte>)
    requires next == done + w + rest && from == w + after
    ensures next[..|done| + |w|] + after == done + from
    ensures next[|done| + |w|..] == rest
  {
    SplitThree(done, w, rest);
    Assoc(done, w, after);
  }

  /** One iteration of the loop keeps its invariant. */
  lemma WhitenStep(px: seq<byte>, channels: nat, i: nat, out: seq<byte>)
    requires channels >= 3 && i < |px|
    requires PassInvariant(px, channels, i, out)
    ensures PassInvariant(px, channels, PixelEnd(px, channels, i), WhitenAt(out, i))
  {
    var j := PixelEnd(px, channels, i);
    StepShape(px, i, j, out);
    WhitenAtPixel(out[..i], px[i..j], px[j..]);
    StepAlgebra(WhitenAt(out, i), out[..i], WhitenPixel(px[i..j]), px[j..],
                WhitenedFrom(px, channels, i), WhitenedFrom(px, channels, j));
  }

  /** When the loop ends, the whole buffer has been whitened. */
  lemma WhitenFinished(px: seq<byte>, channels: nat, out: seq<byte>)
    requires channels >= 3
    requires PassInvariant(px, channels, |px|, out)
    ensures out == Whitened(px, channels)
  {
    assert out[..|px|] == out;
  }

  /** The loop of the handler, `i += channels` over the buffer. */
  method Whiten(px: seq<byte>, channels: nat) returns (out: seq<byte>)
    requires channels >= 3
    ensures out == Whitened(px, channels)
    ensures |out| == |px|
  {
    out := px;
    var i := 0;
    assert out[..0] + Whitened(px, channels) == Whitened(px, channels);
    while i < |px|
      invariant PassInvariant(px, channels, i, out)
      decreases |px| - i
    {
      var j := PixelEnd(px, channels, i);
      WhitenStep(px, channels, i, out);
      out := WhitenAt(out, i);
      i := j;
    }
    WhitenFinished(px, channels, out);
  }

  /** Any per-pixel map over the buffer from offset `i` on: each pixel is
      replaced by `f` of it. */
  function MapPixelsFrom(f: seq<byte> -> seq<byte>, px: seq<byte>, channels: nat, i: nat): seq<byte>
    requires channels > 0 && i <= |px|
    decreases |px| - i
  {
    if i == |px| then []
    else
      var j := PixelEnd(px, channels, i);
      f(px[i..j]) + MapPixelsFrom(f, px, channels, j)
  }

  /** The pass is the per-pixel map of `WhitenPixel`. */
  lemma {:induction false} WhitenedFromIsMap(px: seq<byte>, channels: nat, i: nat)
    requires channels >= 3 && i <= |px|
    ensures WhitenedFrom(px, channels, i) == MapPixelsFrom(WhitenPixel, px, channels, i)
    decreases |px| - i
  {
    if i < |px| {
      WhitenedFromIsMap(px, channels, PixelEnd(px, channels, i));
    }
  }

  /** Byte `k` of a length-keeping per-pixel map from offset `i` on, where
      `k` lies in the pixel starting at `base`, is that pixel's byte mapped
      on its own. */
  lemma {:induction false} MapPixelsIndex(f: seq<byte> -> seq<byte>, px: seq<byte>, channels: nat, i: nat, base: nat, k: nat)
    requires channels > 0 && i <= base < |px| && PixelsApart(channels, i, base)
    requires forall p :: |f(p)| == |p|
    requires base <= k < PixelEnd(px, channels, base)
    ensures k - i < |MapPixelsFrom(f, px, channels, i)|
    ensures MapPixelsFrom(f, px, channels, i)[k - i] == f(px[base..PixelEnd(px, channels, base)])[k - base]
    decreases base - i
  {
    var j := PixelEnd(px, channels, i);
    assert MapPixelsFrom(f, px, channels, i) == f(px[i..j]) + MapPixelsFrom(f, px, channels, j);
    if base != i {
      assert j == i + channels;
      MapPixelsIndex(f, px, channels, j, base, k);
    }
  }

  /** The output bytes of the pixel starting at `base` are that pixel
      whitened on its own. */
  lemma WhitenedAt(px: seq<byte>, channels: nat, base: nat)
    requires channels >= 3 && base < |px| && PixelStart(channels, base)
    ensures var e := PixelEnd(px, channels, base);
      Whitened(px, channels)[base..e] == WhitenPixel(px[base..e])
  {
    var e := PixelEnd(px, channels, base);
    var out := Whitened(px, channels);
    var q := WhitenPixel(px[base..e]);
    WhitenedFromIsMap(px, channels, 0);
    forall k | base <= k < e
      ensures out[k] == q[k - base]
    {
      MapPixelsIndex(WhitenPixel, px, channels, 0, base, k);
    }
    assert out[base..e] == q;
  }

  /** What it means, byte by byte, for the bytes `base .. e-1` of `out` to
      be those of `px` whitened as one pixel. */
  lemma PixelInPlace(out: seq<byte>, px: seq<byte>, base: nat, e: nat)
    requires base <= e <= |out| == |px|
    requires out[base..e] == WhitenPixel(px[base..e])
    ensures NearWhite(px[base..e]) ==> out[base] == White && out[base + 1] == White && out[base + 2] == White
    ensures !NearWhite(px[base..e]) ==> forall k | base <= k < e :: out[k] == px[k]
    ensures forall k | base + 3 <= k < e :: out[k] == px[k]
  {
    var pixel := px[base..e];
    var w := WhitenPixel(pixel);
    assert forall k | base <= k < e :: out[k] == w[k - base] && px[k] == pixel[k - base];
    if NearWhite(pixel) {
      assert forall j | 3 <= j < e - base :: w[j] == pixel[j] by {
        assert w[3..] == pixel[3..];
      }
    }
  }

  /** Every colour channel of a near-white pixel ends exactly white; a pixel
      that is not near-white, and the bytes past the colour channels, stay as
      they were. `base` is where a pixel starts. */
  lemma WhitenedMeaning(px: seq<byte>, channels: nat, base: nat)
    requires channels >= 3 && base < |px| && PixelStart(channels, base)
    ensures var e := PixelEnd(px, channels, base);
      var out := Whitened(px, channels);
      && (NearWhite(px[base..e]) ==> out[base] == White && out[base + 1] == White && out[base + 2] == White)
      && (!NearWhite(px[base..e]) ==> forall k | base <= k < e :: out[k] == px[k])
      && (forall k | base + 3 <= k < e :: out[k] == px[k])
  {
    var e := PixelEnd(px, channels, base);
    WhitenedAt(px, channels, base);
    PixelInPlace(Whitened(px, channels), px, base, e);
  }

  /** Byte-wise domination is kept by concatenation. */
  lemma ConcatNotBelow(a: seq<byte>, b: seq<byte>, x: seq<byte>, y: seq<byte>)
    requires |a| == |x| && |b| == |y|
    requires forall k | 0 <= k < |a| :: a[k] >= x[k]
    requires forall k | 0 <= k < |b| :: b[k] >= y[k]
    ensures forall k | 0 <= k < |a| + |b| :: (a + b)[k] >= (x + y)[k]
  {
    forall k | 0 <= k < |a| + |b|
      ensures (a + b)[k] >= (x + y)[k]
    {
      if k >= |a| {
        assert (a + b)[k] == b[k - |a|] && (x + y)[k] == y[k - |a|];
      }
    }
  }

  lemma {:induction false} WhitenedFromNeverDecreases(px: seq<byte>, channels: nat, i: nat)
    requires channels >= 3 && i <= |px|
    ensures forall k | 0 <= k < |px| - i :: WhitenedFrom(px, channels, i)[k] >= px[i..][k]
    decreases |px| - i
  {
    if i < |px| {
      var j := PixelEnd(px, channels, i);
      WhitenPixelBrightens(px[i..j]);
      WhitenedFromNeverDecreases(px, channels, j);
      assert px[i..] == px[i..j] + px[j..];
      ConcatNotBelow(WhitenPixel(px[i..j]), WhitenedFrom(px, channels, j), px[i..j], px[j..]);
    }
  }

  /** Whitening never darkens a byte. */
  lemma WhitenNeverDecreases(px: seq<byte>, channels: nat)
    requires channels >= 3
    ensures forall k | 0 <= k < |px| :: Whitened(px, channels)[k] >= px[k]
  {
    WhitenedFromNeverDecreases(px, channels, 0);
    assert px[0..] == px;
  }

  /** Whitening the whitened buffer from a pixel boundary on gives what
      whitening the original gave. */
  lemma {:induction false} WhitenedFromTwice(px: seq<byte>, channels: nat, i: nat)
    requires channels >= 3 && i <= |px| && PixelStart(channels, i)
    ensures WhitenedFrom(Whitened(px, channels), channels, i) == WhitenedFrom(px, channels, i)
    decreases |px| - i
  {
    if i < |px| {
      var once := Whitened(px, channels);
      var j := PixelEnd(px, channels, i);
      assert PixelEnd(once, channels, i) == j;
      WhitenedAt(px, channels, i);
      WhitenPixelBrightens(px[i..j]);
      if j < |px| {
        PixelsApartExtend(channels, 0, i);
        WhitenedFromTwice(px, channels, j);
      }
    }
  }

  /** A second pass changes nothing. */
  lemma WhitenIdempotent(px: seq<byte>, channels: nat)
    requires channels >= 3
    ensures Whitened(Whitened(px, channels), channels) == Whitened(px, channels)
  {
    WhitenedFromTwice(px, channels, 0);
  }

  // ---------------------------------------------------------------------------
  // The handler

  const NoFileMessage := "No image file provided"
  const NotConfiguredMessage := "Gemini AI integration is not configured. Please set up the AI integration."
  const NoImageMessage := "AI did not return an image. Please try again."
  const FailurePrefix := "Failed to process image: "
  const UnknownErrorMessage := "Unknown error"
  const JpegContentType := "image/jpeg"
  const AttachmentDisposition := "attachment; filename=\"amazon-main.jpg\""

  datatype Response =
    | JsonError(status: int, error: string)
    | Attachment(contentType: string, disposition: string, body: seq<byte>)

  /** The response, and whether the model was called on the way. */
  datatype Handled = Handled(response: Response, modelInvoked: bool)

  /** The catch block: status 500 with the thrown error's message, or a fixed
      text when what was thrown is not an `Error`. */
  function FailureResponse(f: Fault): (r: Response)
    ensures r.JsonError? && r.status == 500
    ensures f.ErrorObject? ==> r.error == FailurePrefix + f.message
    ensures f.NonErrorValue? ==> r.error == FailurePrefix + UnknownErrorMessage
  {
    JsonError(500, FailurePrefix + (if f.ErrorObject? then f.message else UnknownErrorMessage))
  }

  /** The handler. `generate` stands for the model call on the upload's bytes
      and MIME type; `normalize` for decoding the returned base64 image,
      fitting it into a white 2000 x 2000 square, encoding it as JPEG and
      decoding that to a raw raster; `encode` for the final JPEG encoding.
      Each of them may throw. */
  function Handle(file: Option<Upload>, config: Config,
                  generate: (string, seq<byte>) -> Result<GenerateResponse>,
                  normalize: string -> Result<Raster>,
                  encode: Raster -> Result<seq<byte>>): (h: Handled)
    ensures file.None? ==> h == Handled(JsonError(400, NoFileMessage), false)
    ensures file.Some? && !Configured(config) ==> h == Handled(JsonError(500, NotConfiguredMessage), false)
    ensures h.modelInvoked <==> file.Some? && Configured(config)
    ensures h.response.JsonError? ==> (h.response.status == 400 <==> file.None?)
    ensures h.response.JsonError? ==> h.response.status in {400, 500}
    ensures h.response.Attachment? ==>
      && h.response.contentType == JpegContentType
      && h.response.disposition == AttachmentDisposition
      && file.Some? && Configured(config)
      && var g := generate(UploadMimeType(file.value), file.value.buffer);
      && g.Ok? && ImageData(g.value).Some?
      && var n := normalize(ImageData(g.value).value);
      && n.Ok?
      && encode(n.value.(pixels := Whitened(n.value.pixels, n.value.channels))) == Ok(h.response.body)
    ensures file.Some? && Configured(config) ==>
      var g := generate(UploadMimeType(file.value), file.value.buffer);
      && (g.Thrown? ==> h.response == FailureResponse(g.fault))
      && (g.Ok? && ImageData(g.value).None? ==> h.response == JsonError(500, NoImageMessage))
      && (g.Ok? && ImageData(g.value).Some? ==>
            var n := normalize(ImageData(g.value).value);
            && (n.Thrown? ==> h.response == FailureResponse(n.fault))
            && (n.Ok? ==>
                  var e := encode(n.value.(pixels := Whitened(n.value.pixels, n.value.channels)));
                  && (e.Thrown? ==> h.response == FailureResponse(e.fault))
                  && (e.Ok? ==> h.response == Attachment(JpegContentType, AttachmentDisposition, e.value))))
  {
    if file.None? then Handled(JsonError(400, NoFileMessage), false)
    else if !Configured(config) then Handled(JsonError(500, NotConfiguredMessage), false)
    else
      var upload := file.value;
      match generate(UploadMimeType(upload), upload.buffer)
      case Thrown(f) => Handled(FailureResponse(f), true)
      case Ok(resp) =>
        match ImageData(resp)
        case None => Handled(JsonError(500, NoImageMessage), true)
        case Some(data) =>
          match normalize(data)
          case Thrown(f) => Handled(FailureResponse(f), true)
          case Ok(raster) =>
            var whitened: Raster := raster.(pixels := Whitened(raster.pixels, raster.channels));
            match encode(whitened)
            case Thrown(f) => Handled(FailureResponse(f), true)
            case Ok(body) => Handled(Attachment(JpegContentType, AttachmentDisposition, body), true)
  }

  /** The guards come first: without a file, or without configuration, what
      the model or the image library would have done makes no difference. */
  lemma GuardsPrecedeWork(file: Option<Upload>, config: Config,
                          g1: (string, seq<byte>) -> Result<GenerateResponse>, n1: string -> Result<Raster>, e1: Raster -> Result<seq<byte>>,
                          g2: (string, seq<byte>) -> Result<GenerateResponse>, n2: string -> Result<Raster>, e2: Raster -> Result<seq<byte>>)
    requires file.None? || !Configured(config)
    ensures Handle(file, config, g1, n1, e1) == Handle(file, config, g2, n2, e2)
    ensures !Handle(file, config, g1, n1, e1).modelInvoked
  {
  }

  /** Every error response says which guard stopped the request, or carries
      the failure prefix. */
  lemma ErrorResponsesExplained(file: Option<Upload>, config: Config,
                                generate: (string, seq<byte>) -> Result<GenerateResponse>,
                                normalize: string -> Result<Raster>, encode: Raster -> Result<seq<byte>>)
    ensures var r := Handle(file, config, generate, normalize, encode).response;
      r.JsonError? ==>
        || r.error == NoFileMessage
        || r.error == NotConfiguredMessage
        || r.error == NoImageMessage
        || FailurePrefix <= r.error
  {
  }

  /** A response with no usable image part is the no-image error, whatever
      follows in the pipeline. */
  lemma MissingImageIsReported(upload: Upload, config: Config,
                               generate: (string, seq<byte>) -> Result<GenerateResponse>,
                               normalize: string -> Result<Raster>, encode: Raster -> Result<seq<byte>>)
    requires Configured(config)
    requires var g := generate(UploadMimeType(upload), upload.buffer); g.Ok? && ImageData(g.value).None?
    ensures Handle(Some(upload), config, generate, normalize, encode) == Handled(JsonError(500, NoImageMessage), true)
  {
  }
}
