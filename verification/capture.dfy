/** The capture bridge of `ImageServer`: a `/capture` handler that decodes an
    uploaded frame and its metadata header, and publishes the pair into a
    single-slot mailbox that `get_next_image` empties.

    Image decoding (`Image.open` + `np.array`), `json.loads` and the channel
    mean of `get_next_image` are parameters of the model; the lock and the
    event are the two fields of `Mailbox`. */
module CaptureBridge {
  import opened Wrappers
  import opened Text
  import opened Json

  newtype byte = x: int | 0 <= x < 256

  type Metadata = map<string, Json>

  /** The class of an uploaded-file object: Starlette's `UploadFile`, which
      is what `request.form()` builds, or FastAPI's subclass of it. */
  datatype UploadClass = StarletteUpload | FastApiUpload

  /** One multipart form value: an uploaded file, or a plain text field. */
  datatype FormField = FileUpload(contents: seq<byte>, cls: UploadClass) | TextField(text: string)

  /** An inbound POST. Header names are lower case (Starlette compares them
      case-insensitively). `form` is what awaiting `request.form()` gives:
      the fields, or the message of the exception it raised. */
  datatype Request = Request(
    headers: map<string, string>,
    body: seq<byte>,
    form: Result<map<string, FormField>, string>)

  /** A published frame: the decoded image and its metadata. */
  datatype Frame<I> = Frame(image: I, metadata: Metadata)

  /** The JSON envelope of every `/capture` reply. */
  datatype Reply = Succeeded | Errored(message: string)

  /** The shared state: `_current_probe_data` and the `_event` flag. */
  datatype Mailbox<I> = Mailbox(slot: Option<Frame<I>>, ready: bool)

  const MultipartPrefix := "multipart/form-data"
  const ImagePrefix := "image/"
  const NoFileMessage := "No file uploaded"
  const EmptyBodyMessage := "No image data in request body"
  const UnsupportedPrefix := "Unsupported content type: "
  const InvalidMetadataMessage := "Invalid X-Metadata format"

  /** The event is set exactly when the slot holds a frame. */
  predicate Valid<I>(m: Mailbox<I>)
  {
    m.ready <==> m.slot.Some?
  }

  /** `ImageServer.__init__`: no frame, event clear. */
  function Init<I>(): (m: Mailbox<I>)
    ensures Valid(m) && m.slot.None? && !m.ready
  {
    Mailbox(None, false)
  }

  /** `headers.get(name, default)`. */
  function Header(headers: map<string, string>, name: string, default: string): string
  {
    if name in headers then headers[name] else default
  }

  /** The lowered `content-type` header, empty when absent. */
  function ContentType(req: Request): string
  {
    Lower(Header(req.headers, "content-type", ""))
  }

  /** `isinstance(field, starlette.datastructures.UploadFile)`: any upload. */
  predicate IsUpload(f: FormField)
  {
    f.FileUpload?
  }

  /** `isinstance(field, fastapi.UploadFile)`, the test the handler makes. */
  predicate IsFastApiUpload(f: FormField)
  {
    f.FileUpload? && f.cls == FastApiUpload
  }

  /** The image bytes the handler goes on to decode, chosen by content type,
      or the message of the error reply; `isFile` is the class test applied
      to the form's `file` field. */
  function ReadPayload(req: Request, isFile: FormField -> bool): Result<seq<byte>, string>
  {
    var ct := ContentType(req);
    if StartsWith(ct, MultipartPrefix) then
      (match req.form
       case Failure(e) => Failure(e)
       case Success(fields) =>
         if "file" in fields && isFile(fields["file"]) && fields["file"].FileUpload? then
           Success(fields["file"].contents)
         else Failure(NoFileMessage))
    else if StartsWith(ct, ImagePrefix) then
      if |req.body| == 0 then Failure(EmptyBodyMessage) else Success(req.body)
    else
      Failure(UnsupportedPrefix + ct)
  }

  /** The payload as the handler reads it, with its class test: a multipart
      upload is only accepted when it is FastAPI's `UploadFile`, which the
      objects `request.form()` builds are not. */
  function PayloadAsWritten(req: Request): (r: Result<seq<byte>, string>)
    ensures StartsWith(ContentType(req), MultipartPrefix) ==>
      (match req.form
       case Failure(e) => r == Failure(e)
       case Success(fields) =>
         r == if "file" in fields && IsFastApiUpload(fields["file"]) then Success(fields["file"].contents)
              else Failure(NoFileMessage))
  {
    ReadPayload(req, IsFastApiUpload)
  }

  /** A multipart upload of the kind `request.form()` produces is refused
      with "No file uploaded" as written, and read by the corrected test. */
  lemma StarletteUploadRefusedAsWritten(req: Request, contents: seq<byte>)
    requires StartsWith(ContentType(req), MultipartPrefix)
    requires req.form.Success? && "file" in req.form.value
    requires req.form.value["file"] == FileUpload(contents, StarletteUpload)
    ensures PayloadAsWritten(req) == Failure(NoFileMessage)
    ensures Payload(req) == Success(contents)
  {
  }

  /** The image bytes the handler decodes, with the class test against
      Starlette's `UploadFile`, so that every uploaded file is read: the
      multipart file's contents, the non-empty raw body of an image
      request, or the message of the error reply. */
  function Payload(req: Request): (r: Result<seq<byte>, string>)
    ensures !StartsWith(ContentType(req), MultipartPrefix) && !StartsWith(ContentType(req), ImagePrefix)
      ==> r == Failure(UnsupportedPrefix + ContentType(req))
    ensures !StartsWith(ContentType(req), MultipartPrefix) && StartsWith(ContentType(req), ImagePrefix)
      ==> r == (if |req.body| == 0 then Failure(EmptyBodyMessage) else Success(req.body))
    ensures StartsWith(ContentType(req), MultipartPrefix) ==>
      (match req.form
       case Failure(e) => r == Failure(e)
       case Success(fields) =>
         r == if "file" in fields && IsUpload(fields["file"]) then Success(fields["file"].contents)
              else Failure(NoFileMessage))
  {
    ReadPayload(req, IsUpload)
  }

  /** The sender supplied a non-empty `x-metadata` header and declared it as
      exactly `application/json`. */
  predicate MetadataDeclared(headers: map<string, string>)
  {
    && "x-metadata" in headers && |headers["x-metadata"]| > 0
    && "x-metadata-content-type" in headers
    && headers["x-metadata-content-type"] == "application/json"
  }

  /** The metadata before stamping: parsed only when `x-metadata` is non-empty
      and `x-metadata-content-type` is exactly `application/json`; invalid JSON
      is kept as an error record. A non-JSON exception of the parser is
      propagated. */
  function ParsedMetadata(headers: map<string, string>, parse: string -> Parse): (r: Result<Json, string>)
    ensures !MetadataDeclared(headers) ==> r == Success(JObject(map[]))
    ensures MetadataDeclared(headers) ==>
      match parse(headers["x-metadata"])
      case Parsed(v) => r == Success(v)
      case Malformed => r == Success(JObject(map["error" := JStr(InvalidMetadataMessage),
                                                 "raw" := JStr(headers["x-metadata"])]))
      case Raised(msg) => r == Failure(msg)
  {
    var raw := Header(headers, "x-metadata", "");
    if |raw| > 0 && "x-metadata-content-type" in headers
       && headers["x-metadata-content-type"] == "application/json" then
      match parse(raw)
      case Parsed(v) => Success(v)
      case Malformed => Success(JObject(map["error" := JStr(InvalidMetadataMessage), "raw" := JStr(raw)]))
      case Raised(msg) => Failure(msg)
    else
      Success(JObject(map[]))
  }

  /** `metadata["epoch"] = current_time`: only a dict accepts the key. */
  function Stamp(v: Json, now: real): (r: Result<Metadata, string>)
    ensures r.Success? <==> v.JObject?
    ensures r.Success? ==> r.value.Keys == v.fields.Keys + {"epoch"}
    ensures r.Success? ==> r.value["epoch"] == JFloat(now)
    ensures r.Success? ==> forall k :: k in v.fields && k != "epoch" ==> r.value[k] == v.fields[k]
  {
    if v.JObject? then Success(v.fields["epoch" := JFloat(now)])
    else Failure(ItemAssignmentError(v))
  }

  /** Everything the handler does before taking the lock: the frame it would
      publish, or the message of its error reply. */
  function Accept<I>(req: Request, now: real, decode: seq<byte> -> Result<I, string>,
                     parse: string -> Parse): (r: Result<Frame<I>, string>)
    ensures !StartsWith(ContentType(req), MultipartPrefix) && !StartsWith(ContentType(req), ImagePrefix)
      ==> r == Failure(UnsupportedPrefix + ContentType(req))
    ensures StartsWith(ContentType(req), MultipartPrefix) && req.form.Failure?
      ==> r == Failure(req.form.error)
    ensures StartsWith(ContentType(req), MultipartPrefix) && req.form.Success?
      && !("file" in req.form.value && req.form.value["file"].FileUpload?)
      ==> r == Failure(NoFileMessage)
    ensures (!StartsWith(ContentType(req), MultipartPrefix) && StartsWith(ContentType(req), ImagePrefix)
             && |req.body| == 0)
      ==> r == Failure(EmptyBodyMessage)
    ensures Payload(req).Success? && decode(Payload(req).value).Failure?
      ==> r == Failure(decode(Payload(req).value).error)
    ensures Payload(req).Success? && decode(Payload(req).value).Success? && MetadataDeclared(req.headers)
      && parse(req.headers["x-metadata"]).Raised?
      ==> r == Failure(parse(req.headers["x-metadata"]).message)
    ensures (&& Payload(req).Success? && decode(Payload(req).value).Success?
             && ParsedMetadata(req.headers, parse).Success? && !ParsedMetadata(req.headers, parse).value.JObject?)
      ==> r == Failure(ItemAssignmentError(ParsedMetadata(req.headers, parse).value))
    ensures r.Success? <==>
      (&& Payload(req).Success? && decode(Payload(req).value).Success?
       && ParsedMetadata(req.headers, parse).Success? && ParsedMetadata(req.headers, parse).value.JObject?)
    ensures r.Success? ==> Payload(req).Success? && r.value.image == decode(Payload(req).value).value
    ensures r.Success? ==> "epoch" in r.value.metadata && r.value.metadata["epoch"] == JFloat(now)
    ensures r.Success? ==>
      (&& ParsedMetadata(req.headers, parse).Success?
       && ParsedMetadata(req.headers, parse).value.JObject?
       && var parsed := ParsedMetadata(req.headers, parse).value.fields;
          r.value.metadata.Keys == parsed.Keys + {"epoch"}
          && forall k :: k in parsed && k != "epoch" ==> r.value.metadata[k] == parsed[k])
  {
    match Payload(req)
    case Failure(e) => Failure(e)
    case Success(bytes) =>
      match decode(bytes)
      case Failure(e) => Failure(e)
      case Success(image) =>
        match ParsedMetadata(req.headers, parse)
        case Failure(e) => Failure(e)
        case Success(v) =>
          match Stamp(v, now)
          case Failure(e) => Failure(e)
          case Success(md) => Success(Frame(image, md))
  }

  /** Under the lock: replace the slot and set the event. */
  function Publish<I>(m: Mailbox<I>, f: Frame<I>): (r: Mailbox<I>)
    ensures Valid(r) && r.slot == Some(f)
  {
    Mailbox(Some(f), true)
  }

  /** The `/capture` handler: its reply and the mailbox after it. A frame is
      published exactly when the reply is a success, and an error leaves the
      mailbox as it was. */
  function Capture<I>(m: Mailbox<I>, req: Request, now: real,
                      decode: seq<byte> -> Result<I, string>,
                      parse: string -> Parse): (r: (Reply, Mailbox<I>))
    ensures Valid(m) ==> Valid(r.1)
    ensures r.0.Errored? ==> r.1 == m
    ensures r.0.Errored? ==> Accept(req, now, decode, parse) == Failure(r.0.message)
    ensures r.0.Succeeded? ==> r.1.ready && r.1.slot.Some?
    ensures r.0.Succeeded? <==> Accept(req, now, decode, parse).Success?
    ensures r.0.Succeeded? ==> r.1.slot == Some(Accept(req, now, decode, parse).value)
  {
    match Accept(req, now, decode, parse)
    case Failure(e) => (Errored(e), m)
    case Success(f) => (Succeeded, Publish(m, f))
  }

  /** What `get_next_image` hands back: the reduced image and the metadata. */
  datatype Taken<R> = Taken(image: R, metadata: Metadata)

  /** `get_next_image` once the event is set: empty the slot and clear the
      event under the lock, then reduce the image. The reduction (`np.mean`
      over axis 2) runs after the slot is cleared, so when it raises the frame
      is gone and the caller sees the exception. */
  function Take<I, R>(m: Mailbox<I>, reduce: I -> Result<R, string>): (r: (Result<Taken<R>, string>, Mailbox<I>))
    requires Valid(m) && m.ready
    ensures r.1 == Init()
    ensures r.0.Success? ==> r.0.value.metadata == m.slot.value.metadata
    ensures r.0.Success? <==> reduce(m.slot.value.image).Success?
    ensures r.0.Success? ==> r.0.value.image == reduce(m.slot.value.image).value
    ensures r.0.Failure? ==> r.0 == Failure(reduce(m.slot.value.image).error)
  {
    var f := m.slot.value;
    var cleared := Mailbox(None, false);
    match reduce(f.image)
    case Failure(e) => (Failure(e), cleared)
    case Success(img) => (Success(Taken(img, f.metadata)), cleared)
  }

  /** One thing that can happen to the mailbox: a POST to `/capture` received
      at `now`, or a consumer call of `get_next_image`. A consumer that finds
      the event clear keeps waiting, which leaves the mailbox as it is. */
  datatype Event = Post(req: Request, now: real) | Consume

  function Step<I, R>(m: Mailbox<I>, e: Event, decode: seq<byte> -> Result<I, string>,
                      parse: string -> Parse, reduce: I -> Result<R, string>): Mailbox<I>
  {
    match e
    case Post(req, now) => Capture(m, req, now, decode, parse).1
    case Consume => if Valid(m) && m.ready then Take(m, reduce).1 else m
  }

  function Replay<I, R>(m: Mailbox<I>, events: seq<Event>, decode: seq<byte> -> Result<I, string>,
                        parse: string -> Parse, reduce: I -> Result<R, string>): Mailbox<I>
    decreases |events|
  {
    if |events| == 0 then m
    else Replay(Step(m, events[0], decode, parse, reduce), events[1..], decode, parse, reduce)
  }

  /** "Event set iff a frame is waiting" holds from the start, whatever
      interleaving of captures and takes follows. */
  lemma {:induction false} ReplayKeepsValid<I, R>(m: Mailbox<I>, events: seq<Event>,
      decode: seq<byte> -> Result<I, string>, parse: string -> Parse, reduce: I -> Result<R, string>)
    requires Valid(m)
    ensures Valid(Replay(m, events, decode, parse, reduce))
    decreases |events|
  {
    if |events| > 0 {
      ReplayKeepsValid(Step(m, events[0], decode, parse, reduce), events[1..], decode, parse, reduce);
    }
  }

  /** The frame a POST event would publish, independent of the mailbox. */
  function Accepted<I>(e: Event, decode: seq<byte> -> Result<I, string>, parse: string -> Parse): Option<Frame<I>>
  {
    if e.Post? && Accept(e.req, e.now, decode, parse).Success? then
      Some(Accept(e.req, e.now, decode, parse).value)
    else None
  }

  /** Latest wins: after a run of POSTs with no take in between, the slot
      holds the frame of the last accepted POST, and everything accepted
      before it is dropped. */
  lemma {:induction false} LatestWins<I, R>(m: Mailbox<I>, events: seq<Event>, k: nat,
      decode: seq<byte> -> Result<I, string>, parse: string -> Parse, reduce: I -> Result<R, string>)
    requires forall j :: 0 <= j < |events| ==> events[j].Post?
    requires k < |events| && Accepted(events[k], decode, parse).Some?
    requires forall j :: k < j < |events| ==> Accepted(events[j], decode, parse).None?
    ensures Replay(m, events, decode, parse, reduce).slot == Accepted(events[k], decode, parse)
    ensures Replay(m, events, decode, parse, reduce).ready
    decreases |events|
  {
    var m' := Step(m, events[0], decode, parse, reduce);
    if k == 0 {
      RejectedPostsChangeNothing(m', events[1..], decode, parse, reduce);
    } else {
      LatestWins(m', events[1..], k - 1, decode, parse, reduce);
    }
  }

  /** POSTs that are all rejected leave the mailbox untouched. */
  lemma {:induction false} RejectedPostsChangeNothing<I, R>(m: Mailbox<I>, events: seq<Event>,
      decode: seq<byte> -> Result<I, string>, parse: string -> Parse, reduce: I -> Result<R, string>)
    requires forall j :: 0 <= j < |events| ==> events[j].Post? && Accepted(events[j], decode, parse).None?
    ensures Replay(m, events, decode, parse, reduce) == m
    decreases |events|
  {
    if |events| > 0 {
      RejectedPostsChangeNothing(m, events[1..], decode, parse, reduce);
    }
  }

  /** A take after a successful capture returns exactly that capture's
      metadata, stamped with its receipt time, and leaves the mailbox empty. */
  lemma CaptureThenTake<I, R>(m: Mailbox<I>, req: Request, now: real,
      decode: seq<byte> -> Result<I, string>, parse: string -> Parse, reduce: I -> Result<R, string>)
    requires Valid(m) && Capture(m, req, now, decode, parse).0.Succeeded?
    ensures var m' := Capture(m, req, now, decode, parse).1;
      m'.ready &&
      var (got, after) := Take(m', reduce);
      after == Init() &&
      (got.Success? ==> got.value.metadata == Accept(req, now, decode, parse).value.metadata
                        && got.value.metadata["epoch"] == JFloat(now))
  {
  }

  /** Content-type dispatch ignores letter case: a request behaves as the same
      request with its `content-type` header lowered. */
  lemma ContentTypeCaseInsensitive<I>(req: Request, now: real,
      decode: seq<byte> -> Result<I, string>, parse: string -> Parse)
    requires "content-type" in req.headers
    ensures var lowered := req.(headers := req.headers["content-type" := Lower(req.headers["content-type"])]);
      Accept(lowered, now, decode, parse) == Accept(req, now, decode, parse)
  {
    LowerIdempotent(req.headers["content-type"]);
    var lowered := req.(headers := req.headers["content-type" := Lower(req.headers["content-type"])]);
    assert ContentType(lowered) == ContentType(req);
    assert ParsedMetadata(lowered.headers, parse) == ParsedMetadata(req.headers, parse);
  }

  /** A `text/plain` POST is refused by name and publishes nothing. */
  lemma PlainTextRefused<I>(m: Mailbox<I>, req: Request, now: real,
      decode: seq<byte> -> Result<I, string>, parse: string -> Parse)
    requires Header(req.headers, "content-type", "") == "text/plain"
    ensures Capture(m, req, now, decode, parse) == (Errored("Unsupported content type: text/plain"), m)
  {
    assert IsLower("text/plain");
    assert ContentType(req) == "text/plain";
    assert UnsupportedPrefix + ContentType(req) == "Unsupported content type: text/plain";
    assert !StartsWith("text/plain", MultipartPrefix) by { assert "text/plain"[0] != MultipartPrefix[0]; }
    assert !StartsWith("text/plain", ImagePrefix) by { assert "text/plain"[0] != ImagePrefix[0]; }
  }
}
