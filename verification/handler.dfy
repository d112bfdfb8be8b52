/**
 The decision logic of the PUT handler of main.go. The handler reads the body of
 the inbound request, forwards it to the Weibo picture upload endpoint with its
 CRC-32 in the `cs` query parameter, decodes the picture id from the JSON reply and
 answers with the image URL built from that id.

 Every I/O step is an input outcome here: the reads, the construction of the
 request and the send are recorded in an `Environment`, and the JSON library is a
 `Decoder` from the reply bytes to the decoded picture id.
 */
module Upload {
  import opened Crc32
  import Decimal

  datatype Option<T> = None | Some(value: T)

  /** The configuration file's record; only `cookie` is read by the handler. */
  datatype Config = Config(cookie: string, imagePath: string, referer: string, port: int)

  const StatusOK: int := 200
  const StatusForbidden: int := 403
  const StatusInternalServerError: int := 500

  /** The reply text of every local failure ("internal server error"). */
  const InternalErrorText: string := "服务器内部错误"

  /** The reply text when the upload was refused or not understood ("upload to Weibo failed"). */
  const UploadFailedText: string := "上传微博失败了"

  const UploadMethod: string := "POST"
  const UploadEndpoint: string := "https://picupload.weibo.com/interface/upload.php"
  const UploadContentType: string := "image/gif"
  const EntityName: string := "miniblog"
  const ImageUrlPrefix: string := "https://wx3.sinaimg.cn/large/"

  /** The JSON library: the reply bytes to `None` when they do not decode, otherwise
      to the `pic.pid` field, which is empty when the field is absent. */
  type Decoder = seq<Byte> -> Option<string>

  /** The outcomes of the handler's I/O steps, in the order the handler meets them. */
  datatype Environment = Environment(
    inboundBody: Option<seq<Byte>>,
    requestBuilt: bool,
    sendSucceeded: bool,
    responseBody: Option<seq<Byte>>)

  /** The request handed to the HTTP client. `query` lists the parameters in the order
      the encoded query string carries them. */
  datatype UploadRequest = UploadRequest(
    httpMethod: string,
    endpoint: string,
    query: seq<(string, string)>,
    contentType: string,
    cookie: string,
    body: seq<Byte>)

  /** What the handler answers: status, text, and the request it handed to the
      client, if it got that far. */
  datatype Reply = Reply(status: int, text: string, upload: Option<UploadRequest>)

  /** The first value bound to `key` in `query`. */
  function Param(query: seq<(string, string)>, key: string): (v: Option<string>)
    ensures v.Some? <==> exists i :: 0 <= i < |query| && query[i].0 == key
    ensures v.Some? ==>
      exists i :: 0 <= i < |query| && query[i] == (key, v.value) && forall j :: 0 <= j < i ==> query[j].0 != key
  {
    if |query| == 0 then None
    else if query[0].0 == key then Some(query[0].1)
    else
      var rest := Param(query[1..], key);
      assert forall i :: 1 <= i < |query| ==> query[i] == query[1..][i - 1];
      rest
  }

  /** The outbound request for `body`: the body unchanged, its CRC-32 in decimal as
      `cs`, the fixed `ent`, the GIF content type and the configured cookie. */
  function BuildRequest(config: Config, body: seq<Byte>): (req: UploadRequest)
    ensures req.body == body
    ensures req.httpMethod == UploadMethod && req.endpoint == UploadEndpoint
    ensures Param(req.query, "cs") == Some(Decimal.Show(Checksum(body) as nat))
    ensures Param(req.query, "ent") == Some(EntityName)
    ensures req.contentType == UploadContentType && req.cookie == config.cookie
    ensures forall i :: 0 <= i < |req.query| ==> req.query[i].0 in {"cs", "ent"}
    ensures forall i, j :: 0 <= i < j < |req.query| ==> req.query[i].0 != req.query[j].0
  {
    UploadRequest(
      UploadMethod,
      UploadEndpoint,
      [("cs", Decimal.Show(Checksum(body) as nat)), ("ent", EntityName)],
      UploadContentType,
      config.cookie,
      body)
  }

  /** The URL answered on success. */
  function ImageUrl(pid: string): (url: string)
    ensures |url| == |ImageUrlPrefix| + |pid|
    ensures url[..|ImageUrlPrefix|] == ImageUrlPrefix
    ensures url[|ImageUrlPrefix|..] == pid
  {
    ImageUrlPrefix + pid
  }

  /** The picture id an image URL was built from, if it is one. */
  function PidOf(url: string): (pid: Option<string>)
    ensures pid.Some? <==> |url| >= |ImageUrlPrefix| && url[..|ImageUrlPrefix|] == ImageUrlPrefix
  {
    if |url| >= |ImageUrlPrefix| && url[..|ImageUrlPrefix|] == ImageUrlPrefix
    then Some(url[|ImageUrlPrefix|..])
    else None
  }

  /** A failure the handler answers with 500: the inbound body cannot be read, the
      request cannot be built, the send fails, or the reply cannot be read. */
  predicate LocalFailure(env: Environment)
  {
    env.inboundBody.None? || !env.requestBuilt || !env.sendSucceeded || env.responseBody.None?
  }

  /** The decoded picture id, when the reply was read. */
  function DecodedPid(env: Environment, decode: Decoder): Option<string>
  {
    if env.responseBody.Some? then decode(env.responseBody.value) else None
  }

  /** The handler. Each step runs only if every step before it succeeded. */
  function HandlePut(config: Config, env: Environment, decode: Decoder): (r: Reply)
    ensures r.status in {StatusOK, StatusForbidden, StatusInternalServerError}
    ensures r.status == StatusInternalServerError <==> LocalFailure(env)
    ensures r.status == StatusInternalServerError ==> r.text == InternalErrorText
    ensures r.status == StatusForbidden <==>
      !LocalFailure(env) && (DecodedPid(env, decode).None? || DecodedPid(env, decode) == Some(""))
    ensures r.status == StatusForbidden ==> r.text == UploadFailedText
    ensures r.status == StatusOK <==>
      !LocalFailure(env) && DecodedPid(env, decode).Some? && DecodedPid(env, decode).value != ""
    ensures r.status == StatusOK ==> r.text == ImageUrl(DecodedPid(env, decode).value)
    ensures r.upload.Some? <==> env.inboundBody.Some? && env.requestBuilt
    ensures r.upload.Some? ==> r.upload.value == BuildRequest(config, env.inboundBody.value)
  {
    match env.inboundBody
    case None => Reply(StatusInternalServerError, InternalErrorText, None)
    case Some(body) =>
      if !env.requestBuilt then Reply(StatusInternalServerError, InternalErrorText, None)
      else
        var req := BuildRequest(config, body);
        if !env.sendSucceeded then Reply(StatusInternalServerError, InternalErrorText, Some(req))
        else
          match env.responseBody
          case None => Reply(StatusInternalServerError, InternalErrorText, Some(req))
          case Some(reply) =>
            match decode(reply)
            case None => Reply(StatusForbidden, UploadFailedText, Some(req))
            case Some(pid) =>
              if pid == "" then Reply(StatusForbidden, UploadFailedText, Some(req))
              else Reply(StatusOK, ImageUrl(pid), Some(req))
  }

  /** The handler's steps, in order. */
  datatype Stage = ReadBody | MakeRequest | Send | ReadReply | Decode

  /** The first step that failed, if any; decoding fails when the reply is not JSON of
      the expected shape or carries an empty picture id. */
  function FirstFailure(env: Environment, decode: Decoder): Option<Stage>
  {
    if env.inboundBody.None? then Some(ReadBody)
    else if !env.requestBuilt then Some(MakeRequest)
    else if !env.sendSucceeded then Some(Send)
    else if env.responseBody.None? then Some(ReadReply)
    else
      match decode(env.responseBody.value)
      case None => Some(Decode)
      case Some(pid) => if pid == "" then Some(Decode) else None
  }

  /** The status each failing step is answered with. */
  function StatusFor(failure: Option<Stage>): int
  {
    match failure
    case None => StatusOK
    case Some(Decode) => StatusForbidden
    case Some(_) => StatusInternalServerError
  }

  /** The handler answers with the status of the first step that failed: 500 for the
      four local steps, 403 for decoding, 200 when nothing failed. */
  lemma StatusOfFirstFailure(config: Config, env: Environment, decode: Decoder)
    ensures HandlePut(config, env, decode).status == StatusFor(FirstFailure(env, decode))
    ensures HandlePut(config, env, decode).upload.Some? <==>
      FirstFailure(env, decode) !in {Some(ReadBody), Some(MakeRequest)}
  {
  }

  /** Two environments that agree on every step up to and including `stage`. */
  predicate AgreeThrough(env: Environment, env': Environment, decode: Decoder, decode': Decoder, stage: Stage)
  {
    && env.inboundBody == env'.inboundBody
    && (stage != ReadBody ==> env.requestBuilt == env'.requestBuilt)
    && (stage !in {ReadBody, MakeRequest} ==> env.sendSucceeded == env'.sendSucceeded)
    && (stage == ReadReply || stage == Decode ==> env.responseBody == env'.responseBody)
    && (stage == Decode ==> DecodedPid(env, decode) == DecodedPid(env', decode'))
  }

  /** A failure is final: once a step fails, the outcomes of the steps after it do not
      affect the reply. */
  lemma FailureIsFinal(config: Config, env: Environment, env': Environment, decode: Decoder, decode': Decoder, stage: Stage)
    requires FirstFailure(env, decode) == Some(stage)
    requires AgreeThrough(env, env', decode, decode', stage)
    ensures FirstFailure(env', decode') == Some(stage)
    ensures HandlePut(config, env', decode') == HandlePut(config, env, decode)
  {
  }

  /** Whatever the outcome, the request handed to the client carries the inbound body
      unchanged, and its `cs` parameter reads back as the CRC-32 of exactly those bytes. */
  lemma ChecksumCoversForwardedBytes(config: Config, env: Environment, decode: Decoder)
    requires HandlePut(config, env, decode).upload.Some?
    ensures env.inboundBody.Some?
    ensures HandlePut(config, env, decode).upload.value.body == env.inboundBody.value
    ensures Param(HandlePut(config, env, decode).upload.value.query, "cs").Some?
    ensures Decimal.Value(Param(HandlePut(config, env, decode).upload.value.query, "cs").value)
      == Checksum(env.inboundBody.value) as nat
  {
    Decimal.ValueShow(Checksum(env.inboundBody.value) as nat);
  }

  /** The picture id is recovered from the image URL. */
  lemma PidOfImageUrl(pid: string)
    ensures PidOf(ImageUrl(pid)) == Some(pid)
  {
  }

  /** Every URL that carries the prefix is the image URL of the rest of it. */
  lemma ImageUrlOfPid(url: string)
    requires PidOf(url).Some?
    ensures ImageUrl(PidOf(url).value) == url
  {
    assert url == url[..|ImageUrlPrefix|] + url[|ImageUrlPrefix|..];
  }

  /** Distinct picture ids give distinct success texts. */
  lemma ImageUrlInjective(pid: string, pid': string)
    ensures ImageUrl(pid) == ImageUrl(pid') <==> pid == pid'
  {
    if ImageUrl(pid) == ImageUrl(pid') {
      PidOfImageUrl(pid);
      PidOfImageUrl(pid');
    }
  }

  /** A successful answer names a nonempty picture id through the image URL, so it is
      never the text of a failure. */
  lemma SuccessNamesPid(config: Config, env: Environment, decode: Decoder)
    requires HandlePut(config, env, decode).status == StatusOK
    ensures PidOf(HandlePut(config, env, decode).text) == DecodedPid(env, decode)
    ensures DecodedPid(env, decode).Some? && DecodedPid(env, decode).value != ""
    ensures HandlePut(config, env, decode).text !in {InternalErrorText, UploadFailedText}
  {
    PidOfImageUrl(DecodedPid(env, decode).value);
  }
}
