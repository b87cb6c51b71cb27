/** The Tencent COS upload client: configuration check, remote-key derivation,
    URL construction and the classification of upload failures. The SDK's
    transfer and metadata calls are inputs: the outcome they report. */
module Cos {
  import opened Wrappers
  import opened Text
  import Timestamp

  /** The environment variables the client reads; `None` for an unset one. */
  datatype Environment = Environment(
    secretId: Option<string>,
    secretKey: Option<string>,
    region: Option<string>,
    bucketName: Option<string>)

  /** The configuration a successfully constructed client holds. */
  datatype Settings = Settings(secretId: string, secretKey: string, region: string, bucketName: string)

  const DefaultRegion := "ap-beijing"
  const CredentialsMissing := "SECRET_ID 和 SECRET_KEY 必须在环境变量中设置"
  const BucketMissing := "BUCKET_NAME 必须在环境变量中设置或通过参数传入"

  /** Python truthiness of an optional string: set and non-empty. */
  predicate Truthy(v: Option<string>) {
    v.Some? && v.value != ""
  }

  /** The configuration check of `COSClient.__init__`: the credentials and the
      bucket (the argument first, the environment second) must be non-empty;
      an unset region defaults to `ap-beijing`. */
  function ResolveSettings(env: Environment, bucketArg: Option<string>): (r: Result<Settings, string>)
    ensures r.Success? <==>
      Truthy(env.secretId) && Truthy(env.secretKey) && (Truthy(bucketArg) || Truthy(env.bucketName))
    ensures r.Success? ==>
      && r.value.secretId == env.secretId.value && r.value.secretKey == env.secretKey.value
      && r.value.secretId != "" && r.value.secretKey != "" && r.value.bucketName != ""
      && r.value.region == env.region.GetOr(DefaultRegion)
      && r.value.bucketName == (if Truthy(bucketArg) then bucketArg else env.bucketName).value
    ensures r.Failure? ==>
      r.error == if Truthy(env.secretId) && Truthy(env.secretKey) then BucketMissing else CredentialsMissing
  {
    var region := env.region.GetOr(DefaultRegion);
    var bucket := if Truthy(bucketArg) then bucketArg else env.bucketName;
    if !Truthy(env.secretId) || !Truthy(env.secretKey) then Failure(CredentialsMissing)
    else if !Truthy(bucket) then Failure(BucketMissing)
    else Success(Settings(env.secretId.value, env.secretKey.value, region, bucket.value))
  }

  /** `os.path.basename` on POSIX: the longest suffix without a `/`. */
  function Basename(path: string): (r: string)
    ensures |r| <= |path| && r == path[|path| - |r|..]
    ensures forall i :: 0 <= i < |r| ==> r[i] != '/'
    ensures |r| < |path| ==> path[|path| - |r| - 1] == '/'
  {
    if path == [] || path[|path| - 1] == '/' then []
    else Basename(path[..|path| - 1]) + [path[|path| - 1]]
  }

  /** The key before the timestamp: the caller's key, or the local file's
      base name when that is `None` or empty. */
  function KeyHint(remoteKey: Option<string>, localPath: string): (r: string)
    ensures Truthy(remoteKey) ==> r == remoteKey.value
    ensures !Truthy(remoteKey) ==> '/' !in r && |r| <= |localPath| && r == localPath[|localPath| - |r|..]
  {
    if Truthy(remoteKey) then remoteKey.value else Basename(localPath)
  }

  /** The key the object is stored under: `YYYYMMDD_HHMMSS_` then the hint. */
  function FinalKey(now: Timestamp.DateTime, hint: string): (key: string)
    requires Timestamp.Valid(now)
    ensures |key| == 16 + |hint| && key[15] == '_' && key[16..] == hint
  {
    Timestamp.Format(now) + "_" + hint
  }

  function UrlBase(bucket: string, region: string): string {
    "https://" + bucket + ".cos." + region + ".myqcloud.com/"
  }

  /** `_build_url`: the public URL of a key, computed without a round trip. */
  function ObjectUrl(bucket: string, region: string, key: string): (url: string)
    ensures UrlBase(bucket, region) <= url
    ensures |url| == |UrlBase(bucket, region)| + |key|
  {
    UrlBase(bucket, region) + key
  }

  /** The key a URL of this bucket and region names, if it is one. */
  function KeyOfUrl(bucket: string, region: string, url: string): Option<string> {
    var base := UrlBase(bucket, region);
    if base <= url then Some(url[|base|..]) else None
  }

  /** What the SDK's `upload_file` does: returns a response with or without an
      ETag, or raises one of three kinds of exception. */
  datatype SdkOutcome =
    | Completed(etag: Option<string>)
    | ServiceError(message: string)
    | ClientError(message: string)
    | OtherError(message: string)

  /** What the SDK's `head_object` does. */
  datatype HeadOutcome = Found | HeadServiceError(message: string) | HeadClientError(message: string)

  /** The `upload_params` dictionary handed to the SDK. */
  datatype UploadRequest = UploadRequest(
    bucket: string,
    localFilePath: string,
    key: string,
    partSizeMb: nat,
    maxThread: nat,
    contentType: Option<string>)

  /** The dictionary `upload_file` returns: `success` is `Uploaded?`. */
  datatype UploadResult = Uploaded(url: string, etag: string, key: string) | UploadFailed(error: string)

  /** An upload's result together with the request the SDK received, if any. */
  datatype UploadRun = UploadRun(result: UploadResult, request: Option<UploadRequest>)

  const MissingFilePrefix := "文件不存在: "
  const ServicePrefix := "COS服务错误: "
  const ClientPrefix := "COS客户端错误: "
  const UnknownPrefix := "未知错误: "

  /** Where a failure came from. */
  datatype Origin = MissingFile | Service | Client | Unknown

  /** The message `upload_file` returns for an exception raised by the SDK. */
  function ErrorMessage(sdk: SdkOutcome): (r: string)
    requires !sdk.Completed?
    ensures |r| > |sdk.message| && r[|r| - |sdk.message|..] == sdk.message
    ensures |r| == |PrefixOf(OriginOf(sdk))| + |sdk.message|
    ensures r[..|PrefixOf(OriginOf(sdk))|] == PrefixOf(OriginOf(sdk))
  {
    match sdk
    case ServiceError(m) => ServicePrefix + m
    case ClientError(m) => ClientPrefix + m
    case OtherError(m) => UnknownPrefix + m
  }

  /** The prefix that marks a failure of each origin. */
  function PrefixOf(o: Origin): string {
    match o
    case MissingFile => MissingFilePrefix
    case Service => ServicePrefix
    case Client => ClientPrefix
    case Unknown => UnknownPrefix
  }

  /** Reads the origin back off a failure message. */
  function ErrorOrigin(error: string): (r: Option<Origin>)
    ensures r.Some? ==> PrefixOf(r.value) <= error
  {
    if MissingFilePrefix <= error then Some(MissingFile)
    else if ServicePrefix <= error then Some(Service)
    else if ClientPrefix <= error then Some(Client)
    else if UnknownPrefix <= error then Some(Unknown)
    else None
  }

  /** Splits a failure message into its origin and the text that follows
      the origin's prefix. */
  function ParseError(error: string): Option<(Origin, string)> {
    match ErrorOrigin(error)
    case None => None
    case Some(o) => Some((o, error[|PrefixOf(o)|..]))
  }

  function OriginOf(sdk: SdkOutcome): Origin
    requires !sdk.Completed?
  {
    match sdk
    case ServiceError(_) => Service
    case ClientError(_) => Client
    case OtherError(_) => Unknown
  }

  /** `upload_file` as a function of the client's settings, the local files,
      the clock and the SDK's outcome. */
  function UploadSpec(
    s: Settings, localPath: string, remoteKey: Option<string>, contentType: Option<string>,
    files: set<string>, now: Timestamp.DateTime, sdk: SdkOutcome): (r: UploadRun)
    requires Timestamp.Valid(now)
    ensures r.request.Some? <==> localPath in files
    ensures r.request.Some? ==> r.request.value.localFilePath == localPath && r.request.value.bucket == s.bucketName
    ensures r.result.Uploaded? <==> localPath in files && sdk.Completed?
    ensures r.result.Uploaded? ==> r.result.key == r.request.value.key
  {
    if localPath !in files then UploadRun(UploadFailed(MissingFilePrefix + localPath), None)
    else
      var key := FinalKey(now, KeyHint(remoteKey, localPath));
      var request := UploadRequest(s.bucketName, localPath, key, 10, 10,
                                   if Truthy(contentType) then contentType else None);
      var result := if sdk.Completed? then Uploaded(ObjectUrl(s.bucketName, s.region, key), sdk.etag.GetOr(""), key)
                    else UploadFailed(ErrorMessage(sdk));
      UploadRun(result, Some(request))
  }

  /** The client's configuration is fixed by `__init__` and never reassigned. */
  class CosClient {
    const secretId: string
    const secretKey: string
    const region: string
    const bucketName: string

    function Config(): Settings {
      Settings(secretId, secretKey, region, bucketName)
    }

    constructor FromSettings(s: Settings)
      ensures Config() == s
    {
      secretId, secretKey := s.secretId, s.secretKey;
      region, bucketName := s.region, s.bucketName;
    }

    /** `COSClient(bucket_name)`: raises when the configuration is incomplete,
        or when the SDK's `CosConfig`/`CosS3Client` construction raises, whose
        message is `sdkInitError`. */
    static method Create(env: Environment, bucketArg: Option<string>, sdkInitError: Option<string>)
      returns (r: Result<CosClient, string>)
      ensures r.Failure? <==> ResolveSettings(env, bucketArg).Failure? || sdkInitError.Some?
      ensures r.Failure? ==>
        r.error == (if ResolveSettings(env, bucketArg).Failure? then ResolveSettings(env, bucketArg).error
                    else sdkInitError.value)
      ensures r.Success? ==> fresh(r.value)
      ensures r.Success? ==> r.value.Config() == ResolveSettings(env, bucketArg).value
    {
      var settings := ResolveSettings(env, bucketArg);
      if settings.Failure? {
        r := Failure(settings.error);
      } else if sdkInitError.Some? {
        r := Failure(sdkInitError.value);
      } else {
        var c := new CosClient.FromSettings(settings.value);
        r := Success(c);
      }
    }

    /** `upload_file`: never raises; every failure becomes `UploadFailed`.
        The steps of `UploadSpec`, in the source's order and with its
        reassignments; the lemmas about uploads are stated on `UploadSpec`. */
    method UploadFile(
      localPath: string, remoteKey: Option<string>, contentType: Option<string>,
      files: set<string>, now: Timestamp.DateTime, sdk: SdkOutcome)
      returns (r: UploadResult, request: Option<UploadRequest>)
      requires Timestamp.Valid(now)
      ensures UploadRun(r, request) == UploadSpec(Config(), localPath, remoteKey, contentType, files, now, sdk)
    {
      if localPath !in files {
        return UploadFailed(MissingFilePrefix + localPath), None;
      }
      var key := remoteKey.GetOr("");
      if key == "" {
        key := Basename(localPath);
      }
      assert key == KeyHint(remoteKey, localPath);
      var timestamp := Timestamp.Format(now);
      key := timestamp + "_" + key;
      var params := UploadRequest(bucketName, localPath, key, 10, 10, None);
      if contentType.Some? && contentType.value != "" {
        params := params.(contentType := contentType);
      }
      ghost var run := UploadSpec(Config(), localPath, remoteKey, contentType, files, now, sdk);
      assert run.request == Some(params);
      request := Some(params);
      match sdk
      case Completed(etag) =>
        var url := ObjectUrl(bucketName, region, key);
        r := Uploaded(url, etag.GetOr(""), key);
      case ServiceError(m) =>
        r := UploadFailed(ServicePrefix + m);
      case ClientError(m) =>
        r := UploadFailed(ClientPrefix + m);
      case OtherError(m) =>
        r := UploadFailed(UnknownPrefix + m);
    }

    /** `get_file_url`: the same URL `_build_url` gives for the key. */
    method GetFileUrl(key: string) returns (url: string)
      ensures url == ObjectUrl(bucketName, region, key)
      ensures KeyOfUrl(bucketName, region, url) == Some(key)
    {
      url := ObjectUrl(bucketName, region, key);
      UrlKeyRoundTrip(bucketName, region, key);
    }

    /** `check_file_exists`: true on a metadata hit, false on a service error;
        a client error is not caught and propagates as `Failure`. */
    method CheckFileExists(key: string, head: HeadOutcome) returns (r: Result<bool, string>)
      ensures r == Success(true) <==> head.Found?
      ensures r == Success(false) <==> head.HeadServiceError?
      ensures r.Failure? <==> head.HeadClientError?
      ensures r.Failure? ==> r.error == head.message
    {
      match head
      case Found =>
        r := Success(true);
      case HeadServiceError(_) =>
        r := Success(false);
      case HeadClientError(m) =>
        r := Failure(m);
    }
  }

  // Properties of the key, the URL and the result classification.

  /** The URL names exactly the key it was built from. */
  lemma UrlKeyRoundTrip(bucket: string, region: string, key: string)
    ensures KeyOfUrl(bucket, region, ObjectUrl(bucket, region, key)) == Some(key)
  {
    var base := UrlBase(bucket, region);
    assert (base + key)[|base|..] == key;
  }

  /** Every URL of the bucket and region is the URL of the key read off it. */
  lemma KeyOfUrlSound(bucket: string, region: string, url: string, key: string)
    requires KeyOfUrl(bucket, region, url) == Some(key)
    ensures ObjectUrl(bucket, region, key) == url
  {
    var base := UrlBase(bucket, region);
    assert url == url[..|base|] + url[|base|..];
  }

  /** The stored key is the timestamp token, `_`, then the hint; both parts can
      be read back. */
  lemma FinalKeyShape(now: Timestamp.DateTime, hint: string)
    requires Timestamp.Valid(now)
    ensures var key := FinalKey(now, hint);
      && |key| == 16 + |hint|
      && Timestamp.Parse(key[..15]) == Some(now)
      && key[15] == '_'
      && key[16..] == hint
  {
    var key := FinalKey(now, hint);
    assert key[..15] == Timestamp.Format(now);
    assert key[16..] == hint;
    Timestamp.ParseFormat(now);
  }

  /** Two uploads get the same key only at the same second with the same hint. */
  lemma FinalKeyInjective(t: Timestamp.DateTime, h: string, u: Timestamp.DateTime, g: string)
    requires Timestamp.Valid(t) && Timestamp.Valid(u)
    requires FinalKey(t, h) == FinalKey(u, g)
    ensures t == u && h == g
  {
    FinalKeyShape(t, h);
    FinalKeyShape(u, g);
  }

  /** The key starts with a digit of the year, so no stored key lies under a
      folder whose name starts with a letter. */
  lemma FinalKeyStartsWithDigit(now: Timestamp.DateTime, hint: string)
    requires Timestamp.Valid(now)
    ensures IsDigit(FinalKey(now, hint)[0])
  {
    var f := Timestamp.Format(now);
    assert f[..8][0] == f[0];
  }

  /** Every failure message names its origin, and the three SDK origins are
      told apart. */
  lemma ErrorMessageOrigin(sdk: SdkOutcome)
    requires !sdk.Completed?
    ensures ErrorOrigin(ErrorMessage(sdk)) == Some(OriginOf(sdk))
  {
    var m := ErrorMessage(sdk);
    match sdk
    case ServiceError(x) =>
      assert m[..|ServicePrefix|] == ServicePrefix;
      assert !(MissingFilePrefix <= m) by { assert m[0] != MissingFilePrefix[0]; }
    case ClientError(x) =>
      assert m[..|ClientPrefix|] == ClientPrefix;
      assert !(MissingFilePrefix <= m) by { assert m[0] != MissingFilePrefix[0]; }
      assert !(ServicePrefix <= m) by { assert m[3] != ServicePrefix[3]; }
    case OtherError(x) =>
      assert m[..|UnknownPrefix|] == UnknownPrefix;
      assert !(MissingFilePrefix <= m) by { assert m[0] != MissingFilePrefix[0]; }
      assert !(ServicePrefix <= m) by { assert m[0] != ServicePrefix[0]; }
      assert !(ClientPrefix <= m) by { assert m[0] != ClientPrefix[0]; }
  }

  /** The message of an SDK exception is its origin's prefix followed by
      exactly the exception's own text. */
  lemma ErrorMessageReadsBack(sdk: SdkOutcome)
    requires !sdk.Completed?
    ensures ParseError(ErrorMessage(sdk)) == Some((OriginOf(sdk), sdk.message))
  {
    ErrorMessageOrigin(sdk);
    assert ErrorMessage(sdk)[|PrefixOf(OriginOf(sdk))|..] == sdk.message;
  }

  /** `upload_file` succeeds exactly when the local file exists and the SDK
      completes; the URL and the returned key then name the same object, and
      the key begins with the upload's timestamp. */
  lemma UploadSucceedsIff(
    s: Settings, localPath: string, remoteKey: Option<string>, contentType: Option<string>,
    files: set<string>, now: Timestamp.DateTime, sdk: SdkOutcome)
    requires Timestamp.Valid(now)
    ensures var run := UploadSpec(s, localPath, remoteKey, contentType, files, now, sdk);
      && (run.result.Uploaded? <==> localPath in files && sdk.Completed?)
      && (run.result.Uploaded? ==>
            && run.result.key == FinalKey(now, KeyHint(remoteKey, localPath))
            && KeyOfUrl(s.bucketName, s.region, run.result.url) == Some(run.result.key)
            && Timestamp.Parse(run.result.key[..15]) == Some(now)
            && run.result.etag == sdk.etag.GetOr(""))
  {
    var key := FinalKey(now, KeyHint(remoteKey, localPath));
    UrlKeyRoundTrip(s.bucketName, s.region, key);
    FinalKeyShape(now, KeyHint(remoteKey, localPath));
  }

  /** A failed upload names its origin: a missing local file (and then the SDK
      is not called) or the kind of exception the SDK raised. */
  lemma UploadFailureClassified(
    s: Settings, localPath: string, remoteKey: Option<string>, contentType: Option<string>,
    files: set<string>, now: Timestamp.DateTime, sdk: SdkOutcome)
    requires Timestamp.Valid(now)
    ensures var run := UploadSpec(s, localPath, remoteKey, contentType, files, now, sdk);
      && (localPath !in files ==>
            run.request.None? && ErrorOrigin(run.result.error) == Some(MissingFile)
            && run.result.error == MissingFilePrefix + localPath
            && ParseError(run.result.error) == Some((MissingFile, localPath)))
      && (localPath in files && !sdk.Completed? ==>
            && run.request.Some? && ErrorOrigin(run.result.error) == Some(OriginOf(sdk))
            && run.result.error == ErrorMessage(sdk)
            && ParseError(run.result.error) == Some((OriginOf(sdk), sdk.message)))
  {
    if localPath !in files {
      var m := MissingFilePrefix + localPath;
      assert m[..|MissingFilePrefix|] == MissingFilePrefix;
      assert m[|MissingFilePrefix|..] == localPath;
    } else if !sdk.Completed? {
      ErrorMessageReadsBack(sdk);
    }
  }

  /** The request the SDK receives: the client's bucket, the derived key, the
      fixed transfer tunables, and a content type only when one was given. */
  lemma UploadRequestShape(
    s: Settings, localPath: string, remoteKey: Option<string>, contentType: Option<string>,
    files: set<string>, now: Timestamp.DateTime, sdk: SdkOutcome)
    requires Timestamp.Valid(now)
    requires localPath in files
    ensures var run := UploadSpec(s, localPath, remoteKey, contentType, files, now, sdk);
      && run.request.Some?
      && run.request.value.bucket == s.bucketName
      && run.request.value.localFilePath == localPath
      && run.request.value.key == FinalKey(now, KeyHint(remoteKey, localPath))
      && run.request.value.key[16..] == (if Truthy(remoteKey) then remoteKey.value else Basename(localPath))
      && run.request.value.partSizeMb == 10 && run.request.value.maxThread == 10
      && (run.request.value.contentType.Some? <==> Truthy(contentType))
      && (Truthy(contentType) ==> run.request.value.contentType == contentType)
      && (run.result.Uploaded? ==> run.result.key == run.request.value.key)
  {
    FinalKeyShape(now, KeyHint(remoteKey, localPath));
  }
}
