/**
 * The native side of the binding: what each completion callback delivers to
 * the Java callback object for a request's status code, the loops that copy
 * the native bucket and file arrays into Java arrays, and the order of events
 * in each entry point (environment initialisation, opening the local file,
 * starting the request, delivering the outcome). A Java callback receives one
 * outcome: Success carries what on...Received gets, Failure the onError message.
 * The bridge requests, the event loop, the file system and the auth-file
 * crypto are foreign; their results are parameters.
 */
module Native {
  import opened Wrappers
  import opened JavaLang
  import opened JavaPaths
  import opened NativeText
  import opened Credentials
  import opened Files
  import opened Buckets
  import Session

  const InitEnvError := "Failed to initialize Storj environment"
  const InvalidCredentials := "Invalid user credentials"
  const RequestFailedPrefix := "Request failed with status code: "
  const CantAllocate := "Can't allocate memory"
  const CantRead := "Can't read file"

  /** The options init_env passes to storj_init_env besides the credentials. */
  const NativeUserAgent := "java-libstorj-0.5"
  const NativeProto := "https"
  const NativeHost := "api.storj.io"
  const NativePort := 443

  /** "Request failed with status code: N". */
  function RequestFailed(statusCode: int): string {
    RequestFailedPrefix + Decimal(statusCode)
  }

  // ---------------------------------------------------------------------------
  // Native records and their Java counterparts

  /** storj_bucket_meta_t: the fields the callbacks read; a NULL string is None. */
  datatype BucketMeta = BucketMeta(id: JString, name: JString, created: JString, decrypted: bool)

  /** storj_file_meta_t: the fields list_files_callback reads; a NULL string is None. */
  datatype FileMeta = FileMeta(
    id: JString,
    filename: JString,
    created: JString,
    decrypted: bool,
    size: UInt64,
    mimetype: JString,
    erasure: JString,
    index: JString,
    hmac: JString)

  /** new Bucket(id, name, created, decrypted); NewStringUTF of NULL is null. */
  function ToBucket(m: BucketMeta): Bucket {
    Bucket(m.id, m.name, m.created, m.decrypted)
  }

  /** new File(...) from the meta; a NULL field is passed as null, the size as a jlong. */
  function ToFile(m: FileMeta): File {
    File(m.id, m.filename, m.created, m.decrypted, ToJavaLong(m.size), m.mimetype, m.erasure, m.index, m.hmac)
  }

  /** The Java bucket keeps every field of the native one, so distinct metas give distinct buckets. */
  lemma ToBucketInjective(a: BucketMeta, b: BucketMeta)
    ensures ToBucket(a) == ToBucket(b) ==> a == b
  {
  }

  /** The Java file keeps every field of the native one, the size included. */
  lemma {:induction false} ToFileInjective(a: FileMeta, b: FileMeta)
    ensures ToFile(a) == ToFile(b) ==> a == b
  {
    if ToFile(a) == ToFile(b) {
      assert (a.size - ToJavaLong(a.size)) % TwoTo64 == 0;
      assert (b.size - ToJavaLong(b.size)) % TwoTo64 == 0;
    }
  }

  // ---------------------------------------------------------------------------
  // The array-copy loops

  /**
   * The bucket array of get_buckets_callback: a Java array of total_buckets
   * elements, element i built from native bucket i.
   */
  method BucketArray(buckets: seq<BucketMeta>) returns (out: seq<Bucket>)
    ensures |out| == |buckets|
    ensures forall i :: 0 <= i < |buckets| ==> out[i] == ToBucket(buckets[i])
  {
    var a := new Bucket[|buckets|];
    for i := 0 to |buckets|
      invariant forall j :: 0 <= j < i ==> a[j] == ToBucket(buckets[j])
    {
      a[i] := ToBucket(buckets[i]);
    }
    out := a[..];
  }

  /**
   * The file array of list_files_callback: a Java array of total_files
   * elements, element i built from native file i.
   */
  method FileArray(files: seq<FileMeta>) returns (out: seq<File>)
    ensures |out| == |files|
    ensures forall i :: 0 <= i < |files| ==> out[i] == ToFile(files[i])
  {
    var a := new File[|files|];
    for i := 0 to |files|
      invariant forall j :: 0 <= j < i ==> a[j] == ToFile(files[j])
    {
      a[i] := ToFile(files[i]);
    }
    out := a[..];
  }

  /** Absent native fields stay null in the delivered file, and present ones are copied. */
  lemma FileArrayKeepsNulls(m: FileMeta)
    ensures ToFile(m).id.None? <==> m.id.None?
    ensures ToFile(m).name.None? <==> m.filename.None?
    ensures ToFile(m).mimeType.None? <==> m.mimetype.None?
    ensures ToFile(m).hmac.None? <==> m.hmac.None?
    ensures ToFile(m).created.None? <==> m.created.None?
    ensures ToFile(m).erasure.None? <==> m.erasure.None?
    ensures ToFile(m).index.None? <==> m.index.None?
    ensures ToFile(m).id == m.id && ToFile(m).name == m.filename && ToFile(m).created == m.created
    ensures ToFile(m).mimeType == m.mimetype && ToFile(m).erasure == m.erasure
    ensures ToFile(m).index == m.index && ToFile(m).hmac == m.hmac
    ensures ToFile(m).decrypted == m.decrypted
    ensures m.size < TwoTo63 ==> ToFile(m).size == m.size
  {
  }

  // ---------------------------------------------------------------------------
  // Status classification, one function per callback

  /** get_buckets_callback's error: none for 200 and 304, otherwise a message. */
  function GetBucketsError(statusCode: int): (r: Option<string>)
    ensures r.None? <==> statusCode == 200 || statusCode == 304
    ensures r.Some? && statusCode == 401 ==> r.value == InvalidCredentials
    ensures r.Some? && statusCode != 401 ==> r.value == RequestFailed(statusCode)
  {
    if statusCode == 200 || statusCode == 304 then None
    else if statusCode == 401 then Some(InvalidCredentials)
    else Some(RequestFailed(statusCode))
  }

  /** get_buckets_callback: the error message, or the copied bucket array. */
  method GetBucketsCallback(statusCode: int, buckets: seq<BucketMeta>) returns (r: Result<seq<Bucket>, string>)
    ensures r.Failure? <==> GetBucketsError(statusCode).Some?
    ensures r.Failure? ==> r.error == GetBucketsError(statusCode).value
    ensures r.Success? ==> |r.value| == |buckets|
    ensures r.Success? ==> forall i :: 0 <= i < |buckets| ==> r.value[i] == ToBucket(buckets[i])
  {
    var error := GetBucketsError(statusCode);
    if error.Some? {
      r := Failure(error.value);
    } else {
      var copied := BucketArray(buckets);
      r := Success(copied);
    }
  }

  /** The messages of two failing statuses coincide only when the statuses do. */
  lemma GetBucketsErrorDeterminesStatus(a: int, b: int)
    requires GetBucketsError(a).Some? && GetBucketsError(b).Some?
    ensures GetBucketsError(a) == GetBucketsError(b) ==> a == b
  {
    if GetBucketsError(a) == GetBucketsError(b) {
      if a != 401 && b != 401 {
        DecimalInContext(RequestFailedPrefix, a, b, "");
      }
    }
  }

  /** get_bucket_callback's message for a failing status and the id cut from the path. */
  function GetBucketMessage(statusCode: int, bucketId: string): string {
    if statusCode == 404 then "Bucket id [" + bucketId + "] does not exist"
    else if statusCode == 400 then "Bucket id [" + bucketId + "] is invalid"
    else if statusCode == 401 then InvalidCredentials
    else "Failed to retrieve bucket. (" + Decimal(statusCode) + ")"
  }

  /**
   * get_bucket_callback: a failure for every status but 200, reporting the id
   * that follows the last '/' of the request path; otherwise the bucket.
   */
  function GetBucketCallback(statusCode: int, path: string, bucket: BucketMeta): (r: Result<Bucket, string>)
    requires statusCode == 200 || '/' in path
    ensures r.Success? <==> statusCode == 200
    ensures r.Success? ==> r.value == ToBucket(bucket)
    ensures r.Failure? ==> r.error == GetBucketMessage(statusCode, SuffixAfterLastSlash(path))
  {
    if statusCode != 200 then Failure(GetBucketMessage(statusCode, SuffixAfterLastSlash(path)))
    else Success(ToBucket(bucket))
  }

  /** For the request path "<prefix>/<id>", 404 and 400 name the requested id. */
  lemma GetBucketReportsRequestedId(prefix: string, id: string, bucket: BucketMeta)
    requires '/' !in id
    ensures GetBucketCallback(404, prefix + "/" + id, bucket) == Failure("Bucket id [" + id + "] does not exist")
    ensures GetBucketCallback(400, prefix + "/" + id, bucket) == Failure("Bucket id [" + id + "] is invalid")
  {
    SuffixOfRequestPath(prefix, id);
  }

  /** For one bucket id, 404, 400, 401 and each other status have messages of their own. */
  lemma GetBucketMessageDeterminesStatus(a: int, b: int, bucketId: string)
    ensures GetBucketMessage(a, bucketId) == GetBucketMessage(b, bucketId) ==> a == b
  {
    var ma := GetBucketMessage(a, bucketId);
    var mb := GetBucketMessage(b, bucketId);
    if a != b {
      var known := {404, 400, 401};
      if a !in known && b !in known {
        DecimalInContext("Failed to retrieve bucket. (", a, b, ")");
      } else if a in {404, 400} && b in {404, 400} {
        assert |ma| != |mb|;
      } else {
        assert ma[0] != mb[0];
      }
    }
  }

  /** create_bucket_callback's error: none for 201, otherwise a message naming the bucket for 404. */
  function CreateBucketError(statusCode: int, bucketName: JString): (r: Option<string>)
    ensures r.None? <==> statusCode == 201
    ensures statusCode == 404 ==> r == Some("Cannot create bucket [" + CString(bucketName) + "]. Name already exists.")
    ensures statusCode == 401 ==> r == Some(InvalidCredentials)
    ensures r.Some? && statusCode !in {401, 404} ==> r.value == RequestFailed(statusCode)
  {
    if statusCode == 201 then None
    else if statusCode == 404 then Some("Cannot create bucket [" + CString(bucketName) + "]. Name already exists.")
    else if statusCode == 401 then Some(InvalidCredentials)
    else Some(RequestFailed(statusCode))
  }

  /** create_bucket_callback: the error, or the created bucket. */
  function CreateBucketCallback(statusCode: int, bucket: BucketMeta): (r: Result<Bucket, string>)
    ensures r.Success? <==> statusCode == 201
    ensures r.Success? ==> r.value == ToBucket(bucket)
    ensures r.Failure? ==> Some(r.error) == CreateBucketError(statusCode, bucket.name)
  {
    var error := CreateBucketError(statusCode, bucket.name);
    if error.Some? then Failure(error.value) else Success(ToBucket(bucket))
  }

  /** For one bucket, two failing statuses with the same message are the same status. */
  lemma CreateBucketErrorDeterminesStatus(a: int, b: int, bucketName: JString)
    requires a != 201 && b != 201
    ensures CreateBucketError(a, bucketName) == CreateBucketError(b, bucketName) ==> a == b
  {
    var ma := CreateBucketError(a, bucketName).value;
    var mb := CreateBucketError(b, bucketName).value;
    if a != b {
      if a !in {401, 404} && b !in {401, 404} {
        DecimalInContext(RequestFailedPrefix, a, b, "");
      } else {
        assert ma[0] != mb[0];
      }
    }
  }

  /** list_files_callback's error: none for 200, otherwise a message naming the bucket id for 404 and 400. */
  function ListFilesError(statusCode: int, bucketId: string): (r: Option<string>)
    ensures r.None? <==> statusCode == 200
    ensures statusCode == 404 ==> r == Some("Bucket id [" + bucketId + "] does not exist")
    ensures statusCode == 400 ==> r == Some("Bucket id [" + bucketId + "] is invalid")
    ensures statusCode == 401 ==> r == Some(InvalidCredentials)
    ensures r.Some? && statusCode !in {400, 401, 404} ==> r.value == RequestFailed(statusCode)
  {
    if statusCode == 200 then None
    else if statusCode == 404 then Some("Bucket id [" + bucketId + "] does not exist")
    else if statusCode == 400 then Some("Bucket id [" + bucketId + "] is invalid")
    else if statusCode == 401 then Some(InvalidCredentials)
    else Some(RequestFailed(statusCode))
  }

  /** list_files_callback: the error message, or the copied file array. */
  method ListFilesCallback(statusCode: int, bucketId: string, files: seq<FileMeta>) returns (r: Result<seq<File>, string>)
    ensures r.Failure? <==> statusCode != 200
    ensures r.Failure? ==> Some(r.error) == ListFilesError(statusCode, bucketId)
    ensures r.Success? ==> |r.value| == |files|
    ensures r.Success? ==> forall i :: 0 <= i < |files| ==> r.value[i] == ToFile(files[i])
  {
    var error := ListFilesError(statusCode, bucketId);
    if error.Some? {
      r := Failure(error.value);
    } else {
      var copied := FileArray(files);
      r := Success(copied);
    }
  }

  /** For one bucket id, two failing statuses with the same message are the same status. */
  lemma ListFilesErrorDeterminesStatus(a: int, b: int, bucketId: string)
    requires a != 200 && b != 200
    ensures ListFilesError(a, bucketId) == ListFilesError(b, bucketId) ==> a == b
  {
    var ma := ListFilesError(a, bucketId).value;
    var mb := ListFilesError(b, bucketId).value;
    if a != b {
      var known := {400, 401, 404};
      if a !in known && b !in known {
        DecimalInContext(RequestFailedPrefix, a, b, "");
      } else if a in {404, 400} && b in {404, 400} {
        assert |ma| != |mb|;
      } else {
        assert ma[0] != mb[0];
      }
    }
  }

  /** delete_bucket_callback's error: none for 200 and 204. */
  function DeleteBucketError(statusCode: int): (r: Option<string>)
    ensures r.None? <==> statusCode == 200 || statusCode == 204
    ensures r.Some? && statusCode == 401 ==> r.value == InvalidCredentials
    ensures r.Some? && statusCode != 401 ==> r.value == "Failed to destroy bucket. (" + Decimal(statusCode) + ")"
  {
    if statusCode == 200 || statusCode == 204 then None
    else if statusCode == 401 then Some(InvalidCredentials)
    else Some("Failed to destroy bucket. (" + Decimal(statusCode) + ")")
  }

  /** delete_file_callback's error: none for 200 and 204. */
  function DeleteFileError(statusCode: int): (r: Option<string>)
    ensures r.None? <==> statusCode == 200 || statusCode == 204
    ensures r.Some? && statusCode == 401 ==> r.value == InvalidCredentials
    ensures r.Some? && statusCode != 401 ==> r.value == "Failed to remove file from bucket. (" + Decimal(statusCode) + ")"
  {
    if statusCode == 200 || statusCode == 204 then None
    else if statusCode == 401 then Some(InvalidCredentials)
    else Some("Failed to remove file from bucket. (" + Decimal(statusCode) + ")")
  }

  /** onBucketDeleted or onError: the deletion succeeds exactly for 200 and 204. */
  function DeleteBucketCallback(statusCode: int): (r: Result<(), string>)
    ensures r.Success? <==> statusCode in {200, 204}
    ensures r.Failure? ==> Some(r.error) == DeleteBucketError(statusCode)
  {
    var error := DeleteBucketError(statusCode);
    if error.Some? then Failure(error.value) else Success(())
  }

  /** onFileDeleted or onError: the deletion succeeds exactly for 200 and 204. */
  function DeleteFileCallback(statusCode: int): (r: Result<(), string>)
    ensures r.Success? <==> statusCode in {200, 204}
    ensures r.Failure? ==> Some(r.error) == DeleteFileError(statusCode)
  {
    var error := DeleteFileError(statusCode);
    if error.Some? then Failure(error.value) else Success(())
  }

  /** The two delete callbacks tell every failing status apart by its message. */
  lemma DeleteErrorsDetermineStatus(a: int, b: int)
    requires a !in {200, 204} && b !in {200, 204}
    ensures DeleteBucketError(a) == DeleteBucketError(b) ==> a == b
    ensures DeleteFileError(a) == DeleteFileError(b) ==> a == b
  {
    if a != b && a != 401 && b != 401 {
      DecimalInContext("Failed to destroy bucket. (", a, b, ")");
      DecimalInContext("Failed to remove file from bucket. (", a, b, ")");
    }
  }

  /** The "error" and "email" members of the registration response; None when absent. */
  datatype RegisterResponse = RegisterResponse(error: JString, email: JString)

  /** register_callback: a failure for every status but 201, otherwise the email to confirm. */
  function RegisterCallback(statusCode: int, response: RegisterResponse): (r: Result<JString, string>)
    ensures r.Success? <==> statusCode == 201
    ensures r.Success? ==> r.value == response.email
    ensures r.Failure? ==> r.error == RequestFailed(statusCode) + (". Error: " + CString(response.error))
  {
    if statusCode != 201 then Failure(RequestFailed(statusCode) + (". Error: " + CString(response.error)))
    else Success(response.email)
  }

  /** For one response, the status is recovered from the registration error. */
  lemma RegisterErrorDeterminesStatus(a: int, b: int, response: RegisterResponse)
    requires a != 201 && b != 201
    ensures RegisterCallback(a, response) == RegisterCallback(b, response) ==> a == b
  {
    DecimalInContext(RequestFailedPrefix, a, b, ". Error: " + CString(response.error));
  }

  /** The members of the info response that onInfoReceived gets; None when absent. */
  datatype Info = Info(title: JString, description: JString, version: JString, host: JString)

  /**
   * get_info_callback: a transport error is reported with curl's text for the
   * code, a missing response with a fixed message; otherwise the info.
   */
  function GetInfoCallback(errorCode: int, response: Option<Info>, curlStrerror: int -> string): (r: Result<Info, string>)
    ensures r.Success? <==> errorCode == 0 && response.Some?
    ensures r.Success? ==> r.value == response.value
    ensures errorCode != 0 ==> r == Failure("Request failed, reason: " + curlStrerror(errorCode))
    ensures errorCode == 0 && response.None? ==> r == Failure("Failed to get info.")
  {
    if errorCode != 0 then Failure("Request failed, reason: " + curlStrerror(errorCode))
    else if response.None? then Failure("Failed to get info.")
    else Success(response.value)
  }

  /** download_file_complete_callback: status 0 completes with the local path; any other status fails. */
  function DownloadComplete(status: int, localPath: string, storjStrerror: int -> string): (r: Result<string, string>)
    ensures r.Success? <==> status == 0
    ensures r.Success? ==> r.value == localPath
    ensures r.Failure? ==> r.error == "Download failed. " + storjStrerror(status) + " (" + Decimal(status) + ")"
  {
    if status != 0 then Failure("Download failed. " + storjStrerror(status) + " (" + Decimal(status) + ")")
    else Success(localPath)
  }

  /** upload_file_complete_callback: status 0 completes with the new file's id; any other status fails. */
  function UploadComplete(status: int, fileId: JString, storjStrerror: int -> string): (r: Result<JString, string>)
    ensures r.Success? <==> status == 0
    ensures r.Success? ==> r.value == fileId
    ensures r.Failure? ==> r.error == "Upload failed. " + storjStrerror(status) + " (" + Decimal(status) + ")"
  {
    if status != 0 then Failure("Upload failed. " + storjStrerror(status) + " (" + Decimal(status) + ")")
    else Success(fileId)
  }

  /** For one error text, a failed transfer's status is recovered from the message. */
  lemma CompleteErrorDeterminesStatus(a: int, b: int, text: int -> string, localPath: string, fileId: JString)
    requires a != 0 && b != 0 && text(a) == text(b)
    ensures DownloadComplete(a, localPath, text) == DownloadComplete(b, localPath, text) ==> a == b
    ensures UploadComplete(a, fileId, text) == UploadComplete(b, fileId, text) ==> a == b
  {
    DecimalInContext("Download failed. " + text(a) + " (", a, b, ")");
    DecimalInContext("Upload failed. " + text(a) + " (", a, b, ")");
  }

  // ---------------------------------------------------------------------------
  // Entry points

  /** A request an entry point hands to the bridge. */
  datatype Request =
    | GetBucketsRequest
    | GetBucketRequest(bucketId: string)
    | CreateBucketRequest(bucketName: string)
    | DeleteBucketRequest(bucketId: string)
    | ListFilesRequest(bucketId: string)
    | DeleteFileRequest(bucketId: string, fileId: string)
    | RegisterRequest
    | GetInfoRequest
    | DownloadRequest(bucketId: string, fileId: string)
    | UploadRequest(bucketId: string, fileName: string)

  /** What an entry point does, in order. */
  datatype Event<+T> =
    | InitEnv(credentials: Keys)
    | Unlink(path: string)
    | Open(path: string, mode: string)
    | Issue(request: Request)
    | Deliver(outcome: Result<T, string>)

  /** The callback object hears exactly once, and last. */
  predicate DeliversOnceAtEnd<T>(t: seq<Event<T>>) {
    |t| > 0 && t[|t| - 1].Deliver? && forall i :: 0 <= i < |t| - 1 ==> !t[i].Deliver?
  }

  /** Some request was handed to the bridge. */
  ghost predicate Issued<T>(t: seq<Event<T>>) {
    exists request :: Issue(request) in t
  }

  /** The single outcome an entry point delivers. */
  function Delivered<T>(t: seq<Event<T>>): Result<T, string>
    requires DeliversOnceAtEnd(t)
  {
    t[|t| - 1].outcome
  }

  /**
   * The user, password and mnemonic an entry point initialises the environment
   * with: the delete requests and registration pass no mnemonic, getInfo passes
   * no credentials, every other request passes all three.
   */
  function InitCredentials(request: Request, user: JString, pass: JString, mnemonic: JString): (k: Keys)
    ensures request.GetInfoRequest? ==> k == Keys(None, None, None)
    ensures request.DeleteBucketRequest? || request.DeleteFileRequest? || request.RegisterRequest? ==>
              k == Keys(user, pass, None)
    ensures (!request.GetInfoRequest? && !request.DeleteBucketRequest? && !request.DeleteFileRequest? &&
             !request.RegisterRequest?) ==> k == Keys(user, pass, mnemonic)
  {
    match request
    case GetInfoRequest => Keys(None, None, None)
    case DeleteBucketRequest(_) => Keys(user, pass, None)
    case DeleteFileRequest(_, _) => Keys(user, pass, None)
    case RegisterRequest => Keys(user, pass, None)
    case _ => Keys(user, pass, mnemonic)
  }

  /**
   * A request entry point (every one but download and upload): initialise the
   * environment; if that fails, report INIT_ENV_ERROR and issue nothing,
   * otherwise issue the request and deliver what its callback delivers.
   */
  function RequestEntry<T>(request: Request, user: JString, pass: JString, mnemonic: JString,
                           initOk: Keys -> bool, outcome: Result<T, string>): (t: seq<Event<T>>)
    ensures DeliversOnceAtEnd(t)
    ensures t[0] == InitEnv(InitCredentials(request, user, pass, mnemonic))
    ensures Issued(t) <==> initOk(InitCredentials(request, user, pass, mnemonic))
    ensures Issued(t) ==> Issue(request) in t && Delivered(t) == outcome
    ensures !Issued(t) ==> Delivered(t) == Failure(InitEnvError)
  {
    var k := InitCredentials(request, user, pass, mnemonic);
    if !initOk(k) then [InitEnv(k), Deliver(Failure(InitEnvError))]
    else [InitEnv(k), Issue(request), Deliver(outcome)]
  }

  /** How starting a transfer went: the signal handle could not be allocated, or the bridge's error status. */
  datatype Start = SignalNotAllocated | Started(errorStatus: int)

  /**
   * _downloadFile: initialise; remove an existing file at the path, open it
   * for writing, then start the download; the first step that fails is
   * reported, otherwise the completion callback's outcome is delivered.
   */
  function DownloadEntry(bucketId: string, fileId: string, path: string, user: JString, pass: JString, mnemonic: JString,
                         initOk: Keys -> bool, fileExists: bool, openOk: bool, openError: string,
                         start: Start, complete: Result<string, string>): (t: seq<Event<string>>)
    ensures DeliversOnceAtEnd(t)
    ensures t[0] == InitEnv(Keys(user, pass, mnemonic))
    ensures !initOk(Keys(user, pass, mnemonic)) ==> Delivered(t) == Failure(InitEnvError) && |t| == 2
    ensures Unlink(path) in t <==> initOk(Keys(user, pass, mnemonic)) && fileExists
    ensures initOk(Keys(user, pass, mnemonic)) && fileExists ==> t[1] == Unlink(path) && t[2] == Open(path, "w+")
    ensures initOk(Keys(user, pass, mnemonic)) && !fileExists ==> t[1] == Open(path, "w+")
    ensures initOk(Keys(user, pass, mnemonic)) && !openOk ==>
              !Issued(t) && Delivered(t) == Failure("Unable to open " + path + ": " + openError)
    ensures Issued(t) <==> initOk(Keys(user, pass, mnemonic)) && openOk && start.Started?
    ensures initOk(Keys(user, pass, mnemonic)) && openOk && start != Started(0) ==> Delivered(t) == Failure(CantAllocate)
    ensures initOk(Keys(user, pass, mnemonic)) && openOk && start == Started(0) ==> Delivered(t) == complete
  {
    var k := Keys(user, pass, mnemonic);
    if !initOk(k) then [InitEnv(k), Deliver(Failure(InitEnvError))]
    else
      var request := DownloadRequest(bucketId, fileId);
      var prepare := (if fileExists then [Unlink(path)] else []) + [Open(path, "w+")];
      var rest :=
        if !openOk then [Deliver(Failure("Unable to open " + path + ": " + openError))]
        else if start.SignalNotAllocated? then [Deliver(Failure(CantAllocate))]
        else if start.errorStatus != 0 then [Issue(request), Deliver(Failure(CantAllocate))]
        else [Issue(request), Deliver(complete)];
      [InitEnv(k)] + prepare + rest
  }

  /**
   * _uploadFile: initialise; open the local file for reading, then start the
   * upload; the first step that fails is reported, otherwise the completion
   * callback's outcome is delivered.
   */
  function UploadEntry(bucketId: string, fileName: string, localPath: string, user: JString, pass: JString, mnemonic: JString,
                       initOk: Keys -> bool, openOk: bool, start: Start, complete: Result<JString, string>): (t: seq<Event<JString>>)
    ensures DeliversOnceAtEnd(t)
    ensures t[0] == InitEnv(Keys(user, pass, mnemonic))
    ensures !initOk(Keys(user, pass, mnemonic)) ==> Delivered(t) == Failure(InitEnvError) && |t| == 2
    ensures initOk(Keys(user, pass, mnemonic)) ==> t[1] == Open(localPath, "r")
    ensures initOk(Keys(user, pass, mnemonic)) && !openOk ==> !Issued(t) && Delivered(t) == Failure(CantRead)
    ensures Issued(t) <==> initOk(Keys(user, pass, mnemonic)) && openOk && start.Started?
    ensures initOk(Keys(user, pass, mnemonic)) && openOk && start != Started(0) ==> Delivered(t) == Failure(CantAllocate)
    ensures initOk(Keys(user, pass, mnemonic)) && openOk && start == Started(0) ==> Delivered(t) == complete
  {
    var k := Keys(user, pass, mnemonic);
    if !initOk(k) then [InitEnv(k), Deliver(Failure(InitEnvError))]
    else
      var request := UploadRequest(bucketId, fileName);
      var rest :=
        if !openOk then [Deliver(Failure(CantRead))]
        else if start.SignalNotAllocated? then [Deliver(Failure(CantAllocate))]
        else if start.errorStatus != 0 then [Issue(request), Deliver(Failure(CantAllocate))]
        else [Issue(request), Deliver(complete)];
      [InitEnv(k), Open(localPath, "r")] + rest
  }

  // ---------------------------------------------------------------------------
  // The auth file

  /** What storj_decrypt_read_auth reports: its return code and the strings it read. */
  datatype AuthRead = AuthRead(status: int, user: JString, pass: JString, mnemonic: JString)

  /** _exportKeys: the keys read from the auth file when decryption returns 0, otherwise null. */
  function ExportKeys(decryptReadAuth: (string, string) -> AuthRead, location: string, passphrase: string): (r: Option<Keys>)
    ensures r.Some? <==> decryptReadAuth(location, passphrase).status == 0
    ensures r.Some? ==> r.value == Keys(decryptReadAuth(location, passphrase).user,
                                        decryptReadAuth(location, passphrase).pass,
                                        decryptReadAuth(location, passphrase).mnemonic)
  {
    var read := decryptReadAuth(location, passphrase);
    if read.status == 0 then Some(Keys(read.user, read.pass, read.mnemonic)) else None
  }

  /** _writeAuthFile: true exactly when storj_encrypt_write_auth returns 0. */
  function WriteAuthFile(encryptWriteAuth: (string, string, JString, JString, JString) -> int,
                         location: string, user: JString, pass: JString, mnemonic: JString, passphrase: string): (r: bool)
    ensures r <==> encryptWriteAuth(location, passphrase, user, pass, mnemonic) == 0
  {
    encryptWriteAuth(location, passphrase, user, pass, mnemonic) == 0
  }

  /**
   * With no keys cached, getKeys over the native _exportKeys yields keys
   * exactly when the auth file under the config directory decrypts, and then
   * the keys it holds.
   */
  lemma GetKeysOfNativeExport(configDir: Path, host: string, passphrase: string,
                              decryptReadAuth: (string, string) -> AuthRead)
    ensures var exportKeys := (l: string, p: string) => ExportKeys(decryptReadAuth, l, p);
            var location := ToString(Resolve(configDir, Get(host + ".json")));
            var r := Session.LoadKeys(None, Session.AuthFile(Some(configDir), host), passphrase, exportKeys);
            r.Success? && (r.value.Some? <==> decryptReadAuth(location, passphrase).status == 0)
  {
  }
}
