/**
 * The Storj client object: the bridge endpoint, the keys cached from the
 * encrypted auth file, the process-wide singleton and directories, the checks
 * that guard every authenticated request, and the Environment each native
 * request is built with. The native requests themselves, the auth-file crypto
 * and the file system are parameters.
 */
module Session {
  import opened Wrappers
  import opened JavaLang
  import opened JavaPaths
  import opened Credentials
  import opened Files
  import opened Buckets

  /** What a Java method of the client object throws. */
  datatype Failure =
    | IllegalState(message: string)
    | KeysNotFound
    | NullPointer

  const DefaultProto := "https"
  const DefaultHost := "api.storj.io"
  const DefaultPort := 443

  const AppDirNotSet := "appDir is not set"
  const DownloadDirNotSet := "Download directory is not set"

  /** USER_AGENT: "java-libstorj", followed by "-" and the version when the version resource has one. */
  function UserAgent(version: JString): (r: string)
    ensures |r| >= 13 && r[..13] == "java-libstorj"
    ensures version.None? <==> |r| == 13
    ensures version.Some? ==> r[13] == '-' && r[14..] == version.value
  {
    if version.None? then "java-libstorj" else "java-libstorj-" + version.value
  }

  /** The user agent gives the version back, so different versions give different user agents. */
  lemma UserAgentInjective(v1: JString, v2: JString)
    ensures UserAgent(v1) == UserAgent(v2) ==> v1 == v2
  {
    if UserAgent(v1) == UserAgent(v2) && v1.Some? && v2.Some? {
      assert v1.value == UserAgent(v1)[14..];
    }
  }

  /**
   * The Environment handed to a native request: the endpoint and credentials
   * plus the user agent and CA-info path; the proxy URL stays null and the
   * numeric options keep Java's default 0.
   */
  datatype Environment = Environment(
    proto: string,
    host: string,
    port: int,
    user: JString,
    pass: JString,
    mnemonic: JString,
    userAgent: string,
    proxyUrl: JString,
    caInfoPath: JString,
    lowSpeedLimit: int,
    lowSpeedTime: int,
    timeout: int,
    logLevel: int)

  /**
   * Environment(keys): copies the endpoint; the credentials are those of keys,
   * or all null when keys is null.
   */
  function MakeEnvironment(proto: string, host: string, port: int, keys: Option<Keys>, userAgent: string, caInfoPath: JString): (e: Environment)
    ensures e.proto == proto && e.host == host && e.port == port
    ensures keys.Some? ==> e.user == keys.value.user && e.pass == keys.value.pass && e.mnemonic == keys.value.mnemonic
    ensures keys.None? ==> e.user == None && e.pass == None && e.mnemonic == None
    ensures e.userAgent == userAgent && e.proxyUrl == None && e.caInfoPath == caInfoPath
    ensures e.lowSpeedLimit == 0 && e.lowSpeedTime == 0 && e.timeout == 0 && e.logLevel == 0
  {
    var user := if keys.Some? then keys.value.user else None;
    var pass := if keys.Some? then keys.value.pass else None;
    var mnemonic := if keys.Some? then keys.value.mnemonic else None;
    Environment(proto, host, port, user, pass, mnemonic, userAgent, None, caInfoPath, 0, 0, 0, 0)
  }

  /**
   * getAuthFile(): the file <host>.json in the config directory, or
   * IllegalStateException when no config directory is set.
   */
  function AuthFile(configDir: Option<Path>, host: string): (r: Result<Path, Failure>)
    ensures configDir.None? <==> r.Failure?
    ensures r.Failure? ==> r.error == IllegalState(AppDirNotSet)
  {
    if configDir.None? then Failure(IllegalState(AppDirNotSet))
    else Success(Resolve(configDir.value, Get(host + ".json")))
  }

  /**
   * For a host name without '/', the auth file lies directly in the config
   * directory, is named <host>.json, and its printed location parses back to it.
   */
  lemma AuthFileInConfigDir(configDir: Path, host: string)
    requires configDir != EmptyPath && ValidNames(configDir.names) && (configDir.names != [] || configDir.absolute)
    requires '/' !in host
    ensures var p := AuthFile(Some(configDir), host).value;
            p == Path(configDir.absolute, configDir.names + [host + ".json"]) &&
            FileName(p) == Some(host + ".json") &&
            Get(ToString(p)) == p
  {
    var name := host + ".json";
    assert name[|name| - 1] == 'n';
    assert ValidName(name);
    SegmentsOfName(name);
    assert name[0] != '/' by {
      if |host| > 0 { assert name[0] == host[0]; }
    }
    assert Get(name) == Path(false, [name]);
    var p := Path(configDir.absolute, configDir.names + [name]);
    assert ValidNames(p.names);
    GetToString(p);
  }

  /**
   * getKeys(passphrase) as a function of the cached keys: the cached keys when
   * there are some, whatever the passphrase; otherwise what decrypting the auth
   * file yields, or the exception getAuthFile throws.
   */
  function LoadKeys(cached: Option<Keys>, authFile: Result<Path, Failure>, passphrase: string,
                    exportKeys: (string, string) -> Option<Keys>): (r: Result<Option<Keys>, Failure>)
    ensures cached.Some? ==> r == Success(cached)
    ensures cached.None? && authFile.Failure? ==> r == Failure(authFile.error)
    ensures cached.None? && authFile.Success? ==> r == Success(exportKeys(ToString(authFile.value), passphrase))
  {
    if cached.Some? then Success(cached)
    else if authFile.Failure? then Failure(authFile.error)
    else Success(exportKeys(ToString(authFile.value), passphrase))
  }

  /**
   * Once getKeys has produced keys they are cached: a later getKeys returns the
   * same keys whatever its passphrase, whatever the auth file now holds and
   * even when the config directory is gone.
   */
  lemma LoadKeysStable(cached: Option<Keys>, authFile: Result<Path, Failure>, passphrase: string, exportKeys: (string, string) -> Option<Keys>,
                        authFile': Result<Path, Failure>, passphrase': string, exportKeys': (string, string) -> Option<Keys>)
    requires LoadKeys(cached, authFile, passphrase, exportKeys).Success?
    requires LoadKeys(cached, authFile, passphrase, exportKeys).value.Some?
    ensures var k := LoadKeys(cached, authFile, passphrase, exportKeys).value;
            LoadKeys(k, authFile', passphrase', exportKeys') == Success(k)
  {
  }

  /** The outcome of checkKeys(): nothing, the exception of getKeys(""), or KeysNotFoundException. */
  function CheckKeysOutcome(loaded: Result<Option<Keys>, Failure>): (r: Option<Failure>)
    ensures r.None? <==> loaded.Success? && loaded.value.Some?
    ensures loaded.Success? && loaded.value.None? ==> r == Some(KeysNotFound)
  {
    if loaded.Failure? then Some(loaded.error)
    else if loaded.value.None? then Some(KeysNotFound)
    else None
  }

  /** A java.net.URL as setBridgeEndpoint(URL) reads it; port is -1 when the URL names none. */
  datatype Url = Url(protocol: string, host: string, port: int)

  /** The native request a Java method issues, with its arguments. */
  datatype Call =
    | GetInfoCall(env: Environment)
    | RegisterCall(env: Environment)
    | GetBucketsCall(env: Environment)
    | GetBucketCall(env: Environment, bucketId: JString)
    | CreateBucketCall(env: Environment, bucketName: JString)
    | DeleteBucketCall(env: Environment, bucketId: JString)
    | ListFilesCall(env: Environment, bucketId: JString)
    | DeleteFileCall(env: Environment, bucketId: JString, fileId: JString)
    | DownloadFileCall(env: Environment, bucketId: JString, file: File, path: string)
    | UploadFileCall(env: Environment, bucketId: JString, fileName: string, localPath: string)

  /** The authenticated operations, with their Java arguments. */
  datatype Op =
    | GetBuckets
    | GetBucket(bucketId: JString)
    | CreateBucket(bucketName: JString)
    | DeleteBucket(bucket: Bucket)
    | ListFiles(bucket: Bucket)
    | DeleteFile(bucket: Bucket, file: File)
    | DownloadFile(bucket: Bucket, file: File)
    | UploadFile(bucket: Bucket, fileName: string, localPath: Path)
    | UploadFileAt(bucket: Bucket, localPath: Path)

  /** Path.toAbsolutePath(), against the working directory. */
  function AbsolutePath(p: Path, cwd: Path): (r: Path)
    requires cwd.absolute
    ensures r.absolute
    ensures p.absolute ==> r == p
  {
    if p.absolute then p else Resolve(cwd, p)
  }

  /**
   * What an operation throws before its keys are checked: downloadFile checks
   * the download directory, and uploadFile(bucket, localPath) takes the file
   * name of a path, which is null for the root.
   */
  function PreCheck(op: Op, downloadDir: Option<Path>): (r: Option<Failure>)
    ensures r.Some? <==> (op.DownloadFile? && downloadDir.None?) || (op.UploadFileAt? && op.localPath.names == [])
  {
    match op
    case DownloadFile(_, _) => if downloadDir.None? then Some(IllegalState(DownloadDirNotSet)) else None
    case UploadFileAt(_, localPath) => if FileName(localPath).None? then Some(NullPointer) else None
    case _ => None
  }

  /**
   * The native request an operation issues once its checks have passed, built
   * with env. downloadFile targets downloadDir/<file name> and throws
   * NullPointerException for a file without a name.
   */
  function CallFor(op: Op, env: Environment, downloadDir: Option<Path>, cwd: Path): (r: Result<Call, Failure>)
    requires PreCheck(op, downloadDir).None?
    requires cwd.absolute
    ensures r.Success? ==> r.value.env == env
    ensures r.Failure? <==> op.DownloadFile? && op.file.name.None?
  {
    match op
    case GetBuckets => Success(GetBucketsCall(env))
    case GetBucket(bucketId) => Success(GetBucketCall(env, bucketId))
    case CreateBucket(bucketName) => Success(CreateBucketCall(env, bucketName))
    case DeleteBucket(bucket) => Success(DeleteBucketCall(env, bucket.id))
    case ListFiles(bucket) => Success(ListFilesCall(env, bucket.id))
    case DeleteFile(bucket, file) => Success(DeleteFileCall(env, bucket.id, file.id))
    case DownloadFile(bucket, file) =>
      if file.name.None? then Failure(NullPointer)
      else Success(DownloadFileCall(env, bucket.id, file, ToString(Resolve(downloadDir.value, Get(file.name.value)))))
    case UploadFile(bucket, fileName, localPath) =>
      Success(UploadFileCall(env, bucket.id, fileName, ToString(AbsolutePath(localPath, cwd))))
    case UploadFileAt(bucket, localPath) =>
      Success(UploadFileCall(env, bucket.id, FileName(localPath).value, ToString(AbsolutePath(localPath, cwd))))
  }

  /**
   * downloadFile writes to a file named after the stored file, directly in the
   * download directory.
   */
  lemma DownloadPathInDir(env: Environment, bucket: Bucket, file: File, downloadDir: Path, cwd: Path)
    requires cwd.absolute
    requires downloadDir != EmptyPath && ValidNames(downloadDir.names) && (downloadDir.names != [] || downloadDir.absolute)
    requires file.name.Some? && ValidName(file.name.value)
    ensures var r := CallFor(DownloadFile(bucket, file), env, Some(downloadDir), cwd);
            r.Success? && r.value.DownloadFileCall? &&
            Get(r.value.path) == Path(downloadDir.absolute, downloadDir.names + [file.name.value]) &&
            FileName(Get(r.value.path)) == file.name
  {
    var name := file.name.value;
    SegmentsOfName(name);
    var p := Path(downloadDir.absolute, downloadDir.names + [name]);
    assert ValidNames(p.names);
    GetToString(p);
  }

  /** A name that does not start with '/' has at least one name element and is relative. */
  lemma RelativeNameSegments(name: string)
    requires name != "" && name[0] != '/'
    ensures !Get(name).absolute && Get(name).names != [] && Get(name) != EmptyPath
  {
    var k := SlashIndex(name);
    assert k != 0;
    assert Segments(name)[0] == name[..k];
    assert ValidName(Get(name).names[0]);
  }

  /**
   * downloadFile resolves the file name against the download directory: a
   * name that does not start with '/' lands below the directory, with every
   * name element of its own ("a/b" becomes downloadDir/a/b).
   */
  lemma DownloadPathKeepsSubdirs(env: Environment, bucket: Bucket, file: File, downloadDir: Path, cwd: Path)
    requires cwd.absolute
    requires downloadDir != EmptyPath && ValidNames(downloadDir.names) && (downloadDir.names != [] || downloadDir.absolute)
    requires file.name.Some? && file.name.value != "" && file.name.value[0] != '/'
    ensures var r := CallFor(DownloadFile(bucket, file), env, Some(downloadDir), cwd);
            r.Success? && r.value.DownloadFileCall? &&
            Get(r.value.path) == Path(downloadDir.absolute, downloadDir.names + Get(file.name.value).names) &&
            StartsWith(Get(r.value.path), downloadDir)
  {
    var name := file.name.value;
    RelativeNameSegments(name);
    var p := Path(downloadDir.absolute, downloadDir.names + Get(name).names);
    assert Resolve(downloadDir, Get(name)) == p;
    assert ValidNames(p.names);
    GetToString(p);
    assert p.names[..|downloadDir.names|] == downloadDir.names;
  }

  /**
   * A stored file name that starts with '/' is an absolute path, and
   * Path.resolve returns it unchanged: the download leaves the download
   * directory ("/x" is written to /x).
   */
  lemma DownloadPathAbsoluteName(env: Environment, bucket: Bucket, file: File, downloadDir: Path, cwd: Path)
    requires cwd.absolute
    requires file.name.Some? && file.name.value != "" && file.name.value[0] == '/'
    ensures var r := CallFor(DownloadFile(bucket, file), env, Some(downloadDir), cwd);
            r.Success? && r.value.DownloadFileCall? &&
            Get(r.value.path) == Get(file.name.value) && Get(r.value.path).absolute
  {
    var q := Get(file.name.value);
    GetToString(q);
  }

  /** The client object: the bridge endpoint and the cached keys. */
  class Storj {
    var proto: string
    var host: string
    var port: int
    var keys: Option<Keys>

    /** A client as the private constructor leaves it. */
    predicate IsDefault()
      reads this
    {
      proto == DefaultProto && host == DefaultHost && port == DefaultPort && keys.None?
    }

    constructor()
      ensures IsDefault()
    {
      proto := DefaultProto;
      host := DefaultHost;
      port := DefaultPort;
      keys := None;
    }

    /** setBridgeEndpoint(proto, host, port): replaces the endpoint; the keys stay. */
    method SetBridgeEndpoint(proto': string, host': string, port': int)
      requires IsInt32(port')
      modifies this`proto, this`host, this`port
      ensures proto == proto' && host == host' && port == port'
    {
      proto := proto';
      host := host';
      port := port';
    }

    /** setBridgeEndpoint(URL): the URL's protocol, host and port (-1 when it has none). */
    method SetBridgeEndpointUrl(url: Url)
      requires IsInt32(url.port)
      modifies this`proto, this`host, this`port
      ensures proto == url.protocol && host == url.host && port == url.port
    {
      SetBridgeEndpoint(url.protocol, url.host, url.port);
    }

    /** Environment(keys), with this client's endpoint. */
    function Env(k: Option<Keys>, userAgent: string, caInfoPath: JString): (e: Environment)
      reads this
      ensures e.proto == proto && e.host == host && e.port == port
    {
      MakeEnvironment(proto, host, port, k, userAgent, caInfoPath)
    }

    /** getInfo: unauthenticated; the environment carries whatever keys are cached. */
    function GetInfo(userAgent: string, caInfoPath: JString): (c: Call)
      reads this
      ensures c.GetInfoCall? && c.env.proto == proto && c.env.host == host && c.env.port == port
      ensures keys.None? ==> c.env.user == None && c.env.pass == None && c.env.mnemonic == None
      ensures c == GetInfoCall(MakeEnvironment(proto, host, port, keys, userAgent, caInfoPath))
    {
      GetInfoCall(Env(keys, userAgent, caInfoPath))
    }

    /** register(user, pass): unauthenticated; the environment carries the given credentials and no mnemonic. */
    function Register(user: JString, pass: JString, userAgent: string, caInfoPath: JString): (c: Call)
      reads this
      ensures c.RegisterCall? && c.env.user == user && c.env.pass == pass && c.env.mnemonic == None
      ensures c.env.proto == proto && c.env.host == host && c.env.port == port
    {
      RegisterCall(Env(Some(Keys(user, pass, None)), userAgent, caInfoPath))
    }

    /** keysExist(): whether the auth file exists; IllegalStateException without a config directory. */
    function KeysExist(configDir: Option<Path>, fileExists: Path -> bool): (r: Result<bool, Failure>)
      reads this
      ensures r.Failure? <==> configDir.None?
      ensures r.Success? ==> r.value == fileExists(Resolve(configDir.value, Get(host + ".json")))
    {
      var f := AuthFile(configDir, host);
      if f.Failure? then Failure(f.error) else Success(fileExists(f.value))
    }

    /**
     * verifyKeys(user, pass): true exactly when listing the buckets with those
     * credentials (and no mnemonic) succeeds and the wait is not interrupted.
     */
    function VerifyKeys(user: JString, pass: JString, userAgent: string, caInfoPath: JString,
                        bucketsReceived: Environment -> bool, interrupted: bool): (r: bool)
      reads this
      ensures r <==> !interrupted && bucketsReceived(Env(Some(Keys(user, pass, None)), userAgent, caInfoPath))
      ensures r ==> bucketsReceived(MakeEnvironment(proto, host, port, Some(Keys(user, pass, None)), userAgent, caInfoPath))
    {
      var result := bucketsReceived(Env(Some(Keys(user, pass, None)), userAgent, caInfoPath));
      if interrupted then false else result
    }

    /**
     * getKeys(passphrase): while keys are cached they are returned and the auth
     * file is not read; otherwise the decrypted auth file is cached and returned
     * (null when it cannot be read).
     */
    method GetKeys(configDir: Option<Path>, passphrase: string, exportKeys: (string, string) -> Option<Keys>)
      returns (r: Result<Option<Keys>, Failure>)
      modifies this`keys
      ensures r == LoadKeys(old(keys), AuthFile(configDir, host), passphrase, exportKeys)
      ensures keys == if r.Success? then r.value else old(keys)
      ensures old(keys).Some? ==> keys == old(keys)
    {
      if keys.None? {
        var authFile := AuthFile(configDir, host);
        if authFile.Failure? {
          return Failure(authFile.error);
        }
        keys := exportKeys(ToString(authFile.value), passphrase);
      }
      return Success(keys);
    }

    /**
     * importKeys(keys, passphrase): writes the encrypted auth file; the keys
     * are cached exactly when the write succeeds, and the result is the write's.
     */
    method ImportKeys(configDir: Option<Path>, k: Keys, passphrase: string,
                      writeAuthFile: (string, JString, JString, JString, string) -> bool)
      returns (r: Result<bool, Failure>)
      modifies this`keys
      ensures r.Failure? <==> configDir.None?
      ensures r.Failure? ==> r.error == IllegalState(AppDirNotSet) && keys == old(keys)
      ensures r.Success? ==>
                r.value == writeAuthFile(ToString(AuthFile(configDir, host).value), k.user, k.pass, k.mnemonic, passphrase) &&
                keys == if r.value then Some(k) else old(keys)
    {
      var authFile := AuthFile(configDir, host);
      if authFile.Failure? {
        return Failure(authFile.error);
      }
      var success := writeAuthFile(ToString(authFile.value), k.user, k.pass, k.mnemonic, passphrase);
      if success {
        keys := Some(k);
      }
      return Success(success);
    }

    /** deleteKeys(): deletes the auth file; the cache is cleared exactly when a file was deleted. */
    method DeleteKeys(configDir: Option<Path>, deleteIfExists: Path -> bool) returns (r: Result<bool, Failure>)
      modifies this`keys
      ensures r.Failure? <==> configDir.None?
      ensures r.Failure? ==> r.error == IllegalState(AppDirNotSet) && keys == old(keys)
      ensures r.Success? ==> r.value == deleteIfExists(AuthFile(configDir, host).value) &&
                             keys == if r.value then None else old(keys)
    {
      var authFile := AuthFile(configDir, host);
      if authFile.Failure? {
        return Failure(authFile.error);
      }
      var success := deleteIfExists(authFile.value);
      if success {
        keys := None;
      }
      return Success(success);
    }

    /** checkKeys(): getKeys("") and KeysNotFoundException when it yields null. */
    method CheckKeys(configDir: Option<Path>, exportKeys: (string, string) -> Option<Keys>) returns (r: Option<Failure>)
      modifies this`keys
      ensures var loaded := LoadKeys(old(keys), AuthFile(configDir, host), "", exportKeys);
              r == CheckKeysOutcome(loaded) && keys == if loaded.Success? then loaded.value else old(keys)
      ensures r.None? <==> keys.Some?
    {
      var loaded := GetKeys(configDir, "", exportKeys);
      r := CheckKeysOutcome(loaded);
    }

    /**
     * Every authenticated operation: the operation's own checks, then
     * checkKeys(), then the native request, with an environment that carries the
     * (now cached) keys. No request is issued without keys.
     */
    method Authenticated(op: Op, configDir: Option<Path>, downloadDir: Option<Path>, cwd: Path,
                         exportKeys: (string, string) -> Option<Keys>, userAgent: string, caInfoPath: JString)
      returns (r: Result<Call, Failure>)
      requires cwd.absolute
      modifies this`keys
      ensures PreCheck(op, downloadDir).Some? ==> r == Failure(PreCheck(op, downloadDir).value) && keys == old(keys)
      ensures PreCheck(op, downloadDir).None? ==>
                var loaded := LoadKeys(old(keys), AuthFile(configDir, host), "", exportKeys);
                keys == (if loaded.Success? then loaded.value else old(keys)) &&
                r == (if CheckKeysOutcome(loaded).Some? then Failure(CheckKeysOutcome(loaded).value)
                      else CallFor(op, Env(keys, userAgent, caInfoPath), downloadDir, cwd))
      ensures r.Success? ==> keys.Some? && r.value.env == Env(keys, userAgent, caInfoPath)
    {
      var pre := PreCheck(op, downloadDir);
      if pre.Some? {
        return Failure(pre.value);
      }
      var failure := CheckKeys(configDir, exportKeys);
      if failure.Some? {
        return Failure(failure.value);
      }
      r := CallFor(op, Env(keys, userAgent, caInfoPath), downloadDir, cwd);
    }
  }

  /** The static state of the Storj class: the singleton, the two directories and USER_AGENT. */
  class Globals {
    var instance: Storj?
    var configDir: Option<Path>
    var downloadDir: Option<Path>
    const userAgent: string

    /** After class initialisation: no instance, no directories, the user agent from the version resource. */
    constructor(version: JString)
      ensures instance == null && configDir.None? && downloadDir.None? && userAgent == UserAgent(version)
    {
      instance := null;
      configDir := None;
      downloadDir := None;
      userAgent := UserAgent(version);
    }

    /** getInstance(): creates a default client on the first call and returns that one ever after. */
    method GetInstance() returns (s: Storj)
      modifies this`instance
      ensures instance == s
      ensures old(instance) != null ==> s == old(instance)
      ensures old(instance) == null ==> fresh(s) && s.IsDefault()
    {
      if instance == null {
        instance := new Storj();
      }
      s := instance;
    }

    /** Two calls of getInstance() return the same client. */
    method GetInstanceTwice() returns (a: Storj, b: Storj)
      modifies this`instance
      ensures a == b && instance == a
      ensures old(instance) != null ==> a == old(instance)
    {
      a := GetInstance();
      b := GetInstance();
    }

    /** setConfigDirectory(dir) */
    method SetConfigDirectory(dir: Option<Path>)
      modifies this`configDir
      ensures configDir == dir
    {
      configDir := dir;
    }

    /** setDownloadDirectory(dir) */
    method SetDownloadDirectory(dir: Option<Path>)
      modifies this`downloadDir
      ensures downloadDir == dir
    {
      downloadDir := dir;
    }
  }
}
