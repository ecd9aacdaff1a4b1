# java-libstorj, modelled in Dafny

java-libstorj is a Java binding, through JNI, to libstorj, the native client of the Storj
storage bridge. This project models and proves properties of the binding's own logic:

- **Entries** (`entry.dfy`, `file.dfy`, `bucket.dfy`): the immutable `Entry`, `File` and `Bucket`
  records. `equals` and `hashCode` go by id, `compareTo` goes by name, `getSimpleName` is the last
  path name, and `getMimeType` falls back to the stored type.
- **StorjFS** (`storj_fs.dfy`): the directory synthesizer.
  - `listRoot` lists one `Dir` per bucket.
  - `listDir` turns a bucket's flat file listing into one directory level. Pass 1 keeps the direct
    children; pass 2 adds the directories that deeper files imply, each name at most once.
  - `containsDirName` is the linear search both passes use.
  - These are imperative methods with loop invariants, proved against the functions `Pass1`, `Pass2`
    and `ListDirSpec`. The properties are proved about those functions: order, membership, no
    duplicates, files outside the directory ignored, and a worked example.
- **The client object** (`storj.dfy`): the `Storj` class with its endpoint fields and its lazily
  cached keys (`getKeys`, `importKeys`, `deleteKeys`, `checkKeys`); the statics (the singleton, the
  config and download directories, the user agent); the checks every authenticated call runs before
  its native request; and the `Environment` that request carries.
- **The native side** (`native.dfy`, `native_text.dfy`):
  - the status-code classification of every completion callback in `storj-java.cpp`;
  - the bucket-id suffix cut from the request path;
  - the loops that copy the native bucket and file arrays into Java arrays;
  - the order of events in each entry point: environment initialisation, unlinking and opening the
    local file, issuing the request, delivering exactly one outcome;
  - the auth-file export and write.

  `printf`'s `%i`, `%s` of `NULL` and the `uint64_t` to `jlong` conversion are written out, and the
  decimal rendering is proved injective. So each error message determines the status code that
  produced it.

Support modules: `wrappers.dfy` (Option, Result); `java_lang.dfy` (nullable strings, Java `int`
wrap-around, `String.hashCode`, `Objects.hash`/`equals`, `String.compareTo`); `java_paths.dfy`
(`java.nio.file.Path` on Unix: `Paths.get`, names, `startsWith`, `subpath`, `toString`, `resolve`,
`getFileName`); `keys.dfy` (the `Keys` record).

Foreign results are parameters of the model: bridge requests return a status code, and the file
system, the auth-file crypto, `URLConnection.guessContentTypeFromName`, `strerror` and the clock
are inputs. Each native callback's outcome is a `Result`. `Success` carries what
`on…Received`/`onComplete` receives, and `Failure` carries the `onError` message.

Where the source files disagree with each other, or the code departs from its evident intent, the model follows the code:

- **StorjFS relies on a newer `Storj`/`File` than the one in this revision of java-libstorj.** It needs `File.isDirectory()`, a
  `Dir` class and `onFilesReceived(bucketId, files)`. The model takes `isDirectory` as "the name
  ends with `/`", `Dir` as `(name, bucketId, isBucket)`, and `file.getBucketId()` as the bucket id
  that `onFilesReceived` delivers.
- **Pass 2 below a directory does not infer the first name below it.** It infers the file's parent
  path, `subpath(0, n - 1)` (`StorjFS.java:106`). The model does what the code does (see Findings).
- **`init_env` ignores the endpoint.** It hard-codes `https://api.storj.io:443` and the user agent
  `java-libstorj-0.5`. The Java `Environment` carries the configured endpoint, but the native entry
  points in storj-java.cpp take only user, password and mnemonic.

## Model

| member | source | states |
|---|---|---|
| Entries.Entry.SimpleName | src/main/java/io/storj/libstorj/Entry.java:71-73 | NullPointerException (None) exactly for a null name or a name with no names (the root, whose getFileName() is null); otherwise a name without '/' |
| Entries.SimpleNameIsLastSegment | src/main/java/io/storj/libstorj/Entry.java:71-73 | the simple name of names joined by '/', with or without a trailing '/', is the last name |
| Entries.SimpleNameExamples | src/main/java/io/storj/libstorj/Entry.java:71-73 | "a/b/c" has simple name "c" and "a/b/" has "b" |
| Entries.Entry.HashCode | src/main/java/io/storj/libstorj/Entry.java:112-115 | a Java int (signed 32-bit); that equal ids hash alike is in EqualsIsEquivalence |
| Entries.Entry.Equals | src/main/java/io/storj/libstorj/Entry.java:120-129 | true exactly for the same object or an Entry with an equal id (two null ids are equal); false for a non-Entry |
| Entries.EqualsIsEquivalence | src/main/java/io/storj/libstorj/Entry.java:112-129 | equals is reflexive, symmetric and transitive, and equal entries have equal hash codes |
| Entries.Entry.CompareTo | src/main/java/io/storj/libstorj/Entry.java:134-137 | NullPointerException for a null name; otherwise 0 exactly when the names are equal, whatever the ids |
| Entries.CompareToAntisymmetric | src/main/java/io/storj/libstorj/Entry.java:134-137 | swapping the operands negates compareTo |
| Entries.CompareToTransitive | src/main/java/io/storj/libstorj/Entry.java:134-137 | a < b and b < c give a < c |
| Files.File.MimeType | src/main/java/io/storj/libstorj/File.java:76-84 | either the guess from the name or the stored mimeType; anything other than the stored type is a non-empty guess |
| Files.MimeTypePrefersGuess | src/main/java/io/storj/libstorj/File.java:76-84 | a usable guess wins; a null or empty guess gives the stored type |
| Files.File.HashCode | src/main/java/io/storj/libstorj/File.java:98-101 | a Java int (signed 32-bit); that equal ids hash alike is in EqualsIsEquivalence |
| Files.File.Equals | src/main/java/io/storj/libstorj/File.java:103-111 | true exactly for the same object or a File with an equal id; false for a non-File |
| Files.EqualsIsEquivalence | src/main/java/io/storj/libstorj/File.java:98-111 | equals is an equivalence and equal files hash alike |
| Files.File.CompareTo | src/main/java/io/storj/libstorj/File.java:113-116 | NullPointerException for a null name; otherwise 0 exactly for equal names |
| Files.CompareToAntisymmetric | src/main/java/io/storj/libstorj/File.java:113-116 | swapping the operands negates compareTo |
| Buckets.Bucket.HashCode | src/main/java/io/storj/libstorj/Bucket.java:53-56 | a Java int (signed 32-bit); that equal ids hash alike is in EqualsIsEquivalence |
| Buckets.Bucket.Equals | src/main/java/io/storj/libstorj/Bucket.java:58-66 | true for the same object, false for a non-Bucket, otherwise exactly when the ids are equal |
| Buckets.EqualsIsEquivalence | src/main/java/io/storj/libstorj/Bucket.java:53-66 | equals is an equivalence and equal buckets hash alike |
| Buckets.Bucket.CompareTo | src/main/java/io/storj/libstorj/Bucket.java:68-71 | NullPointerException for a null name; otherwise 0 exactly for equal names |
| Buckets.CompareToAntisymmetric | src/main/java/io/storj/libstorj/Bucket.java:68-71 | swapping the operands negates compareTo |
| JavaLang.Int32 | src/main/java/io/storj/libstorj/Entry.java:114 | Java int arithmetic: a signed 32-bit value congruent to the input modulo 2^32, the input itself when it fits |
| JavaLang.StringHashCode | src/main/java/io/storj/libstorj/Entry.java:114 | String.hashCode is a 32-bit int and 0 for "" |
| JavaLang.ObjectsHash | src/main/java/io/storj/libstorj/Entry.java:114 | Objects.hash of one string is a 32-bit int, 31 for null |
| JavaLang.ObjectsEquals | src/main/java/io/storj/libstorj/Entry.java:128 | Objects.equals holds exactly for equal nullable strings |
| JavaLang.EqualsById | src/main/java/io/storj/libstorj/Entry.java:120-129 | the shared equals: true for this, false for another class, else id equality |
| JavaLang.EqualsByIdIsEquivalence | src/main/java/io/storj/libstorj/Entry.java:112-129 | equality by id is an equivalence and implies equal Objects.hash |
| JavaLang.StringCompareTo | src/main/java/io/storj/libstorj/Entry.java:136 | String.compareTo: the difference of the first differing chars, else of the lengths; its order properties are in the three lemmas below |
| JavaLang.CompareToZeroIff | src/main/java/io/storj/libstorj/Entry.java:136 | String.compareTo is 0 exactly for equal strings |
| JavaLang.CompareToAntisymmetric | src/main/java/io/storj/libstorj/Entry.java:136 | String.compareTo(a, b) == -compareTo(b, a) |
| JavaLang.CompareToTransitive | src/main/java/io/storj/libstorj/Entry.java:136 | String.compareTo's order is transitive |
| JavaLang.NameCompareTo | src/main/java/io/storj/libstorj/Entry.java:135-137 | name.compareTo(other.name): None (NullPointerException) when either is null, else 0 exactly for equal names |
| JavaLang.NameCompareToAntisymmetric | src/main/java/io/storj/libstorj/Entry.java:135-137 | the comparison of nullable names is defined both ways or neither, with opposite signs |
| JavaPaths.Segments | src/main/java/io/storj/libstorj/fs/StorjFS.java:74-76 | the non-empty names of a string split on '/', none holding '/' |
| JavaPaths.Join | src/main/java/io/storj/libstorj/fs/StorjFS.java:106 | names joined by '/'; Segments undoes it (JavaPaths.SegmentsOfJoin) |
| JavaPaths.ToString | src/main/java/io/storj/libstorj/fs/StorjFS.java:100-106 | Path.toString: a leading '/' when absolute, then the names joined by '/'; Get undoes it (JavaPaths.GetToString) |
| JavaPaths.StartsWith | src/main/java/io/storj/libstorj/fs/StorjFS.java:82 | Path.startsWith: the same absoluteness, and the other path's names are a prefix of this one's |
| JavaPaths.Get | src/main/java/io/storj/libstorj/fs/StorjFS.java:74-76 | Paths.get of a non-empty string has non-empty names without '/' |
| JavaPaths.FileName | src/main/java/io/storj/libstorj/Entry.java:72 | getFileName is null exactly for a path with no names, else the last name |
| JavaPaths.Resolve | src/main/java/io/storj/libstorj/Storj.java:242 | an absolute other replaces the base; a relative non-empty one appends its names to a non-empty base |
| JavaPaths.SegmentsOfJoin | src/main/java/io/storj/libstorj/fs/StorjFS.java:106 | splitting names joined by '/' gives the names back |
| JavaPaths.GetToString | src/main/java/io/storj/libstorj/fs/StorjFS.java:105-106 | a path printed with toString, with or without a trailing '/', parses back to itself |
| Fs.IsDirectory | src/main/java/io/storj/libstorj/fs/StorjFS.java:86 | File.isDirectory(): true exactly when the name ends with '/' (this revision's File.java has no isDirectory) |
| Fs.DirOfBucket | src/main/java/io/storj/libstorj/fs/StorjFS.java:57 | new Dir(bucket): the bucket's name and id, marked as a bucket |
| Fs.DirOfFile | src/main/java/io/storj/libstorj/fs/StorjFS.java:87 | new Dir(file): the file's name in the listed bucket, not a bucket |
| Fs.ListRoot | src/main/java/io/storj/libstorj/fs/StorjFS.java:51-67 | one Dir per bucket, in order, the i-th built from the i-th bucket; an error is forwarded with its code and message |
| Fs.ContainsDirName | src/main/java/io/storj/libstorj/fs/StorjFS.java:121-128 | true exactly when some entry of the list has the name |
| Fs.DirectChild | src/main/java/io/storj/libstorj/fs/StorjFS.java:79-83 | pass 1's test: in a bucket a path of one name; below a directory a path that starts with the directory's and has exactly one more name |
| Fs.Kept | src/main/java/io/storj/libstorj/fs/StorjFS.java:76-83 | pass 1 keeps a named file exactly when its parsed path is a direct child |
| Fs.Represent | src/main/java/io/storj/libstorj/fs/StorjFS.java:85-91 | a kept file's entry carries the file's own name |
| Fs.Pass1 | src/main/java/io/storj/libstorj/fs/StorjFS.java:75-92 | pass 1 yields named entries, at most one per file |
| Fs.KeepChild | src/main/java/io/storj/libstorj/fs/StorjFS.java:76-91 | one step of pass 1: the file (or its Dir) is appended exactly when it is a direct child (bucket: one name; below a directory: its path plus one name) |
| Fs.Pass1Step | src/main/java/io/storj/libstorj/fs/StorjFS.java:75-92 | pass 1 over one more file appends that file's entry exactly when it is a direct child |
| Fs.FirstPass | src/main/java/io/storj/libstorj/fs/StorjFS.java:73-92 | the first loop computes Pass1, or stops (NullPointerException) exactly when a file name is null |
| Fs.SynthesizedName | src/main/java/io/storj/libstorj/fs/StorjFS.java:98-107 | every inferred name ends with '/'; in a bucket the first name plus '/' for a path of more than one name; below a directory, for a path under it with more than one extra name, the parent path (as written) or the directory's path plus the next name (intended) |
| Fs.Inferred | src/main/java/io/storj/libstorj/fs/StorjFS.java:95-107 | the name a named file infers, through Paths.get of its name; its properties are in Fs.Pass2Sound and Fs.Pass2Complete |
| Fs.AddIfMissing | src/main/java/io/storj/libstorj/fs/StorjFS.java:109-111 | appends the inferred Dir exactly when no entry has its name; what it keeps is in Fs.AddIfMissingKeeps |
| Fs.Pass2 | src/main/java/io/storj/libstorj/fs/StorjFS.java:94-112 | pass 2 keeps every entry named when its start is; order, soundness, completeness and no duplicates are in the Pass2 lemmas |
| Fs.ListDirSpec | src/main/java/io/storj/libstorj/fs/StorjFS.java:69-119 | an error is forwarded with its code and message; NullPointerException exactly for a null directory name or a null file name; every delivered entry is named |
| Fs.ListingOfPasses | src/main/java/io/storj/libstorj/fs/StorjFS.java:73-113 | a listing of named files is pass 2 over the entries of pass 1 |
| Fs.InferDir | src/main/java/io/storj/libstorj/fs/StorjFS.java:95-111 | one step of pass 2: the inferred directory is appended exactly when no entry has its name yet |
| Fs.Pass2Step | src/main/java/io/storj/libstorj/fs/StorjFS.java:94-112 | pass 2 over one more file adds the Dir that file infers, unless an entry of that name is already listed |
| Fs.SecondPass | src/main/java/io/storj/libstorj/fs/StorjFS.java:94-112 | the second loop computes Pass2 from the entries of pass 1 |
| Fs.ListDir | src/main/java/io/storj/libstorj/fs/StorjFS.java:69-119 | listDir delivers the two passes, forwards an error's code and message, and delivers nothing when a name is null |
| Fs.ChildIndicesIncreasing | src/main/java/io/storj/libstorj/fs/StorjFS.java:79-83 | the kept indices increase and are all direct children |
| Fs.ChildIndexKept | src/main/java/io/storj/libstorj/fs/StorjFS.java:79-91 | the index of any direct child is kept |
| Fs.ChildIndicesComplete | src/main/java/io/storj/libstorj/fs/StorjFS.java:79-91 | every direct child's index is kept |
| Fs.Pass1Length | src/main/java/io/storj/libstorj/fs/StorjFS.java:75-92 | pass 1 has exactly one entry per kept file |
| Fs.Pass1RepresentsAt | src/main/java/io/storj/libstorj/fs/StorjFS.java:75-92 | the k-th entry of pass 1 represents the k-th kept file |
| Fs.Pass1Represents | src/main/java/io/storj/libstorj/fs/StorjFS.java:75-92 | every entry of pass 1 represents the kept file at its position |
| Fs.Pass1IsOrderedFilter | src/main/java/io/storj/libstorj/fs/StorjFS.java:75-92 | pass 1 is an order-preserving filter: exactly the direct children, each represented, in input order |
| Fs.Pass2Extends | src/main/java/io/storj/libstorj/fs/StorjFS.java:94-112 | pass 2 only appends: the pass-1 entries stay first and in place, and at most one entry is added per file |
| Fs.Pass2SoundAt | src/main/java/io/storj/libstorj/fs/StorjFS.java:94-112 | the k-th appended entry is a non-bucket Dir of the listed bucket whose name some file infers |
| Fs.Pass2Sound | src/main/java/io/storj/libstorj/fs/StorjFS.java:94-112 | every appended entry is a non-bucket Dir of the listed bucket whose name some file infers |
| Fs.AddIfMissingKeeps | src/main/java/io/storj/libstorj/fs/StorjFS.java:109-111 | after the add, the inferred name is present and every earlier name still is |
| Fs.Pass2CompleteAt | src/main/java/io/storj/libstorj/fs/StorjFS.java:94-112 | the name the i-th file infers appears in the listing |
| Fs.Pass2Complete | src/main/java/io/storj/libstorj/fs/StorjFS.java:94-112 | every name a file infers appears in the listing |
| Fs.Pass2NoDuplicates | src/main/java/io/storj/libstorj/fs/StorjFS.java:101-111 | no appended Dir shares its name with any other entry |
| Fs.Pass1Append | src/main/java/io/storj/libstorj/fs/StorjFS.java:75-92 | pass 1 over a + b is pass 1 over a followed by pass 1 over b |
| Fs.Pass2Append | src/main/java/io/storj/libstorj/fs/StorjFS.java:94-112 | pass 2 over a + b is pass 2 over b after pass 2 over a |
| Fs.OutsideFileYieldsNothing | src/main/java/io/storj/libstorj/fs/StorjFS.java:82 | a file outside a directory adds nothing in either pass |
| Fs.OutsideFilePasses | src/main/java/io/storj/libstorj/fs/StorjFS.java:73-112 | inserting a file outside the directory anywhere leaves both passes unchanged |
| Fs.OutsideFileIgnored | src/main/java/io/storj/libstorj/fs/StorjFS.java:69-114 | a file outside a directory does not change its listing, wherever it sits |
| Fs.NotAllNamed | src/main/java/io/storj/libstorj/fs/StorjFS.java:76 | a null name in a or b is a null name in a + [f] + b and in a + b |
| Fs.InferNew | src/main/java/io/storj/libstorj/fs/StorjFS.java:109-111 | a file inferring a name not yet listed appends its Dir |
| Fs.InferNothingNew | src/main/java/io/storj/libstorj/fs/StorjFS.java:109-111 | a file inferring nothing, or a listed name, changes nothing |
| Fs.BucketRootExample | src/main/java/io/storj/libstorj/fs/StorjFS.java:73-113 | at the root of a bucket of any name, files x, y/z, y/z', w/u/v list as [File x, Dir y/, Dir w/] |
| Fs.LoneInferredFile | src/main/java/io/storj/libstorj/fs/StorjFS.java:73-113 | a single file that is no direct child lists as just the Dir it infers |
| Fs.SkipExampleInferred | src/main/java/io/storj/libstorj/fs/StorjFS.java:105-106 | below [a], the file [a, b, c, d] infers a/b/c/ as written and a/b/ as intended |
| Fs.AsWrittenSkipsLevels | src/main/java/io/storj/libstorj/fs/StorjFS.java:105-106 | listing a/ over a/b/c/d yields Dir a/b/c/, which is not a direct child of a/; the intended rule yields a/b/ |
| Fs.BucketInferredIsDirectChild | src/main/java/io/storj/libstorj/fs/StorjFS.java:98-103 | in a bucket the inferred name, first name plus '/', is a directory that is a direct child |
| Fs.BelowInferredIsDirectChild | src/main/java/io/storj/libstorj/fs/StorjFS.java:105-106 | with the corrected rule, the inferred name below a directory is a direct child |
| Fs.IntendedIsDirectChild | src/main/java/io/storj/libstorj/fs/StorjFS.java:98-107 | with the corrected rule, every inferred name ends with '/' and is a direct child |
| Fs.IntendedListingIsDirectChildren | src/main/java/io/storj/libstorj/fs/StorjFS.java:94-112 | with the corrected rule, every Dir pass 2 appends is a direct child of the listed directory |
| Session.UserAgent | src/main/java/io/storj/libstorj/Storj.java:30-40 | "java-libstorj", with "-" and the version exactly when there is one |
| Session.UserAgentInjective | src/main/java/io/storj/libstorj/Storj.java:30-40 | different versions give different user agents |
| Session.MakeEnvironment | src/main/java/io/storj/libstorj/Storj.java:310-324 | the endpoint is copied; user, pass and mnemonic come from keys, or are all null without keys; the proxy is null |
| Session.AuthFile | src/main/java/io/storj/libstorj/Storj.java:238-243 | IllegalStateException("appDir is not set") exactly when no config directory is set, else configDir resolved with host + ".json" |
| Session.AuthFileInConfigDir | src/main/java/io/storj/libstorj/Storj.java:238-243 | the auth file lies directly in the config directory, is named host.json, and its printed location parses back to it |
| Session.LoadKeys | src/main/java/io/storj/libstorj/Storj.java:133-138 | cached keys are returned whatever the passphrase; the auth file is read only without cached keys |
| Session.LoadKeysStable | src/main/java/io/storj/libstorj/Storj.java:133-138 | once keys are loaded, a later getKeys returns them whatever the passphrase, auth file or decryption |
| Session.CheckKeysOutcome | src/main/java/io/storj/libstorj/Storj.java:251-255 | checkKeys passes exactly when getKeys("") yields keys, and throws KeysNotFoundException for null |
| Session.AbsolutePath | src/main/java/io/storj/libstorj/Storj.java:235 | toAbsolutePath is absolute and leaves an absolute path unchanged |
| Session.PreCheck | src/main/java/io/storj/libstorj/Storj.java:222-231 | before the keys, downloadFile throws without a download directory, and uploadFile(bucket, path) throws for a path with no file name |
| Session.CallFor | src/main/java/io/storj/libstorj/Storj.java:192-236 | each operation issues its native request with the given environment; downloadFile throws for a file without a name |
| Session.DownloadPathInDir | src/main/java/io/storj/libstorj/Storj.java:225 | for a file name without '/', the download target is downloadDir/<file name> and its file name is the stored name |
| Session.RelativeNameSegments | src/main/java/io/storj/libstorj/Storj.java:225 | Paths.get of a name not starting with '/' is relative with at least one name element |
| Session.DownloadPathKeepsSubdirs | src/main/java/io/storj/libstorj/Storj.java:225 | a non-empty name not starting with '/' resolves below the download directory, keeping all its name elements ("a/b" gives downloadDir/a/b) |
| Session.DownloadPathAbsoluteName | src/main/java/io/storj/libstorj/Storj.java:225 | a name starting with '/' replaces the download directory: the target is the name's own absolute path |
| Session.Storj.IsDefault | src/main/java/io/storj/libstorj/Storj.java:64-66 | the default endpoint https, api.storj.io, 443 and no keys |
| Session.Storj.constructor | src/main/java/io/storj/libstorj/Storj.java:79-84 | a fresh client has https, api.storj.io, 443 and no keys |
| Session.Storj.SetBridgeEndpoint | src/main/java/io/storj/libstorj/Storj.java:101-105 | replaces proto, host and port, and nothing else |
| Session.Storj.SetBridgeEndpointUrl | src/main/java/io/storj/libstorj/Storj.java:107-109 | takes the URL's protocol, host and port |
| Session.Storj.Env | src/main/java/io/storj/libstorj/Storj.java:302-324 | the environment carries this client's endpoint |
| Session.Storj.GetInfo | src/main/java/io/storj/libstorj/Storj.java:121-123 | getInfo issues its request with `new Environment()`: MakeEnvironment of this client's proto, host and port and of whatever keys are cached (all credentials null without keys) |
| Session.Storj.Register | src/main/java/io/storj/libstorj/Storj.java:125-127 | register issues its request with the given user and password and no mnemonic |
| Session.Storj.KeysExist | src/main/java/io/storj/libstorj/Storj.java:129-131 | throws exactly without a config directory, else whether the auth file exists |
| Session.Storj.VerifyKeys | src/main/java/io/storj/libstorj/Storj.java:163-190 | true exactly when listing the buckets with those credentials succeeds and the wait is not interrupted |
| Session.Storj.GetKeys | src/main/java/io/storj/libstorj/Storj.java:133-138 | returns LoadKeys of the cached keys and caches what it loads; cached keys never change |
| Session.Storj.ImportKeys | src/main/java/io/storj/libstorj/Storj.java:146-153 | returns the auth-file write's result and caches the keys exactly when it succeeds; otherwise the cache is unchanged |
| Session.Storj.DeleteKeys | src/main/java/io/storj/libstorj/Storj.java:155-161 | returns whether a file was deleted and clears the cache exactly then |
| Session.Storj.CheckKeys | src/main/java/io/storj/libstorj/Storj.java:251-255 | passes exactly when keys are cached afterwards |
| Session.Storj.Authenticated | src/main/java/io/storj/libstorj/Storj.java:192-236 | each authenticated operation runs its own checks, then checkKeys, then issues its request with the cached keys; no request without keys |
| Session.Globals.constructor | src/main/java/io/storj/libstorj/Storj.java:30-40 | no instance, no directories, the user agent from the version |
| Session.Globals.GetInstance | src/main/java/io/storj/libstorj/Storj.java:86-91 | creates a default client on the first call and returns that same client afterwards |
| Session.Globals.GetInstanceTwice | src/main/java/io/storj/libstorj/Storj.java:86-91 | two calls return the same client |
| Session.Globals.SetConfigDirectory | src/main/java/io/storj/libstorj/Storj.java:93-95 | sets the config directory |
| Session.Globals.SetDownloadDirectory | src/main/java/io/storj/libstorj/Storj.java:97-99 | sets the download directory |
| NativeText.NatDigits | src/main/cpp/storj-java.cpp:128 | %i of a natural number: non-empty decimal digits without a leading zero |
| NativeText.Decimal | src/main/cpp/storj-java.cpp:128 | %i of an int: non-empty, starting with '-' exactly for a negative number |
| NativeText.ParseNatDigits | src/main/cpp/storj-java.cpp:128 | the digits read back as the number |
| NativeText.DecimalRoundTrip | src/main/cpp/storj-java.cpp:128 | reading a %i rendering back gives the number |
| NativeText.DecimalInjective | src/main/cpp/storj-java.cpp:128 | different numbers render differently |
| NativeText.Unwrap | src/main/cpp/storj-java.cpp:128 | text between a fixed prefix and suffix is recovered from the whole |
| NativeText.DecimalInContext | src/main/cpp/storj-java.cpp:222 | a status printed between a fixed prefix and suffix is recovered from the message |
| NativeText.LastSlash | src/main/cpp/storj-java.cpp:214 | strrchr(path, '/'): the index of a '/' with none after it |
| NativeText.SuffixAfterLastSlash | src/main/cpp/storj-java.cpp:214 | the text after the last '/': no '/' in it, and the path is a prefix, '/', and it |
| NativeText.SuffixOfRequestPath | src/main/cpp/storj-java.cpp:214 | for the path prefix + "/" + id, with no '/' in id, the suffix is id |
| NativeText.CString | src/main/cpp/storj-java.cpp:300 | %s of a string is the string itself (glibc prints "(null)" for NULL) |
| NativeText.ToJavaLong | src/main/cpp/storj-java.cpp:418 | a uint64_t passed as a jlong keeps its 64 bits: congruent modulo 2^64, equal below 2^63, negative from 2^63 on |
| Native.ToBucket | src/main/cpp/storj-java.cpp:141-150 | the Java Bucket built from a native bucket's id, name, created and decrypted; Native.ToBucketInjective shows it keeps them all |
| Native.ToFile | src/main/cpp/storj-java.cpp:404-422 | the Java File built from a native file's fields, the size as a jlong; Native.ToFileInjective and Native.FileArrayKeepsNulls state what it keeps |
| Native.RequestFailed | src/main/cpp/storj-java.cpp:128 | "Request failed with status code: " and the status in decimal; the status is recovered from it (Native.GetBucketsErrorDeterminesStatus) |
| Native.ToBucketInjective | src/main/cpp/storj-java.cpp:141-151 | the Java bucket keeps every field of the native one |
| Native.ToFileInjective | src/main/cpp/storj-java.cpp:404-422 | the Java file keeps every field of the native one, the size included |
| Native.BucketArray | src/main/cpp/storj-java.cpp:133-157 | the loop fills an array of total_buckets elements, element i built from native bucket i |
| Native.FileArray | src/main/cpp/storj-java.cpp:396-447 | the loop fills an array of total_files elements, element i built from native file i |
| Native.FileArrayKeepsNulls | src/main/cpp/storj-java.cpp:404-422 | the delivered File copies all seven strings (id, filename as name, created, mimetype, erasure, index, hmac) and decrypted, so a NULL field stays null; a size below 2^63 is kept |
| Native.GetBucketsError | src/main/cpp/storj-java.cpp:123-130 | no error exactly for 200 and 304; 401 is "Invalid user credentials"; any other status gives "Request failed with status code: N" |
| Native.GetBucketsCallback | src/main/cpp/storj-java.cpp:115-168 | the error of GetBucketsError, or the copied bucket array |
| Native.GetBucketsErrorDeterminesStatus | src/main/cpp/storj-java.cpp:123-130 | two failing statuses give the same message only when they are equal |
| Native.GetBucketCallback | src/main/cpp/storj-java.cpp:204-250 | a failure exactly for status other than 200, naming the id after the last '/' of the path (404, 400, 401, other); otherwise the bucket |
| Native.GetBucketMessage | src/main/cpp/storj-java.cpp:215-223 | the messages for 404, 400 and 401 and "Failed to retrieve bucket. (N)" otherwise; each status has its own (Native.GetBucketMessageDeterminesStatus) |
| Native.GetBucketReportsRequestedId | src/main/cpp/storj-java.cpp:214-218 | for the path prefix/id, 404 and 400 name the requested id |
| Native.GetBucketMessageDeterminesStatus | src/main/cpp/storj-java.cpp:215-223 | for one bucket id, each status has a message of its own |
| Native.CreateBucketError | src/main/cpp/storj-java.cpp:297-306 | no error exactly for 201; 404 reports the name as existing; 401 and the rest as written |
| Native.CreateBucketCallback | src/main/cpp/storj-java.cpp:289-335 | success exactly for 201, with the created bucket; otherwise the error of CreateBucketError |
| Native.CreateBucketErrorDeterminesStatus | src/main/cpp/storj-java.cpp:297-306 | for one bucket name, each failing status has a message of its own |
| Native.ListFilesError | src/main/cpp/storj-java.cpp:382-394 | no error exactly for 200; 404 and 400 name the bucket id; 401 and the rest as written |
| Native.ListFilesCallback | src/main/cpp/storj-java.cpp:374-458 | the error of ListFilesError, or the copied file array |
| Native.ListFilesErrorDeterminesStatus | src/main/cpp/storj-java.cpp:382-394 | for one bucket id, each failing status has a message of its own |
| Native.DeleteBucketError | src/main/cpp/storj-java.cpp:797-804 | no error exactly for 200 and 204; 401 or "Failed to destroy bucket. (N)" |
| Native.DeleteBucketCallback | src/main/cpp/storj-java.cpp:789-815 | the bucket deletion succeeds exactly for 200 and 204 |
| Native.DeleteFileError | src/main/cpp/storj-java.cpp:862-869 | no error exactly for 200 and 204; 401 or "Failed to remove file from bucket. (N)" |
| Native.DeleteFileCallback | src/main/cpp/storj-java.cpp:854-880 | the file deletion succeeds exactly for 200 and 204 |
| Native.DeleteErrorsDetermineStatus | src/main/cpp/storj-java.cpp:797-869 | each failing delete status has a message of its own |
| Native.RegisterCallback | src/main/cpp/storj-java.cpp:922-956 | success exactly for 201, with the email; otherwise the status and the response's error |
| Native.RegisterErrorDeterminesStatus | src/main/cpp/storj-java.cpp:930-937 | for one response, the status is recovered from the message |
| Native.GetInfoCallback | src/main/cpp/storj-java.cpp:989-1033 | success exactly without transport error and with a response; curl's text for a transport error, "Failed to get info." for no response |
| Native.DownloadComplete | src/main/cpp/storj-java.cpp:521-545 | status 0 completes with the local path; any other status fails with its text and number |
| Native.UploadComplete | src/main/cpp/storj-java.cpp:671-695 | status 0 completes with the file id; any other status fails with its text and number |
| Native.CompleteErrorDeterminesStatus | src/main/cpp/storj-java.cpp:530-533 | for one error text, a failed transfer's status is recovered from the message |
| Native.InitCredentials | src/main/cpp/storj-java.cpp:832 | the deletes and register initialise without a mnemonic, getInfo without credentials, the rest with all three |
| Native.RequestEntry | src/main/cpp/storj-java.cpp:170-200 | init first; "Failed to initialize Storj environment" and no request exactly when init fails; otherwise the request and its callback's outcome; exactly one delivery, last |
| Native.DownloadEntry | src/main/cpp/storj-java.cpp:578-645 | init first; an existing file is unlinked before the open; an open failure reports "Unable to open" and issues nothing; a failed start gives "Can't allocate memory"; exactly one delivery, last |
| Native.UploadEntry | src/main/cpp/storj-java.cpp:736-787 | init first; then open for reading; "Can't read file" issues nothing; a failed start gives "Can't allocate memory"; exactly one delivery, last |
| Native.ExportKeys | src/main/cpp/storj-java.cpp:1060-1097 | keys exactly when decryption returns 0, and then the strings it read |
| Native.WriteAuthFile | src/main/cpp/storj-java.cpp:1101-1124 | true exactly when the encrypted write returns 0 |
| Native.GetKeysOfNativeExport | src/main/cpp/storj-java.cpp:1060-1097 | getKeys without cached keys over the native export yields keys exactly when the auth file decrypts |

## Left out

- JNI marshalling, local references, `free`, and the `uv_run` event loop are not modelled. So is the guarantee that a completion callback runs only inside `uv_run`. Each request's status code, or error status, is an input.
- The bridge requests, `storj_init_env`, `storj_decrypt_read_auth` and `storj_encrypt_write_auth` are foreign. Their results are parameters. `curl_easy_strerror`, `storj_strerror`, `strerror(errno)` and `URLConnection.guessContentTypeFromName` are parameter functions.
- The progress callbacks of downloads and uploads deal in floating point and are not modelled. The CountDownLatch wait in `verifyKeys` is concurrency: only the interrupted flag and the outcome remain.
- `sprintf` into the fixed 256-byte buffers is modelled as if the message always fits. A longer bucket id, path or error text would overflow the buffer.
- `error_callback`'s first argument is not carried in a `Failure`. It is the Java `File` for downloads and the file path for uploads. Both are fixed by the entry point's own input, so no outcome is lost.
- `%s` of a `NULL` string is modelled as glibc's "(null)"; other C libraries may behave differently.
- Null arguments that Java callers pass to the native entry points (`GetStringUTFChars` of null) are not modelled. Download's `if (path)` branch is one of these.
- Null arguments of the Java `Storj` methods are not modelled: `Session.Storj.SetBridgeEndpoint` takes proto and host as strings, so a null host, which makes `getAuthFile` resolve "null.json" (`Storj.java:242`), and a null proto are outside the model.
- `Session.Storj.ImportKeys` takes its keys as a value: `importKeys(null, passphrase)`, which throws NullPointerException at `keys.getUser()` (`Storj.java:147`) after `getAuthFile`'s own check, is not modelled.
- `UploadFile` (the `Op` of `uploadFile(bucket, fileName, localPath)`) takes the file name as a string: a null file name, which reaches `_uploadFile` and its `GetStringUTFChars`, is not modelled.
- The eight request entry points (getBuckets, getBucket, createBucket, deleteBucket, listFiles, deleteFile, register, getInfo) share one model, `Native.RequestEntry`. They differ only in the credentials they pass to `init_env` (`Native.InitCredentials`) and in the request they issue.
- Native.GetBucketCallback: requires a '/' in the request path when the status is not 200. Without one, `strrchr` returns NULL and the source reads past it. libstorj always requests `/buckets/<id>`.
- The native `init_env` ignores the Java endpoint and user agent, and the native `getBuckets` takes strings where the Java side passes an `Environment`. The two source files come from different revisions. The model keeps each side as written and does not link them.
- The native `list_files_callback` calls `onFilesReceived(files)` without the bucket id that StorjFS's `onFilesReceived(bucketId, files)` expects. StorjFS is modelled against the latter.
- The constructors and getters of `Entry`, `File`, `Bucket` and `Keys` become the datatypes' constructors and fields. Storing a value and reading it back is then the same expression, so no member states it.
- `getTimestamp`, `generateMnemonic`, `checkMnemonic` and the `NativeLibraries` version strings are foreign or trivial and are not modelled.
- `setBridgeEndpoint(String url)` is not modelled: parsing a URL string is the foreign `java.net.URL`. The `URL` overload is modelled on an already parsed URL.
- Session.Storj.DeleteKeys: the `IOException` that `Files.deleteIfExists` may throw is not modelled. The deletion is a boolean parameter.
- `Storj.getErrorMessage` and its constants are not modelled: their implementation is not part of this model.
- `Paths.get` throwing `InvalidPathException` (a NUL character) is not modelled. Every string parses.
- JavaLang.StringHashCode: takes each `char` as its Unicode code point, where Java takes UTF-16 code units. The two agree only for strings inside the Basic Multilingual Plane.
- JavaLang.StringCompareTo: compares code points and counts lengths in code points, where Java uses UTF-16 code units. For names outside the Basic Multilingual Plane the result, and even its sign, can differ. For example, Java's "\uFFFF".compareTo("\uD83D\uDE00") is positive, and the model's is negative. The same holds for JavaLang.NameCompareTo and the CompareTo of Entry, File and Bucket, which are built on it. Equality with 0, antisymmetry and transitivity hold in both.

## Findings

| source | as written | input that shows it | evidently intended | confidence | as-written member | corrected member |
|---|---|---|---|---|---|---|
| src/main/java/io/storj/libstorj/fs/StorjFS.java:106 | below a directory, pass 2 names the inferred Dir after the file's parent path, `subpath(0, n - 1)` | listing directory `a/` over the single file `a/b/c/d` yields Dir `a/b/c/`, two levels down and not a direct child of `a/` | the first name below the directory, `a/b/`, as the bucket branch at lines 98-103 does (one level down) | not executed | Fs.AsWrittenSkipsLevels | Fs.IntendedListingIsDirectChildren |
