/**
 * StorjFS: presents buckets and their flat file listings as a directory tree.
 * The root lists one Dir per bucket; a Dir lists, from the flat listing of its
 * bucket, the files directly below it (pass 1) and then the directories that
 * are implied by deeper files but never stored (pass 2).
 */
module Fs {
  import opened Wrappers
  import opened JavaLang
  import opened JavaPaths
  import opened Files
  import opened Buckets

  /**
   * Dir: a directory entry. It is never stored: it stands for a bucket
   * (isBucket), for a stored file whose name ends with '/', or for a directory
   * that pass 2 infers.
   */
  datatype Dir = Dir(name: JString, bucketId: JString, isBucket: bool)

  /** new Dir(bucket): the bucket as the root directory of its files. */
  function DirOfBucket(b: Bucket): Dir {
    Dir(b.name, b.id, true)
  }

  /** new Dir(file): a stored directory marker, in the bucket the file belongs to. */
  function DirOfFile(f: File, bucketId: JString): Dir {
    Dir(f.name, bucketId, false)
  }

  /** new Dir(name, bucketId): an inferred directory. */
  function NamedDir(name: string, bucketId: JString): Dir {
    Dir(Some(name), bucketId, false)
  }

  /** An element of a listing: a File or a Dir, both Entry in the source. */
  datatype FsEntry = FileEntry(file: File) | DirEntry(dir: Dir) {
    /** getName() */
    function Name(): JString {
      match this
      case FileEntry(f) => f.name
      case DirEntry(d) => d.name
    }
  }

  /** File.isDirectory(): the name ends with '/'. */
  predicate IsDirectory(name: string) {
    |name| > 0 && name[|name| - 1] == '/'
  }

  /** What the getBuckets request hands to the listing code. */
  datatype BucketsResult =
    | BucketsReceived(buckets: seq<Bucket>)
    | BucketsError(code: int, message: JString)

  /** What the listFiles request hands to the listing code. */
  datatype FilesResult =
    | FilesReceived(bucketId: JString, files: seq<File>)
    | FilesError(bucketId: JString, code: int, message: JString)

  /**
   * What the ListCallback gets: onEntriesReceived(entries) or onError(code,
   * message). NullPointerThrown: the listing code threw before delivering
   * anything (a null directory name or a null file name).
   */
  datatype Listing =
    | Entries(entries: seq<FsEntry>)
    | Failed(code: int, message: JString)
    | NullPointerThrown

  predicate AllNamed(files: seq<File>) {
    forall i :: 0 <= i < |files| ==> files[i].name.Some?
  }

  predicate AllEntriesNamed(entries: seq<FsEntry>) {
    forall i :: 0 <= i < |entries| ==> entries[i].Name().Some?
  }

  /** Some entry of the list has the given name. */
  predicate HasName(entries: seq<FsEntry>, name: string) {
    exists i :: 0 <= i < |entries| && entries[i].Name() == Some(name)
  }

  // ---------------------------------------------------------------------------
  // The specification of the two passes
  // ---------------------------------------------------------------------------

  /**
   * Pass 1's test. In a bucket, a file is a direct child when its path has one
   * name; below a directory, when its path starts with the directory's path and
   * has exactly one more name.
   */
  predicate DirectChild(dir: Dir, dirPath: Path, filePath: Path) {
    if dir.isBucket then |filePath.names| == 1
    else StartsWith(filePath, dirPath) && |filePath.names| == |dirPath.names| + 1
  }

  /** How pass 1 lists a direct child: as a Dir when its name ends with '/', else as the File. */
  function Represent(f: File, bucketId: JString): (e: FsEntry)
    requires f.name.Some?
    ensures e.Name() == f.name
  {
    if IsDirectory(f.name.value) then DirEntry(DirOfFile(f, bucketId)) else FileEntry(f)
  }

  /** Pass 1 over the files, in order. */
  function Pass1(dir: Dir, dirPath: Path, bucketId: JString, files: seq<File>): (r: seq<FsEntry>)
    requires AllNamed(files)
    ensures AllEntriesNamed(r)
    ensures |r| <= |files|
  {
    if files == [] then []
    else
      var last := files[|files| - 1];
      Pass1(dir, dirPath, bucketId, files[..|files| - 1])
        + (if Kept(dir, dirPath, last) then [Represent(last, bucketId)] else [])
  }

  /**
   * Which directory name pass 2 infers from a file. AsWritten is the source's
   * rule; Intended is the rule the bucket branch (StorjFS.java:98-103) follows
   * (the first name below the listed directory); the two differ only below a
   * non-bucket directory.
   */
  datatype Rule = AsWritten | Intended

  /**
   * The directory name pass 2 infers from the file at filePath, if any. In a
   * bucket: the first name plus '/', for a path of more than one name. Below a
   * directory, for a path under it with more than one extra name: the path
   * without its last name, plus '/' (as written), or the directory's path plus
   * the next name, plus '/' (intended).
   */
  function SynthesizedName(rule: Rule, dir: Dir, dirPath: Path, filePath: Path): (r: Option<string>)
    ensures r.Some? ==> IsDirectory(r.value)
  {
    var n := |filePath.names|;
    if dir.isBucket then
      if n > 1 then Some(filePath.names[0] + "/") else None
    else if StartsWith(filePath, dirPath) && n > |dirPath.names| + 1 then
      match rule
      case AsWritten => Some(ToString(Path(false, filePath.names[..n - 1])) + "/")
      case Intended => Some(ToString(Path(filePath.absolute, filePath.names[..|dirPath.names| + 1])) + "/")
    else None
  }

  /** Pass 1 keeps the file: it is named and a direct child. */
  predicate Kept(dir: Dir, dirPath: Path, f: File) {
    f.name.Some? && DirectChild(dir, dirPath, Get(f.name.value))
  }

  /** The directory name pass 2 infers from a named file. */
  function Inferred(rule: Rule, dir: Dir, dirPath: Path, f: File): Option<string> {
    if f.name.None? then None else SynthesizedName(rule, dir, dirPath, Get(f.name.value))
  }

  /** Appends the inferred directory unless some entry already has its name. */
  function AddIfMissing(entries: seq<FsEntry>, dirName: Option<string>, bucketId: JString): seq<FsEntry> {
    if dirName.Some? && !HasName(entries, dirName.value)
    then entries + [DirEntry(NamedDir(dirName.value, bucketId))]
    else entries
  }

  /** Pass 2 over the files, in order, starting from the entries of pass 1. */
  function Pass2(rule: Rule, dir: Dir, dirPath: Path, bucketId: JString, files: seq<File>, start: seq<FsEntry>): (r: seq<FsEntry>)
    requires AllNamed(files)
    ensures AllEntriesNamed(start) ==> AllEntriesNamed(r)
  {
    if files == [] then start
    else
      var last := files[|files| - 1];
      AddIfMissing(Pass2(rule, dir, dirPath, bucketId, files[..|files| - 1], start),
                   Inferred(rule, dir, dirPath, last), bucketId)
  }

  /** The listing of a directory under a pass-2 rule, from what listFiles delivered. */
  function ListDirSpec(rule: Rule, dir: Dir, r: FilesResult): (l: Listing)
    ensures r.FilesError? ==> l == Failed(r.code, r.message)
    ensures l.NullPointerThrown? <==> r.FilesReceived? && (dir.name.None? || !AllNamed(r.files))
    ensures l.Entries? ==> AllEntriesNamed(l.entries)
  {
    match r
    case FilesError(_, code, message) => Failed(code, message)
    case FilesReceived(bucketId, files) =>
      if dir.name.None? || !AllNamed(files) then NullPointerThrown
      else
        var dirPath := Get(dir.name.value);
        Entries(Pass2(rule, dir, dirPath, bucketId, files, Pass1(dir, dirPath, bucketId, files)))
  }

  // ---------------------------------------------------------------------------
  // The listing code
  // ---------------------------------------------------------------------------

  /**
   * listRoot: a successful bucket listing becomes one Dir per bucket, in the
   * buckets' order, the i-th built from the i-th bucket; an error is forwarded
   * with its code and message.
   */
  method ListRoot(r: BucketsResult) returns (out: Listing)
    ensures r.BucketsError? ==> out == Failed(r.code, r.message)
    ensures r.BucketsReceived? ==>
              out.Entries? && |out.entries| == |r.buckets| &&
              forall i :: 0 <= i < |r.buckets| ==> out.entries[i] == DirEntry(DirOfBucket(r.buckets[i]))
  {
    match r
    case BucketsError(code, message) =>
      out := Failed(code, message);
    case BucketsReceived(buckets) =>
      var dirs := new Dir[|buckets|];
      for i := 0 to |buckets|
        invariant forall j :: 0 <= j < i ==> dirs[j] == DirOfBucket(buckets[j])
      {
        dirs[i] := DirOfBucket(buckets[i]);
      }
      out := Entries(seq(dirs.Length, k requires 0 <= k < dirs.Length reads dirs => DirEntry(dirs[k])));
  }

  /** containsDirName: a linear search for an entry of the given name. */
  method ContainsDirName(list: seq<FsEntry>, dirName: string) returns (found: bool)
    requires AllEntriesNamed(list)
    ensures found <==> HasName(list, dirName)
  {
    for i := 0 to |list|
      invariant forall j :: 0 <= j < i ==> list[j].Name() != Some(dirName)
    {
      if list[i].Name().value == dirName {
        return true;
      }
    }
    return false;
  }

  /**
   * Pass 1 of listDir: the direct children of the directory, in the files'
   * order. A null file name makes Paths.get throw, which ends the listing
   * (None).
   */
  method FirstPass(dir: Dir, dirPath: Path, bucketId: JString, files: seq<File>) returns (r: Option<seq<FsEntry>>)
    ensures r.None? <==> !AllNamed(files)
    ensures r.Some? ==> r.value == Pass1(dir, dirPath, bucketId, files)
  {
    var result: seq<FsEntry> := [];
    for i := 0 to |files|
      invariant AllNamed(files[..i])
      invariant result == Pass1(dir, dirPath, bucketId, files[..i])
    {
      if files[i].name.None? {
        return None;
      }
      result := KeepChild(dir, dirPath, bucketId, files[i], result);
      Pass1Step(dir, dirPath, bucketId, files, i);
    }
    assert files[..|files|] == files;
    return Some(result);
  }

  /** The body of pass 1 for one file: append it, or its Dir, when it is a direct child. */
  method KeepChild(dir: Dir, dirPath: Path, bucketId: JString, file: File, result: seq<FsEntry>) returns (next: seq<FsEntry>)
    requires file.name.Some?
    ensures next == result + (if Kept(dir, dirPath, file) then [Represent(file, bucketId)] else [])
  {
    var filePath := Get(file.name.value);
    var add := false;
    if dir.isBucket {
      add := |filePath.names| == 1;
    } else {
      add := StartsWith(filePath, dirPath) && |filePath.names| == |dirPath.names| + 1;
    }
    next := result;
    if add {
      if IsDirectory(file.name.value) {
        next := next + [DirEntry(DirOfFile(file, bucketId))];
      } else {
        next := next + [FileEntry(file)];
      }
    }
  }

  /** One more file: pass 1 over a longer prefix keeps at most that file. */
  lemma Pass1Step(dir: Dir, dirPath: Path, bucketId: JString, files: seq<File>, i: nat)
    requires i < |files| && AllNamed(files[..i]) && files[i].name.Some?
    ensures AllNamed(files[..i + 1])
    ensures Pass1(dir, dirPath, bucketId, files[..i + 1])
            == Pass1(dir, dirPath, bucketId, files[..i]) + (if Kept(dir, dirPath, files[i]) then [Represent(files[i], bucketId)] else [])
  {
    assert files[..i + 1][..i] == files[..i];
  }

  /**
   * Pass 2 of listDir: appends, in the files' order, each inferred directory
   * whose name no entry has yet.
   */
  method SecondPass(dir: Dir, dirPath: Path, bucketId: JString, files: seq<File>, start: seq<FsEntry>) returns (result: seq<FsEntry>)
    requires AllNamed(files) && AllEntriesNamed(start)
    ensures result == Pass2(AsWritten, dir, dirPath, bucketId, files, start)
  {
    result := start;
    for i := 0 to |files|
      invariant AllEntriesNamed(result)
      invariant result == Pass2(AsWritten, dir, dirPath, bucketId, files[..i], start)
    {
      result := InferDir(dir, dirPath, bucketId, files[i], result);
      Pass2Step(AsWritten, dir, dirPath, bucketId, files, i, start);
    }
    assert files[..|files|] == files;
  }

  /**
   * The body of pass 2 for one file: append the directory it infers unless an
   * entry has its name. The bucket branch tests for the name twice, as the
   * source does; the second test always finds it.
   */
  method InferDir(dir: Dir, dirPath: Path, bucketId: JString, file: File, result: seq<FsEntry>) returns (next: seq<FsEntry>)
    requires file.name.Some? && AllEntriesNamed(result)
    ensures AllEntriesNamed(next)
    ensures next == AddIfMissing(result, Inferred(AsWritten, dir, dirPath, file), bucketId)
  {
    var filePath := Get(file.name.value);
    var dirName: Option<string> := None;
    next := result;
    if dir.isBucket {
      if |filePath.names| > 1 {
        dirName := Some(filePath.names[0] + "/");
        var present := ContainsDirName(next, dirName.value);
        if !present {
          next := next + [DirEntry(NamedDir(dirName.value, bucketId))];
          assert next[|next| - 1].Name() == dirName;
        }
      }
    } else if StartsWith(filePath, dirPath) && |filePath.names| > |dirPath.names| + 1 {
      dirName := Some(ToString(Path(false, filePath.names[..|filePath.names| - 1])) + "/");
    }
    if dirName.Some? {
      var present := ContainsDirName(next, dirName.value);
      if !present {
        next := next + [DirEntry(NamedDir(dirName.value, bucketId))];
      }
    }
    assert dirName == SynthesizedName(AsWritten, dir, dirPath, filePath);
    assert next == AddIfMissing(result, dirName, bucketId);
  }

  /** One more file: pass 2 over a longer prefix adds at most what that file infers. */
  lemma Pass2Step(rule: Rule, dir: Dir, dirPath: Path, bucketId: JString, files: seq<File>, i: nat, start: seq<FsEntry>)
    requires AllNamed(files) && i < |files|
    ensures AllNamed(files[..i]) && AllNamed(files[..i + 1])
    ensures Pass2(rule, dir, dirPath, bucketId, files[..i + 1], start)
            == AddIfMissing(Pass2(rule, dir, dirPath, bucketId, files[..i], start),
                            Inferred(rule, dir, dirPath, files[i]), bucketId)
  {
    assert files[..i + 1][..i] == files[..i];
  }

  /**
   * listDir: the two passes over the files listFiles delivered, or the
   * forwarded error; a null directory or file name throws before anything is
   * delivered.
   */
  method ListDir(dir: Dir, r: FilesResult) returns (out: Listing)
    ensures out == ListDirSpec(AsWritten, dir, r)
  {
    match r {
      case FilesError(_, code, message) =>
        out := Failed(code, message);
      case FilesReceived(bucketId, files) =>
        if dir.name.None? {
          return NullPointerThrown;
        }
        var dirPath := Get(dir.name.value);
        var first := FirstPass(dir, dirPath, bucketId, files);
        if first.None? {
          return NullPointerThrown;
        }
        var result := SecondPass(dir, dirPath, bucketId, files, first.value);
        out := Entries(result);
    }
  }

  // ---------------------------------------------------------------------------
  // Properties of the listing
  // ---------------------------------------------------------------------------

  /** The indices of the files pass 1 keeps, in order. */
  ghost function ChildIndices(dir: Dir, dirPath: Path, files: seq<File>): seq<int>
    requires AllNamed(files)
  {
    if files == [] then []
    else
      ChildIndices(dir, dirPath, files[..|files| - 1])
        + (if Kept(dir, dirPath, files[|files| - 1]) then [|files| - 1] else [])
  }

  /** The kept indices are increasing indices of direct children. */
  lemma {:induction false} ChildIndicesIncreasing(dir: Dir, dirPath: Path, files: seq<File>)
    requires AllNamed(files)
    ensures forall k :: 0 <= k < |ChildIndices(dir, dirPath, files)| ==>
              0 <= ChildIndices(dir, dirPath, files)[k] < |files| &&
              Kept(dir, dirPath, files[ChildIndices(dir, dirPath, files)[k]])
    ensures forall k, l :: 0 <= k < l < |ChildIndices(dir, dirPath, files)| ==>
              ChildIndices(dir, dirPath, files)[k] < ChildIndices(dir, dirPath, files)[l]
  {
    if files != [] {
      var n := |files|;
      var prefix := files[..n - 1];
      ChildIndicesIncreasing(dir, dirPath, prefix);
      var idx' := ChildIndices(dir, dirPath, prefix);
      var idx := ChildIndices(dir, dirPath, files);
      assert idx == idx' + (if Kept(dir, dirPath, files[n - 1]) then [n - 1] else []);
      assert forall k :: 0 <= k < |idx'| ==> idx[k] == idx'[k] && files[idx'[k]] == prefix[idx'[k]];
    }
  }

  /** The index of a direct child is kept. */
  lemma {:induction false} ChildIndexKept(dir: Dir, dirPath: Path, files: seq<File>, i: int)
    requires AllNamed(files) && 0 <= i < |files| && Kept(dir, dirPath, files[i])
    ensures i in ChildIndices(dir, dirPath, files)
  {
    var n := |files|;
    var prefix := files[..n - 1];
    if i < n - 1 {
      assert prefix[i] == files[i];
      ChildIndexKept(dir, dirPath, prefix, i);
    }
  }

  /** Every direct child's index is kept. */
  lemma ChildIndicesComplete(dir: Dir, dirPath: Path, files: seq<File>)
    requires AllNamed(files)
    ensures forall i :: 0 <= i < |files| && Kept(dir, dirPath, files[i]) ==>
              i in ChildIndices(dir, dirPath, files)
  {
    forall i | 0 <= i < |files| && Kept(dir, dirPath, files[i])
      ensures i in ChildIndices(dir, dirPath, files)
    {
      ChildIndexKept(dir, dirPath, files, i);
    }
  }

  /** Pass 1 has one entry per kept index. */
  lemma {:induction false} Pass1Length(dir: Dir, dirPath: Path, bucketId: JString, files: seq<File>)
    requires AllNamed(files)
    ensures |Pass1(dir, dirPath, bucketId, files)| == |ChildIndices(dir, dirPath, files)|
  {
    if files != [] {
      Pass1Length(dir, dirPath, bucketId, files[..|files| - 1]);
    }
  }

  /** The k-th entry of pass 1 represents the file at the k-th kept index. */
  lemma {:induction false} Pass1RepresentsAt(dir: Dir, dirPath: Path, bucketId: JString, files: seq<File>, k: int)
    requires AllNamed(files) && 0 <= k < |ChildIndices(dir, dirPath, files)|
    ensures |Pass1(dir, dirPath, bucketId, files)| == |ChildIndices(dir, dirPath, files)|
    ensures 0 <= ChildIndices(dir, dirPath, files)[k] < |files|
    ensures Pass1(dir, dirPath, bucketId, files)[k] == Represent(files[ChildIndices(dir, dirPath, files)[k]], bucketId)
  {
    var n := |files|;
    var prefix := files[..n - 1];
    Pass1Length(dir, dirPath, bucketId, files);
    Pass1Length(dir, dirPath, bucketId, prefix);
    var idx' := ChildIndices(dir, dirPath, prefix);
    if k < |idx'| {
      Pass1RepresentsAt(dir, dirPath, bucketId, prefix, k);
      assert files[idx'[k]] == prefix[idx'[k]];
    }
  }

  /** The k-th entry of pass 1 represents the file at the k-th kept index. */
  lemma Pass1Represents(dir: Dir, dirPath: Path, bucketId: JString, files: seq<File>)
    requires AllNamed(files)
    ensures |Pass1(dir, dirPath, bucketId, files)| == |ChildIndices(dir, dirPath, files)|
    ensures forall k :: 0 <= k < |ChildIndices(dir, dirPath, files)| ==>
              0 <= ChildIndices(dir, dirPath, files)[k] < |files| &&
              Pass1(dir, dirPath, bucketId, files)[k] == Represent(files[ChildIndices(dir, dirPath, files)[k]], bucketId)
  {
    Pass1Length(dir, dirPath, bucketId, files);
    forall k | 0 <= k < |ChildIndices(dir, dirPath, files)|
      ensures 0 <= ChildIndices(dir, dirPath, files)[k] < |files| &&
              Pass1(dir, dirPath, bucketId, files)[k] == Represent(files[ChildIndices(dir, dirPath, files)[k]], bucketId)
    {
      Pass1RepresentsAt(dir, dirPath, bucketId, files, k);
    }
  }

  /**
   * Pass 1 is an order-preserving filter: its k-th entry represents the file
   * at the k-th kept index, the kept indices increase and are those of direct
   * children, and every direct child is kept.
   */
  lemma Pass1IsOrderedFilter(dir: Dir, dirPath: Path, bucketId: JString, files: seq<File>)
    requires AllNamed(files)
    ensures var first := Pass1(dir, dirPath, bucketId, files);
            var idx := ChildIndices(dir, dirPath, files);
            |first| == |idx| &&
            (forall k :: 0 <= k < |idx| ==>
               0 <= idx[k] < |files| && Kept(dir, dirPath, files[idx[k]]) &&
               first[k] == Represent(files[idx[k]], bucketId)) &&
            (forall k, l :: 0 <= k < l < |idx| ==> idx[k] < idx[l]) &&
            (forall i :: 0 <= i < |files| && Kept(dir, dirPath, files[i]) ==> i in idx)
  {
    Pass1Represents(dir, dirPath, bucketId, files);
    ChildIndicesIncreasing(dir, dirPath, files);
    ChildIndicesComplete(dir, dirPath, files);
  }

  /** Pass 2 only appends: the entries it starts from stay, in place. */
  lemma {:induction false} Pass2Extends(rule: Rule, dir: Dir, dirPath: Path, bucketId: JString, files: seq<File>, start: seq<FsEntry>)
    requires AllNamed(files)
    ensures var r := Pass2(rule, dir, dirPath, bucketId, files, start);
            |start| <= |r| <= |start| + |files| && r[..|start|] == start
  {
    if files != [] {
      Pass2Extends(rule, dir, dirPath, bucketId, files[..|files| - 1], start);
    }
  }

  /** The k-th entry pass 2 appends is an inferred, non-bucket Dir of the listed bucket. */
  lemma {:induction false} Pass2SoundAt(rule: Rule, dir: Dir, dirPath: Path, bucketId: JString, files: seq<File>, start: seq<FsEntry>, k: int)
    requires AllNamed(files)
    requires |start| <= k < |Pass2(rule, dir, dirPath, bucketId, files, start)|
    ensures var e := Pass2(rule, dir, dirPath, bucketId, files, start)[k];
            e.DirEntry? && !e.dir.isBucket && e.dir.bucketId == bucketId && e.dir.name.Some? &&
            exists i :: 0 <= i < |files| && Inferred(rule, dir, dirPath, files[i]) == e.dir.name
  {
    var n := |files|;
    var prefix := files[..n - 1];
    var before := Pass2(rule, dir, dirPath, bucketId, prefix, start);
    var d := Inferred(rule, dir, dirPath, files[n - 1]);
    var r := AddIfMissing(before, d, bucketId);
    assert Pass2(rule, dir, dirPath, bucketId, files, start) == r;
    if k < |before| {
      assert r[k] == before[k];
      Pass2SoundAt(rule, dir, dirPath, bucketId, prefix, start, k);
      var i :| 0 <= i < n - 1 && Inferred(rule, dir, dirPath, prefix[i]) == before[k].dir.name;
      assert prefix[i] == files[i];
    } else {
      assert r[k] == DirEntry(NamedDir(d.value, bucketId));
      assert Inferred(rule, dir, dirPath, files[n - 1]) == r[k].dir.name;
    }
  }

  /**
   * Every entry pass 2 appends is an inferred, non-bucket Dir of the listed
   * bucket whose name some file infers.
   */
  lemma Pass2Sound(rule: Rule, dir: Dir, dirPath: Path, bucketId: JString, files: seq<File>, start: seq<FsEntry>)
    requires AllNamed(files)
    ensures var r := Pass2(rule, dir, dirPath, bucketId, files, start);
            forall k :: |start| <= k < |r| ==>
              r[k].DirEntry? && !r[k].dir.isBucket && r[k].dir.bucketId == bucketId && r[k].dir.name.Some? &&
              exists i :: 0 <= i < |files| && Inferred(rule, dir, dirPath, files[i]) == r[k].dir.name
  {
    var r := Pass2(rule, dir, dirPath, bucketId, files, start);
    forall k | |start| <= k < |r|
      ensures r[k].DirEntry? && !r[k].dir.isBucket && r[k].dir.bucketId == bucketId && r[k].dir.name.Some? &&
              exists i :: 0 <= i < |files| && Inferred(rule, dir, dirPath, files[i]) == r[k].dir.name
    {
      Pass2SoundAt(rule, dir, dirPath, bucketId, files, start, k);
    }
  }

  /** After AddIfMissing, the given name is present and every name present before still is. */
  lemma AddIfMissingKeeps(entries: seq<FsEntry>, dirName: Option<string>, bucketId: JString)
    ensures dirName.Some? ==> HasName(AddIfMissing(entries, dirName, bucketId), dirName.value)
    ensures forall n :: HasName(entries, n) ==> HasName(AddIfMissing(entries, dirName, bucketId), n)
  {
    var r := AddIfMissing(entries, dirName, bucketId);
    assert forall k :: 0 <= k < |entries| ==> r[k] == entries[k];
    if dirName.Some? && !HasName(entries, dirName.value) {
      assert r[|entries|].Name() == dirName;
    }
  }

  /** The name the i-th file infers appears in the listing. */
  lemma {:induction false} Pass2CompleteAt(rule: Rule, dir: Dir, dirPath: Path, bucketId: JString, files: seq<File>, start: seq<FsEntry>, i: int)
    requires AllNamed(files) && 0 <= i < |files| && Inferred(rule, dir, dirPath, files[i]).Some?
    ensures HasName(Pass2(rule, dir, dirPath, bucketId, files, start), Inferred(rule, dir, dirPath, files[i]).value)
  {
    var n := |files|;
    var prefix := files[..n - 1];
    var before := Pass2(rule, dir, dirPath, bucketId, prefix, start);
    var d := Inferred(rule, dir, dirPath, files[n - 1]);
    assert Pass2(rule, dir, dirPath, bucketId, files, start) == AddIfMissing(before, d, bucketId);
    AddIfMissingKeeps(before, d, bucketId);
    if i < n - 1 {
      assert prefix[i] == files[i];
      Pass2CompleteAt(rule, dir, dirPath, bucketId, prefix, start, i);
      assert HasName(before, Inferred(rule, dir, dirPath, files[i]).value);
    }
  }

  /** Every name a file infers appears in the listing. */
  lemma Pass2Complete(rule: Rule, dir: Dir, dirPath: Path, bucketId: JString, files: seq<File>, start: seq<FsEntry>)
    requires AllNamed(files)
    ensures forall i :: 0 <= i < |files| && Inferred(rule, dir, dirPath, files[i]).Some? ==>
              HasName(Pass2(rule, dir, dirPath, bucketId, files, start), Inferred(rule, dir, dirPath, files[i]).value)
  {
    forall i | 0 <= i < |files| && Inferred(rule, dir, dirPath, files[i]).Some?
      ensures HasName(Pass2(rule, dir, dirPath, bucketId, files, start), Inferred(rule, dir, dirPath, files[i]).value)
    {
      Pass2CompleteAt(rule, dir, dirPath, bucketId, files, start, i);
    }
  }

  /** No entry pass 2 appends shares its name with any other entry. */
  lemma {:induction false} Pass2NoDuplicates(rule: Rule, dir: Dir, dirPath: Path, bucketId: JString, files: seq<File>, start: seq<FsEntry>)
    requires AllNamed(files)
    ensures var r := Pass2(rule, dir, dirPath, bucketId, files, start);
            forall j, k :: 0 <= j < |r| && |start| <= k < |r| && j != k ==> r[j].Name() != r[k].Name()
  {
    if files != [] {
      var prefix := files[..|files| - 1];
      Pass2NoDuplicates(rule, dir, dirPath, bucketId, prefix, start);
      Pass2Extends(rule, dir, dirPath, bucketId, prefix, start);
    }
  }

  /** The files of a + b are named when those of a and of b are. */
  lemma AllNamedAppend(a: seq<File>, b: seq<File>)
    requires AllNamed(a) && AllNamed(b)
    ensures AllNamed(a + b)
  {
    assert forall i :: 0 <= i < |a + b| ==> (a + b)[i] == if i < |a| then a[i] else b[i - |a|];
  }

  /** Pass 1 distributes over a split of the files. */
  lemma {:induction false} Pass1Append(dir: Dir, dirPath: Path, bucketId: JString, a: seq<File>, b: seq<File>)
    requires AllNamed(a) && AllNamed(b) && AllNamed(a + b)
    ensures Pass1(dir, dirPath, bucketId, a + b) == Pass1(dir, dirPath, bucketId, a) + Pass1(dir, dirPath, bucketId, b)
  {
    if b == [] {
      assert a + b == a;
    } else {
      var b' := b[..|b| - 1];
      var last := b[|b| - 1];
      assert b == b' + [last];
      assert a + b == (a + b') + [last];
      AllNamedAppend(a, b');
      Pass1Snoc(dir, dirPath, bucketId, a + b', last);
      Pass1Snoc(dir, dirPath, bucketId, b', last);
      Pass1Append(dir, dirPath, bucketId, a, b');
    }
  }

  /** Pass 2 over a split of the files is pass 2 over the second part after the first. */
  lemma {:induction false} Pass2Append(rule: Rule, dir: Dir, dirPath: Path, bucketId: JString, a: seq<File>, b: seq<File>, start: seq<FsEntry>)
    requires AllNamed(a) && AllNamed(b) && AllNamed(a + b)
    ensures Pass2(rule, dir, dirPath, bucketId, a + b, start)
            == Pass2(rule, dir, dirPath, bucketId, b, Pass2(rule, dir, dirPath, bucketId, a, start))
  {
    if b == [] {
      assert a + b == a;
    } else {
      var b' := b[..|b| - 1];
      assert (a + b)[..|a + b| - 1] == a + b';
      AllNamedAppend(a, b');
      Pass2Append(rule, dir, dirPath, bucketId, a, b', start);
    }
  }

  /** The passes over a lone file outside a (non-bucket) directory yield nothing. */
  lemma OutsideFileYieldsNothing(rule: Rule, dir: Dir, dirPath: Path, bucketId: JString, f: File, start: seq<FsEntry>)
    requires !dir.isBucket && f.name.Some? && !StartsWith(Get(f.name.value), dirPath)
    ensures Pass1(dir, dirPath, bucketId, [f]) == []
    ensures Pass2(rule, dir, dirPath, bucketId, [f], start) == start
  {
    assert [f][..0] == [];
  }

  /** Pass 1 and pass 2 over a + [f] + b agree with those over a + b, for f outside. */
  lemma OutsideFilePasses(rule: Rule, dir: Dir, dirPath: Path, bucketId: JString, a: seq<File>, f: File, b: seq<File>, start: seq<FsEntry>)
    requires !dir.isBucket && f.name.Some? && !StartsWith(Get(f.name.value), dirPath)
    requires AllNamed(a) && AllNamed(b)
    ensures AllNamed(a + [f] + b) && AllNamed(a + b)
    ensures Pass1(dir, dirPath, bucketId, a + [f] + b) == Pass1(dir, dirPath, bucketId, a + b)
    ensures Pass2(rule, dir, dirPath, bucketId, a + [f] + b, start) == Pass2(rule, dir, dirPath, bucketId, a + b, start)
  {
    var af := a + [f];
    AllNamedAppend(a, [f]);
    AllNamedAppend(af, b);
    AllNamedAppend(a, b);
    OutsideFileYieldsNothing(rule, dir, dirPath, bucketId, f, Pass2(rule, dir, dirPath, bucketId, a, start));
    Pass1Append(dir, dirPath, bucketId, a, [f]);
    Pass1Append(dir, dirPath, bucketId, af, b);
    Pass1Append(dir, dirPath, bucketId, a, b);
    assert Pass1(dir, dirPath, bucketId, af) == Pass1(dir, dirPath, bucketId, a);
    Pass2Append(rule, dir, dirPath, bucketId, a, [f], start);
    Pass2Append(rule, dir, dirPath, bucketId, af, b, start);
    Pass2Append(rule, dir, dirPath, bucketId, a, b, start);
  }

  /**
   * A file outside a (non-bucket) directory changes nothing in its listing,
   * wherever it sits in the bucket's file list.
   */
  lemma OutsideFileIgnored(rule: Rule, dir: Dir, bucketId: JString, a: seq<File>, f: File, b: seq<File>)
    requires !dir.isBucket && dir.name.Some? && f.name.Some?
    requires !StartsWith(Get(f.name.value), Get(dir.name.value))
    ensures ListDirSpec(rule, dir, FilesReceived(bucketId, a + [f] + b)) == ListDirSpec(rule, dir, FilesReceived(bucketId, a + b))
  {
    var dirPath := Get(dir.name.value);
    if AllNamed(a) && AllNamed(b) {
      var first := Pass1(dir, dirPath, bucketId, a + b);
      OutsideFilePasses(rule, dir, dirPath, bucketId, a, f, b, first);
    } else {
      NotAllNamed(a, f, b);
    }
  }

  /** A null name anywhere in a or b is a null name in a + [f] + b and in a + b. */
  lemma NotAllNamed(a: seq<File>, f: File, b: seq<File>)
    requires !(AllNamed(a) && AllNamed(b))
    ensures !AllNamed(a + [f] + b) && !AllNamed(a + b)
  {
    if !AllNamed(a) {
      var i :| 0 <= i < |a| && a[i].name.None?;
      assert (a + [f] + b)[i] == a[i] && (a + b)[i] == a[i];
    } else {
      var i :| 0 <= i < |b| && b[i].name.None?;
      assert (a + [f] + b)[|a| + 1 + i] == b[i] && (a + b)[|a| + i] == b[i];
    }
  }

  // ---------------------------------------------------------------------------
  // Examples, and the directory name pass 2 infers below a directory
  // ---------------------------------------------------------------------------

  /** A stored file known only by its name. */
  function NamedFile(name: string): File {
    File(None, Some(name), None, false, 0, None, None, None, None)
  }

  /** A string that joins valid names parses to them, with or without a trailing '/'. */
  lemma ParsesTo(s: string, names: seq<string>)
    requires names != [] && ValidNames(names) && s == Join(names)
    ensures Get(s) == Path(false, names)
    ensures Get(s + "/") == Path(false, names)
  {
    GetToString(Path(false, names));
    assert ToString(Path(false, names)) == s;
  }

  /** Joining two, three or four valid names. */
  lemma JoinSmall(a: string, b: string, c: string, d: string)
    ensures Join([a]) == a
    ensures Join([a, b]) == a + "/" + b
    ensures Join([a, b, c]) == a + "/" + b + "/" + c
    ensures Join([a, b, c, d]) == a + "/" + b + "/" + c + "/" + d
  {
    assert [a, b][1..] == [b];
    assert [a, b, c][1..] == [b, c] && [b, c][1..] == [c];
    assert [a, b, c, d][1..] == [b, c, d] && [b, c, d][1..] == [c, d] && [c, d][1..] == [d];
    assert Join([b, c]) == b + "/" + c;
    assert Join([a, b, c]) == a + "/" + (b + "/" + c);
    assert a + "/" + (b + "/" + c) == a + "/" + b + "/" + c;
    assert Join([c, d]) == c + "/" + d;
    assert Join([b, c, d]) == b + "/" + (c + "/" + d);
    assert b + "/" + (c + "/" + d) == b + "/" + c + "/" + d;
    assert Join([a, b, c, d]) == a + "/" + (b + "/" + c + "/" + d);
    assert a + "/" + (b + "/" + c + "/" + d) == a + "/" + b + "/" + c + "/" + d;
  }

  /** The paths of the bucket example. */
  lemma BucketExamplePaths(x: string, y: string, z: string, z': string, w: string, u: string, v: string)
    requires ValidName(x) && ValidName(y) && ValidName(z) && ValidName(z') && ValidName(w) && ValidName(u) && ValidName(v)
    ensures Get(x).names == [x]
    ensures Get(y + "/" + z).names == [y, z]
    ensures Get(y + "/" + z').names == [y, z']
    ensures Get(w + "/" + u + "/" + v).names == [w, u, v]
  {
    JoinSmall(x, z, z, z);
    JoinSmall(y, z, z, z);
    JoinSmall(y, z', z', z');
    JoinSmall(w, u, v, v);
    assert ValidNames([w, u, v]) by {
      forall i | 0 <= i < 3 ensures ValidName([w, u, v][i]) {
        if i == 2 { assert [w, u, v][i] == v; }
      }
    }
    ParsesTo(x, [x]);
    ParsesTo(y + "/" + z, [y, z]);
    ParsesTo(y + "/" + z', [y, z']);
    ParsesTo(w + "/" + u + "/" + v, [w, u, v]);
  }

  /** The files of the bucket example. */
  function BucketExampleFiles(x: string, y: string, z: string, z': string, w: string, u: string, v: string): seq<File> {
    [NamedFile(x), NamedFile(y + "/" + z), NamedFile(y + "/" + z'), NamedFile(w + "/" + u + "/" + v)]
  }

  /** One more named file: pass 1 keeps it or not. */
  lemma Pass1Snoc(dir: Dir, dirPath: Path, bucketId: JString, s: seq<File>, f: File)
    requires AllNamed(s) && f.name.Some?
    ensures AllNamed(s + [f])
    ensures Pass1(dir, dirPath, bucketId, s + [f])
            == Pass1(dir, dirPath, bucketId, s) + (if Kept(dir, dirPath, f) then [Represent(f, bucketId)] else [])
  {
    assert (s + [f])[..|s|] == s;
  }

  /** One more named file: pass 2 adds what it infers. */
  lemma Pass2Snoc(rule: Rule, dir: Dir, dirPath: Path, bucketId: JString, s: seq<File>, f: File, start: seq<FsEntry>)
    requires AllNamed(s) && f.name.Some?
    ensures AllNamed(s + [f])
    ensures Pass2(rule, dir, dirPath, bucketId, s + [f], start)
            == AddIfMissing(Pass2(rule, dir, dirPath, bucketId, s, start), Inferred(rule, dir, dirPath, f), bucketId)
  {
    assert (s + [f])[..|s|] == s;
  }

  /** Appending '/' keeps different names different. */
  lemma TrailingSlashInjective(y: string, w: string)
    ensures y + "/" == w + "/" ==> y == w
  {
    assert (y + "/")[..|y|] == y && (w + "/")[..|w|] == w;
  }

  /** A name ending in '/' differs from one that does not. */
  lemma SlashNameDiffers(n: string, y: string)
    requires !IsDirectory(n)
    ensures n != y + "/"
  {
    assert (y + "/")[|y|] == '/';
  }

  /**
   * What pass 1 and pass 2 see of the four files of the bucket example, whose
   * paths have the names [x], [y, z], [y, z'] and [w, u, v].
   */
  lemma BucketExampleFacts(dir: Dir, dirPath: Path, bucketId: JString, n0: string, n1: string, n2: string, n3: string,
                           x: string, y: string, z: string, z': string, w: string, u: string, v: string)
    requires dir.isBucket && !IsDirectory(n0)
    requires Get(n0).names == [x] && Get(n1).names == [y, z] && Get(n2).names == [y, z'] && Get(n3).names == [w, u, v]
    ensures Kept(dir, dirPath, NamedFile(n0)) && Represent(NamedFile(n0), bucketId) == FileEntry(NamedFile(n0))
    ensures !Kept(dir, dirPath, NamedFile(n1)) && !Kept(dir, dirPath, NamedFile(n2)) && !Kept(dir, dirPath, NamedFile(n3))
    ensures Inferred(AsWritten, dir, dirPath, NamedFile(n0)) == None
    ensures Inferred(AsWritten, dir, dirPath, NamedFile(n1)) == Some(y + "/")
    ensures Inferred(AsWritten, dir, dirPath, NamedFile(n2)) == Some(y + "/")
    ensures Inferred(AsWritten, dir, dirPath, NamedFile(n3)) == Some(w + "/")
  {
  }

  /** Pass 1 over four named files of which only the first is kept, as a file. */
  lemma FirstOfFourKept(dir: Dir, dirPath: Path, bucketId: JString, f0: File, f1: File, f2: File, f3: File)
    requires f0.name.Some? && f1.name.Some? && f2.name.Some? && f3.name.Some?
    requires Kept(dir, dirPath, f0) && Represent(f0, bucketId) == FileEntry(f0)
    requires !Kept(dir, dirPath, f1) && !Kept(dir, dirPath, f2) && !Kept(dir, dirPath, f3)
    ensures AllNamed([f0, f1, f2, f3])
    ensures Pass1(dir, dirPath, bucketId, [f0, f1, f2, f3]) == [FileEntry(f0)]
  {
    var s1 := [f0];
    var s2 := s1 + [f1];
    var s3 := s2 + [f2];
    var s4 := s3 + [f3];
    assert Pass1(dir, dirPath, bucketId, s1) == [FileEntry(f0)] by {
      assert s1[..0] == [];
    }
    Pass1Snoc(dir, dirPath, bucketId, s1, f1);
    Pass1Snoc(dir, dirPath, bucketId, s2, f2);
    Pass1Snoc(dir, dirPath, bucketId, s3, f3);
    assert s4 == [f0, f1, f2, f3];
  }

  /** A file whose inferred name is not yet listed adds it as a Dir at the end. */
  lemma InferNew(rule: Rule, dir: Dir, dirPath: Path, bucketId: JString, s: seq<File>, f: File, start: seq<FsEntry>, name: string)
    requires AllNamed(s) && f.name.Some? && Inferred(rule, dir, dirPath, f) == Some(name)
    requires !HasName(Pass2(rule, dir, dirPath, bucketId, s, start), name)
    ensures AllNamed(s + [f])
    ensures Pass2(rule, dir, dirPath, bucketId, s + [f], start)
            == Pass2(rule, dir, dirPath, bucketId, s, start) + [DirEntry(NamedDir(name, bucketId))]
  {
    Pass2Snoc(rule, dir, dirPath, bucketId, s, f, start);
  }

  /** A file whose inferred name is already listed, or that infers nothing, adds nothing. */
  lemma InferNothingNew(rule: Rule, dir: Dir, dirPath: Path, bucketId: JString, s: seq<File>, f: File, start: seq<FsEntry>)
    requires AllNamed(s) && f.name.Some?
    requires var d := Inferred(rule, dir, dirPath, f);
             d.None? || HasName(Pass2(rule, dir, dirPath, bucketId, s, start), d.value)
    ensures AllNamed(s + [f])
    ensures Pass2(rule, dir, dirPath, bucketId, s + [f], start) == Pass2(rule, dir, dirPath, bucketId, s, start)
  {
    Pass2Snoc(rule, dir, dirPath, bucketId, s, f, start);
  }

  /** The names in a one-entry start and in that start with y/ appended. */
  lemma InferredOfFourNames(first: seq<FsEntry>, bucketId: JString, y: string, w: string)
    requires |first| == 1 && first[0].Name() != Some(y + "/") && first[0].Name() != Some(w + "/") && y != w
    ensures !HasName(first, y + "/")
    ensures HasName(first + [DirEntry(NamedDir(y + "/", bucketId))], y + "/")
    ensures !HasName(first + [DirEntry(NamedDir(y + "/", bucketId))], w + "/")
  {
    var withY := first + [DirEntry(NamedDir(y + "/", bucketId))];
    TrailingSlashInjective(y, w);
    assert withY[1].Name() == Some(y + "/");
    assert withY[0] == first[0];
  }

  /** Pass 2 over a file inferring nothing and one inferring y/, from a start without y/. */
  lemma InferredOfFirstTwo(dir: Dir, dirPath: Path, bucketId: JString, f0: File, f1: File, first: seq<FsEntry>, y: string)
    requires f0.name.Some? && f1.name.Some? && !HasName(first, y + "/")
    requires Inferred(AsWritten, dir, dirPath, f0) == None && Inferred(AsWritten, dir, dirPath, f1) == Some(y + "/")
    ensures AllNamed([f0, f1])
    ensures Pass2(AsWritten, dir, dirPath, bucketId, [f0, f1], first) == first + [DirEntry(NamedDir(y + "/", bucketId))]
  {
    assert [f0][..0] == [];
    assert Pass2(AsWritten, dir, dirPath, bucketId, [f0], first) == first;
    assert [f0, f1][..1] == [f0];
  }

  /**
   * Pass 2 over four named files inferring nothing, y/, y/ and w/, from a
   * start whose one entry is named by neither: y/ is added once, then w/.
   */
  lemma InferredOfFour(dir: Dir, dirPath: Path, bucketId: JString, f0: File, f1: File, f2: File, f3: File,
                       first: seq<FsEntry>, y: string, w: string)
    requires f0.name.Some? && f1.name.Some? && f2.name.Some? && f3.name.Some?
    requires |first| == 1 && first[0].Name() != Some(y + "/") && first[0].Name() != Some(w + "/") && y != w
    requires Inferred(AsWritten, dir, dirPath, f0) == None
    requires Inferred(AsWritten, dir, dirPath, f1) == Some(y + "/") && Inferred(AsWritten, dir, dirPath, f2) == Some(y + "/")
    requires Inferred(AsWritten, dir, dirPath, f3) == Some(w + "/")
    ensures AllNamed([f0, f1, f2, f3])
    ensures Pass2(AsWritten, dir, dirPath, bucketId, [f0, f1, f2, f3], first)
            == first + [DirEntry(NamedDir(y + "/", bucketId)), DirEntry(NamedDir(w + "/", bucketId))]
  {
    var withY := first + [DirEntry(NamedDir(y + "/", bucketId))];
    InferredOfFourNames(first, bucketId, y, w);
    InferredOfFirstTwo(dir, dirPath, bucketId, f0, f1, first, y);
    InferNothingNew(AsWritten, dir, dirPath, bucketId, [f0, f1], f2, first);
    assert [f0, f1] + [f2] == [f0, f1, f2];
    InferNew(AsWritten, dir, dirPath, bucketId, [f0, f1, f2], f3, first, w + "/");
    assert [f0, f1, f2] + [f3] == [f0, f1, f2, f3];
    assert withY + [DirEntry(NamedDir(w + "/", bucketId))]
           == first + [DirEntry(NamedDir(y + "/", bucketId)), DirEntry(NamedDir(w + "/", bucketId))];
  }

  /** A listing of named files is pass 2 over the entries of pass 1. */
  lemma ListingOfPasses(rule: Rule, dir: Dir, bucketId: JString, files: seq<File>)
    requires dir.name.Some? && AllNamed(files)
    ensures var dirPath := Get(dir.name.value);
            ListDirSpec(rule, dir, FilesReceived(bucketId, files))
            == Entries(Pass2(rule, dir, dirPath, bucketId, files, Pass1(dir, dirPath, bucketId, files)))
  {
  }

  /**
   * At the root of a bucket (of any name) holding the files x, y/z, y/z' and w/u/v (all
   * names valid, y and w different), the listing is the file x, then the
   * directories y/ (once) and w/.
   */
  lemma BucketRootExample(bucketName: string, bucketId: JString, x: string, y: string, z: string, z': string, w: string, u: string, v: string)
    requires ValidName(x) && ValidName(y) && ValidName(z) && ValidName(z') && ValidName(w) && ValidName(u) && ValidName(v)
    requires y != w
    ensures ListDirSpec(AsWritten, Dir(Some(bucketName), bucketId, true), FilesReceived(bucketId, BucketExampleFiles(x, y, z, z', w, u, v)))
            == Entries([FileEntry(NamedFile(x)), DirEntry(NamedDir(y + "/", bucketId)), DirEntry(NamedDir(w + "/", bucketId))])
  {
    var dir := Dir(Some(bucketName), bucketId, true);
    var n0, n1, n2, n3 := x, y + "/" + z, y + "/" + z', w + "/" + u + "/" + v;
    BucketExamplePaths(x, y, z, z', w, u, v);
    assert x[|x| - 1] != '/';
    BucketExampleFacts(dir, Get(bucketName), bucketId, n0, n1, n2, n3, x, y, z, z', w, u, v);
    var f0, f1, f2, f3 := NamedFile(n0), NamedFile(n1), NamedFile(n2), NamedFile(n3);
    FirstOfFourKept(dir, Get(bucketName), bucketId, f0, f1, f2, f3);
    SlashNameDiffers(n0, y);
    SlashNameDiffers(n0, w);
    InferredOfFour(dir, Get(bucketName), bucketId, f0, f1, f2, f3, [FileEntry(f0)], y, w);
    assert BucketExampleFiles(x, y, z, z', w, u, v) == [f0, f1, f2, f3];
    ListingOfPasses(AsWritten, dir, bucketId, [f0, f1, f2, f3]);
  }

  /** The paths of the level-skipping example. */
  lemma SkipExamplePaths(a: string, b: string, c: string, d: string)
    requires ValidName(a) && ValidName(b) && ValidName(c) && ValidName(d)
    ensures Get(a + "/") == Path(false, [a])
    ensures Get(a + "/" + b + "/" + c + "/" + d) == Path(false, [a, b, c, d])
    ensures Get(a + "/" + b + "/" + c + "/") == Path(false, [a, b, c])
    ensures ToString(Path(false, [a, b, c])) + "/" == a + "/" + b + "/" + c + "/"
    ensures ToString(Path(false, [a, b])) + "/" == a + "/" + b + "/"
  {
    JoinSmall(a, b, c, d);
    assert ValidNames([a]) && ValidNames([a, b]);
    assert ValidNames([a, b, c]) by {
      forall i | 0 <= i < 3 ensures ValidName([a, b, c][i]) {
        if i == 2 { assert [a, b, c][i] == c; }
      }
    }
    assert ValidNames([a, b, c, d]) by {
      forall i | 0 <= i < 4 ensures ValidName([a, b, c, d][i]) {
        if i == 2 { assert [a, b, c, d][i] == c; }
        if i == 3 { assert [a, b, c, d][i] == d; }
      }
    }
    ParsesTo(a, [a]);
    ParsesTo(a + "/" + b + "/" + c + "/" + d, [a, b, c, d]);
    ParsesTo(a + "/" + b + "/" + c, [a, b, c]);
    assert ToString(Path(false, [a, b, c])) == a + "/" + b + "/" + c;
    assert ToString(Path(false, [a, b])) == a + "/" + b;
  }

  /**
   * Below the directory [a], a file with the names [a, b, c, d] is no direct
   * child; as written it infers the name of [a, b, c], as intended that of [a, b].
   */
  lemma SkipExampleInferred(dir: Dir, f: File, a: string, b: string, c: string, d: string)
    requires !dir.isBucket && f.name.Some? && Get(f.name.value) == Path(false, [a, b, c, d])
    ensures !Kept(dir, Path(false, [a]), f)
    ensures Inferred(AsWritten, dir, Path(false, [a]), f) == Some(ToString(Path(false, [a, b, c])) + "/")
    ensures Inferred(Intended, dir, Path(false, [a]), f) == Some(ToString(Path(false, [a, b])) + "/")
  {
    var names := [a, b, c, d];
    assert names[..1] == [a] && names[..2] == [a, b] && names[..3] == [a, b, c];
  }

  /** The passes over one file that is no direct child: pass 2 adds just the directory it infers. */
  lemma LoneInferredFile(rule: Rule, dir: Dir, dirPath: Path, bucketId: JString, f: File)
    requires f.name.Some? && !Kept(dir, dirPath, f) && Inferred(rule, dir, dirPath, f).Some?
    ensures AllNamed([f]) && Pass1(dir, dirPath, bucketId, [f]) == []
    ensures Pass2(rule, dir, dirPath, bucketId, [f], []) == [DirEntry(NamedDir(Inferred(rule, dir, dirPath, f).value, bucketId))]
  {
    assert [f][..0] == [];
  }

  /**
   * As written, listing the directory a/ over the single file a/b/c/d yields
   * the directory a/b/c/, which is not a direct child of a/; the intended rule
   * yields a/b/.
   */
  lemma AsWrittenSkipsLevels(bucketId: JString, a: string, b: string, c: string, d: string)
    requires ValidName(a) && ValidName(b) && ValidName(c) && ValidName(d)
    ensures ListDirSpec(AsWritten, NamedDir(a + "/", bucketId), FilesReceived(bucketId, [NamedFile(a + "/" + b + "/" + c + "/" + d)]))
            == Entries([DirEntry(NamedDir(a + "/" + b + "/" + c + "/", bucketId))])
    ensures !DirectChild(NamedDir(a + "/", bucketId), Get(a + "/"), Get(a + "/" + b + "/" + c + "/"))
    ensures ListDirSpec(Intended, NamedDir(a + "/", bucketId), FilesReceived(bucketId, [NamedFile(a + "/" + b + "/" + c + "/" + d)]))
            == Entries([DirEntry(NamedDir(a + "/" + b + "/", bucketId))])
  {
    var dir := NamedDir(a + "/", bucketId);
    var f := NamedFile(a + "/" + b + "/" + c + "/" + d);
    SkipExamplePaths(a, b, c, d);
    SkipExampleInferred(dir, f, a, b, c, d);
    LoneInferredFile(AsWritten, dir, Path(false, [a]), bucketId, f);
    LoneInferredFile(Intended, dir, Path(false, [a]), bucketId, f);
  }

  /** In a bucket, the intended (and written) name, first name plus '/', is a direct child. */
  lemma BucketInferredIsDirectChild(dir: Dir, dirPath: Path, filePath: Path)
    requires dir.isBucket && ValidNames(filePath.names) && |filePath.names| > 1
    ensures var n := filePath.names[0] + "/";
            IsDirectory(n) && DirectChild(dir, dirPath, Get(n))
  {
    var x := filePath.names[0];
    assert ValidNames([x]);
    GetToString(Path(false, [x]));
    assert ToString(Path(false, [x])) == x;
  }

  /** Below a directory, the intended name, the directory's path plus the next name and '/', is a direct child. */
  lemma BelowInferredIsDirectChild(dir: Dir, dirPath: Path, filePath: Path)
    requires !dir.isBucket && ValidNames(filePath.names)
    requires StartsWith(filePath, dirPath) && |filePath.names| > |dirPath.names| + 1
    ensures var n := ToString(Path(filePath.absolute, filePath.names[..|dirPath.names| + 1])) + "/";
            IsDirectory(n) && DirectChild(dir, dirPath, Get(n))
  {
    var m := |dirPath.names|;
    var p := Path(filePath.absolute, filePath.names[..m + 1]);
    assert ValidNames(p.names);
    GetToString(p);
    assert p.names[..m] == filePath.names[..m];
  }

  /**
   * With the intended rule, every directory name pass 2 infers ends with '/'
   * and names a direct child of the listed directory, in a bucket or below a
   * (non-empty) directory.
   */
  lemma IntendedIsDirectChild(dir: Dir, dirName: string, filePath: Path)
    requires dir.name == Some(dirName) && dirName != ""
    requires ValidNames(filePath.names)
    requires SynthesizedName(Intended, dir, Get(dirName), filePath).Some?
    ensures var n := SynthesizedName(Intended, dir, Get(dirName), filePath).value;
            IsDirectory(n) && DirectChild(dir, Get(dirName), Get(n))
  {
    if dir.isBucket {
      BucketInferredIsDirectChild(dir, Get(dirName), filePath);
    } else {
      BelowInferredIsDirectChild(dir, Get(dirName), filePath);
    }
  }

  /** A file name parsed by Paths.get has valid names, so the lemma above covers every listed file. */
  lemma IntendedListingIsDirectChildren(dir: Dir, bucketId: JString, files: seq<File>)
    requires dir.name.Some? && dir.name.value != ""
    requires forall i :: 0 <= i < |files| ==> files[i].name.Some? && files[i].name.value != ""
    ensures var dirPath := Get(dir.name.value);
            var first := Pass1(dir, dirPath, bucketId, files);
            var r := Pass2(Intended, dir, dirPath, bucketId, files, first);
            forall k :: |first| <= k < |r| ==>
              r[k].DirEntry? && r[k].dir.name.Some? && IsDirectory(r[k].dir.name.value) && DirectChild(dir, dirPath, Get(r[k].dir.name.value))
  {
    var dirPath := Get(dir.name.value);
    var first := Pass1(dir, dirPath, bucketId, files);
    Pass2Sound(Intended, dir, dirPath, bucketId, files, first);
    forall i | 0 <= i < |files| && Inferred(Intended, dir, dirPath, files[i]).Some?
      ensures var n := Inferred(Intended, dir, dirPath, files[i]).value;
              IsDirectory(n) && DirectChild(dir, dirPath, Get(n))
    {
      IntendedIsDirectChild(dir, dir.name.value, Get(files[i].name.value));
    }
  }
}
