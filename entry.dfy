/**
 * Entry: the metadata a bucket or a file carries. The constructor stores id,
 * name, created and decrypted unchanged, and getId, getName, getCreated and
 * isDecrypted are the datatype's fields.
 */
module Entries {
  import opened Wrappers
  import opened JavaLang
  import JavaPaths

  datatype Entry = Entry(id: JString, name: JString, created: JString, decrypted: bool) {

    /**
     * getSimpleName(): the file name of Paths.get(name), that is the last
     * non-empty '/'-segment. None stands for the NullPointerException thrown
     * for a null name or for a name made only of '/' (the root has no file name).
     */
    function SimpleName(): (r: Option<string>)
      ensures r.None? <==> name.None? || JavaPaths.Get(name.value).names == []
      ensures r.Some? ==> '/' !in r.value
    {
      if name.None? then None else JavaPaths.FileName(JavaPaths.Get(name.value))
    }

    /** hashCode(): Objects.hash(id), so it depends on the id alone. */
    function HashCode(): (h: int)
      ensures IsInt32(h)
    {
      ObjectsHash(id)
    }

    /** equals(o): true for this object, false for a non-Entry, else the ids are Objects.equals. */
    function Equals(o: Arg<Entry>): (r: bool)
      ensures r <==> o.Itself? || (o.Instance? && o.value.id == id)
    {
      EqualsById(id, MapArg(o, (e: Entry) => e.id))
    }

    /** compareTo(other): name.compareTo(other.name); None when a name is null. */
    function CompareTo(other: Entry): (r: Option<int>)
      ensures r.None? <==> name.None? || other.name.None?
      ensures r.Some? ==> (r.value == 0 <==> name == other.name)
    {
      NameCompareTo(name, other.name)
    }
  }

  /** The simple name of a '/'-joined path, with or without a trailing '/', is its last segment. */
  lemma SimpleNameIsLastSegment(e: Entry, segments: seq<string>)
    requires segments != [] && JavaPaths.ValidNames(segments)
    requires e.name == Some(JavaPaths.Join(segments)) || e.name == Some(JavaPaths.Join(segments) + "/")
    ensures e.SimpleName() == Some(segments[|segments| - 1])
  {
    var p := JavaPaths.Path(false, segments);
    JavaPaths.GetToString(p);
    assert JavaPaths.ToString(p) == JavaPaths.Join(segments);
  }

  /** getSimpleName of "a/b/c" is "c", and of "a/b/" it is "b". */
  lemma SimpleNameExamples(id: JString)
    ensures Entry(id, Some("a/b/c"), None, true).SimpleName() == Some("c")
    ensures Entry(id, Some("a/b/"), None, true).SimpleName() == Some("b")
  {
    assert JavaPaths.Join(["a", "b", "c"]) == "a/b/c";
    assert JavaPaths.Join(["a", "b"]) + "/" == "a/b/";
    SimpleNameIsLastSegment(Entry(id, Some("a/b/c"), None, true), ["a", "b", "c"]);
    SimpleNameIsLastSegment(Entry(id, Some("a/b/"), None, true), ["a", "b"]);
  }

  /** Equality of entries is an equivalence, and equal entries have equal hash codes. */
  lemma EqualsIsEquivalence(a: Entry, b: Entry, c: Entry)
    ensures a.Equals(Itself) && a.Equals(Instance(a))
    ensures a.Equals(Instance(b)) == b.Equals(Instance(a))
    ensures a.Equals(Instance(b)) && b.Equals(Instance(c)) ==> a.Equals(Instance(c))
    ensures a.Equals(Instance(b)) ==> a.HashCode() == b.HashCode()
  {
    EqualsByIdIsEquivalence(a.id, b.id, c.id);
  }

  /** compareTo is antisymmetric: swapping the entries negates the result. */
  lemma CompareToAntisymmetric(a: Entry, b: Entry)
    ensures a.CompareTo(b).Some? <==> b.CompareTo(a).Some?
    ensures a.CompareTo(b).Some? ==> a.CompareTo(b).value == -b.CompareTo(a).value
  {
    NameCompareToAntisymmetric(a.name, b.name);
  }

  /** compareTo is transitive on entries with names. */
  lemma CompareToTransitive(a: Entry, b: Entry, c: Entry)
    requires a.CompareTo(b).Some? && a.CompareTo(b).value < 0
    requires b.CompareTo(c).Some? && b.CompareTo(c).value < 0
    ensures a.CompareTo(c).Some? && a.CompareTo(c).value < 0
  {
    JavaLang.CompareToTransitive(a.name.value, b.name.value, c.name.value);
  }
}
