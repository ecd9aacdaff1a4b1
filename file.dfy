/**
 * File: the metadata of one stored file. The constructor stores its nine
 * arguments unchanged, and getId, getName, getCreated, isDecrypted, getSize,
 * getErasure, getIndex and getHMAC are the datatype's fields. A File is
 * immutable, so no getter changes it.
 */
module Files {
  import opened Wrappers
  import opened JavaLang

  datatype File = File(
    id: JString,
    name: JString,
    created: JString,
    decrypted: bool,
    size: Int64,
    mimeType: JString,
    erasure: JString,
    index: JString,
    hmac: JString)
  {
    /**
     * getMimeType(): the type guessed from the name when the guess is neither
     * null nor empty, otherwise the stored mimeType. The guess is the foreign
     * URLConnection.guessContentTypeFromName, passed in.
     */
    function MimeType(guessFromName: JString -> JString): (r: JString)
      ensures r == guessFromName(name) || r == mimeType
      ensures r != mimeType ==> r.Some? && r.value != ""
      ensures r == Some("") ==> mimeType == Some("")
    {
      var mime := guessFromName(name);
      if mime.None? || mime.value == "" then mimeType else mime
    }

    /** hashCode(): Objects.hash(id), so it depends on the id alone. */
    function HashCode(): (h: int)
      ensures IsInt32(h)
    {
      ObjectsHash(id)
    }

    /** equals(o): true for this object, false for a non-File, else the ids are Objects.equals. */
    function Equals(o: Arg<File>): (r: bool)
      ensures r <==> o.Itself? || (o.Instance? && o.value.id == id)
    {
      EqualsById(id, MapArg(o, (f: File) => f.id))
    }

    /** compareTo(other): name.compareTo(other.name); None when a name is null. */
    function CompareTo(other: File): (r: Option<int>)
      ensures r.None? <==> name.None? || other.name.None?
      ensures r.Some? ==> (r.value == 0 <==> name == other.name)
    {
      NameCompareTo(name, other.name)
    }
  }

  /** A usable guess wins, and the stored type is the fallback for a null or empty guess. */
  lemma MimeTypePrefersGuess(f: File, guessFromName: JString -> JString)
    ensures var g := guessFromName(f.name);
      (g.Some? && g.value != "" ==> f.MimeType(guessFromName) == g) &&
      (g.None? || g == Some("") ==> f.MimeType(guessFromName) == f.mimeType)
  {
  }

  /** Equality of files is an equivalence, and equal files have equal hash codes. */
  lemma EqualsIsEquivalence(a: File, b: File, c: File)
    ensures a.Equals(Itself) && a.Equals(Instance(a))
    ensures a.Equals(Instance(b)) == b.Equals(Instance(a))
    ensures a.Equals(Instance(b)) && b.Equals(Instance(c)) ==> a.Equals(Instance(c))
    ensures a.Equals(Instance(b)) ==> a.HashCode() == b.HashCode()
  {
    EqualsByIdIsEquivalence(a.id, b.id, c.id);
  }

  /** compareTo is antisymmetric: swapping the files negates the result. */
  lemma CompareToAntisymmetric(a: File, b: File)
    ensures a.CompareTo(b).Some? <==> b.CompareTo(a).Some?
    ensures a.CompareTo(b).Some? ==> a.CompareTo(b).value == -b.CompareTo(a).value
  {
    NameCompareToAntisymmetric(a.name, b.name);
  }
}
