/**
 * Bucket: a top-level container. The constructor stores id, name, created and
 * decrypted unchanged, and getId, getName, getCreated and isDecrypted are the
 * datatype's fields.
 */
module Buckets {
  import opened Wrappers
  import opened JavaLang

  datatype Bucket = Bucket(id: JString, name: JString, created: JString, decrypted: bool) {

    /** hashCode(): Objects.hash(id), so it depends on the id alone. */
    function HashCode(): (h: int)
      ensures IsInt32(h)
    {
      ObjectsHash(id)
    }

    /** equals(o): true for this object, false for a non-Bucket, else the ids are Objects.equals. */
    function Equals(o: Arg<Bucket>): (r: bool)
      ensures r <==> o.Itself? || (o.Instance? && o.value.id == id)
    {
      EqualsById(id, MapArg(o, (b: Bucket) => b.id))
    }

    /** compareTo(other): name.compareTo(other.name); None when a name is null. */
    function CompareTo(other: Bucket): (r: Option<int>)
      ensures r.None? <==> name.None? || other.name.None?
      ensures r.Some? ==> (r.value == 0 <==> name == other.name)
    {
      NameCompareTo(name, other.name)
    }
  }

  /** Equality of buckets is an equivalence, and equal buckets have equal hash codes. */
  lemma EqualsIsEquivalence(a: Bucket, b: Bucket, c: Bucket)
    ensures a.Equals(Itself) && a.Equals(Instance(a))
    ensures a.Equals(Instance(b)) == b.Equals(Instance(a))
    ensures a.Equals(Instance(b)) && b.Equals(Instance(c)) ==> a.Equals(Instance(c))
    ensures a.Equals(Instance(b)) ==> a.HashCode() == b.HashCode()
  {
    EqualsByIdIsEquivalence(a.id, b.id, c.id);
  }

  /** compareTo is antisymmetric: swapping the buckets negates the result. */
  lemma CompareToAntisymmetric(a: Bucket, b: Bucket)
    ensures a.CompareTo(b).Some? <==> b.CompareTo(a).Some?
    ensures a.CompareTo(b).Some? ==> a.CompareTo(b).value == -b.CompareTo(a).value
  {
    NameCompareToAntisymmetric(a.name, b.name);
  }
}
