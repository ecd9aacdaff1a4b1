/**
 * The pieces of java.lang and java.util.Objects that the entry classes rely on:
 * nullable strings, int arithmetic, String.hashCode, Objects.hash, Objects.equals,
 * String.compareTo and the shape of an equals(Object) argument.
 */
module JavaLang {
  import opened Wrappers

  /** A java.lang.String reference: None is null. */
  type JString = Option<string>

  const TwoTo32: int := 0x1_0000_0000

  predicate IsInt32(x: int) {
    -0x8000_0000 <= x < 0x8000_0000
  }

  /** A Java long. */
  type Int64 = x: int | -0x8000_0000_0000_0000 <= x < 0x8000_0000_0000_0000

  /** Java int arithmetic: the value reduced modulo 2^32 into the signed range. */
  function Int32(x: int): (r: int)
    ensures IsInt32(r)
    ensures (x - r) % TwoTo32 == 0
    ensures IsInt32(x) ==> r == x
  {
    var m := x % TwoTo32;
    if m >= 0x8000_0000 then m - TwoTo32 else m
  }

  /**
   * String.hashCode: h = 31 * h + c over the chars, in int arithmetic.
   * Chars are taken as their code points, which are the UTF-16 code units for
   * characters of the Basic Multilingual Plane.
   */
  function StringHashCode(s: string): (h: int)
    ensures IsInt32(h)
    ensures s == [] ==> h == 0
  {
    if s == [] then 0 else Int32(31 * StringHashCode(s[..|s| - 1]) + s[|s| - 1] as int)
  }

  /** Objects.hash(x) with one argument: 31 * 1 + x.hashCode(), taking 0 for null. */
  function ObjectsHash(x: JString): (h: int)
    ensures IsInt32(h)
    ensures x == None ==> h == 31
  {
    Int32(31 + (if x.None? then 0 else StringHashCode(x.value)))
  }

  /** Objects.equals(a, b) on strings: both null, or both non-null and String.equals. */
  function ObjectsEquals(a: JString, b: JString): (r: bool)
    ensures r <==> a == b
  {
    (a.None? && b.None?) || (a.Some? && b.Some? && a.value == b.value)
  }

  /**
   * The argument o of equals(Object o) as the receiver sees it: the receiver
   * itself (o == this), another instance of the receiver's class, or anything
   * else (null or an object of an unrelated class).
   */
  datatype Arg<+T> = Itself | Instance(value: T) | Other

  /** The same argument, with an instance replaced by f of it. */
  function MapArg<T, U>(o: Arg<T>, f: T -> U): (r: Arg<U>)
    ensures r.Itself? <==> o.Itself?
    ensures r.Other? <==> o.Other?
    ensures o.Instance? ==> r == Instance(f(o.value))
  {
    match o
    case Itself => Itself
    case Other => Other
    case Instance(x) => Instance(f(x))
  }

  /**
   * The equals(Object) shared by Entry, File and Bucket: true for the receiver
   * itself, false for a non-instance, otherwise Objects.equals of the ids
   * (two null ids are equal).
   */
  function EqualsById(id: JString, o: Arg<JString>): (r: bool)
    ensures o.Itself? ==> r
    ensures o.Other? ==> !r
    ensures o.Instance? ==> (r <==> id == o.value)
  {
    match o
    case Itself => true
    case Other => false
    case Instance(otherId) => ObjectsEquals(id, otherId)
  }

  /** Equality by id is an equivalence on instances, and equal ids hash alike. */
  lemma EqualsByIdIsEquivalence(a: JString, b: JString, c: JString)
    ensures EqualsById(a, Instance(a))
    ensures EqualsById(a, Instance(b)) == EqualsById(b, Instance(a))
    ensures EqualsById(a, Instance(b)) && EqualsById(b, Instance(c)) ==> EqualsById(a, Instance(c))
    ensures EqualsById(a, Instance(b)) ==> ObjectsHash(a) == ObjectsHash(b)
  {
  }

  /**
   * String.compareTo: at the first index where the strings differ, the
   * difference of the two chars; if one is a prefix of the other, the
   * difference of the lengths.
   */
  function StringCompareTo(a: string, b: string): int
  {
    if a == [] || b == [] then |a| - |b|
    else if a[0] != b[0] then a[0] as int - b[0] as int
    else StringCompareTo(a[1..], b[1..])
  }

  /** compareTo is 0 exactly for equal strings. */
  lemma {:induction false} CompareToZeroIff(a: string, b: string)
    ensures StringCompareTo(a, b) == 0 <==> a == b
  {
    if a != [] && b != [] && a[0] == b[0] {
      CompareToZeroIff(a[1..], b[1..]);
      assert a == [a[0]] + a[1..];
      assert b == [b[0]] + b[1..];
    }
  }

  /** Swapping the operands negates compareTo. */
  lemma {:induction false} CompareToAntisymmetric(a: string, b: string)
    ensures StringCompareTo(a, b) == -StringCompareTo(b, a)
  {
    if a != [] && b != [] && a[0] == b[0] {
      CompareToAntisymmetric(a[1..], b[1..]);
    }
  }

  /** The order compareTo induces is transitive. */
  lemma {:induction false} CompareToTransitive(a: string, b: string, c: string)
    requires StringCompareTo(a, b) < 0 && StringCompareTo(b, c) < 0
    ensures StringCompareTo(a, c) < 0
  {
    if a != [] && b != [] && c != [] && a[0] == b[0] && b[0] == c[0] {
      CompareToTransitive(a[1..], b[1..], c[1..]);
    }
  }

  /**
   * name.compareTo(other.name) on two nullable names: None when either is null
   * (String.compareTo throws NullPointerException), otherwise compareTo.
   */
  function NameCompareTo(name: JString, otherName: JString): (r: Option<int>)
    ensures r.None? <==> name.None? || otherName.None?
    ensures r.Some? ==> (r.value == 0 <==> name == otherName)
  {
    if name.None? || otherName.None? then None
    else
      CompareToZeroIff(name.value, otherName.value);
      Some(StringCompareTo(name.value, otherName.value))
  }

  /** The sign of name comparison flips with its operands. */
  lemma NameCompareToAntisymmetric(a: JString, b: JString)
    ensures NameCompareTo(a, b).Some? <==> NameCompareTo(b, a).Some?
    ensures NameCompareTo(a, b).Some? ==> NameCompareTo(a, b).value == -NameCompareTo(b, a).value
  {
    if a.Some? && b.Some? {
      CompareToAntisymmetric(a.value, b.value);
    }
  }
}
