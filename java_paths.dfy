/**
 * java.nio.file.Path on the default (Unix) file system, as far as the
 * directory synthesizer and the session paths use it: Paths.get, getNameCount,
 * getName, subpath, startsWith, getFileName, resolve and toString.
 */
module JavaPaths {
  import opened Wrappers

  /** A path: whether it starts at the root "/", and its name elements. */
  datatype Path = Path(absolute: bool, names: seq<string>)

  /** Paths.get(""): the empty path, which has one name, the empty name. */
  const EmptyPath := Path(false, [""])

  /** A name element of a path parsed from a non-empty string. */
  predicate ValidName(x: string) {
    x != "" && '/' !in x
  }

  predicate ValidNames(xs: seq<string>) {
    forall i :: 0 <= i < |xs| ==> ValidName(xs[i])
  }

  /** The index of the first '/' in s, or |s| when there is none. */
  function SlashIndex(s: string): (k: nat)
    ensures k <= |s|
    ensures k < |s| ==> s[k] == '/'
    ensures forall i :: 0 <= i < k ==> s[i] != '/'
  {
    if s == [] || s[0] == '/' then 0 else 1 + SlashIndex(s[1..])
  }

  /** The '/'-separated segments of s with the empty ones dropped. */
  function Segments(s: string): (r: seq<string>)
    ensures ValidNames(r)
    decreases |s|
  {
    if s == [] then []
    else
      var k := SlashIndex(s);
      (if k == 0 then [] else [s[..k]]) + (if k == |s| then [] else Segments(s[k + 1..]))
  }

  /**
   * Paths.get(s): the empty string is the empty path; otherwise a leading '/'
   * makes the path absolute and empty segments (redundant or trailing '/') are
   * dropped, so "b/" and "b" both have the one name "b".
   */
  function Get(s: string): (p: Path)
    ensures s != "" ==> ValidNames(p.names)
  {
    if s == "" then EmptyPath else Path(s[0] == '/', Segments(s))
  }

  /** The names joined by '/'. */
  function Join(xs: seq<string>): string {
    if xs == [] then "" else if |xs| == 1 then xs[0] else xs[0] + "/" + Join(xs[1..])
  }

  /** Path.toString(); the subpath of the first k names is Path(false, names[..k]). */
  function ToString(p: Path): string {
    (if p.absolute then "/" else "") + Join(p.names)
  }

  /** Path.startsWith(other): same root, and other's names are a prefix of the names. */
  predicate StartsWith(p: Path, other: Path) {
    p.absolute == other.absolute && |other.names| <= |p.names| && p.names[..|other.names|] == other.names
  }

  /** Path.getFileName(): the last name, or None (null) for the root, which has no names. */
  function FileName(p: Path): (r: Option<string>)
    ensures r.None? <==> p.names == []
    ensures r.Some? ==> r.value == p.names[|p.names| - 1]
  {
    if p.names == [] then None else Some(p.names[|p.names| - 1])
  }

  /**
   * Path.resolve(other): an absolute other replaces the base, an empty other
   * yields the base, an empty base yields other, otherwise other's names are
   * appended to the base.
   */
  function Resolve(base: Path, other: Path): (r: Path)
    ensures !other.absolute && other != EmptyPath && base != EmptyPath ==>
              r.absolute == base.absolute && r.names == base.names + other.names
    ensures other.absolute ==> r == other
  {
    if other.absolute then other
    else if other == EmptyPath then base
    else if base == EmptyPath then other
    else Path(base.absolute, base.names + other.names)
  }

  lemma {:induction false} SlashIndexAppend(a: string, r: string)
    requires '/' !in a
    ensures SlashIndex(a + r) == |a| + SlashIndex(r)
  {
    if a != [] {
      assert (a + r)[1..] == a[1..] + r;
      SlashIndexAppend(a[1..], r);
    } else {
      assert a + r == r;
    }
  }

  /** A trailing '/' adds no name. */
  lemma {:induction false} SegmentsTrailingSlash(s: string)
    ensures Segments(s + "/") == Segments(s)
    decreases |s|
  {
    var t := s + "/";
    if s == [] {
      assert SlashIndex(t) == 0;
      assert t[1..] == [];
    } else {
      var k := SlashIndex(s);
      if k < |s| {
        assert SlashIndex(t) == k by {
          assert forall i :: 0 <= i < k ==> t[i] == s[i];
          assert t[k] == '/';
          SlashIndexUpTo(t, k);
        }
        assert t[..k] == s[..k];
        assert t[k + 1..] == s[k + 1..] + "/";
        SegmentsTrailingSlash(s[k + 1..]);
      } else {
        assert '/' !in s;
        SlashIndexAppend(s, "/");
        assert SlashIndex(t) == |s|;
        assert t[..|s|] == s;
        assert t[|s| + 1..] == [];
        assert s[..|s|] == s;
        assert Segments(t) == [s];
      }
    }
  }

  lemma {:induction false} SlashIndexUpTo(t: string, k: nat)
    requires k < |t| && t[k] == '/'
    requires forall i :: 0 <= i < k ==> t[i] != '/'
    ensures SlashIndex(t) == k
  {
    if k > 0 {
      SlashIndexUpTo(t[1..], k - 1);
    }
  }

  /** A single valid name is its own only segment. */
  lemma SegmentsOfName(x: string)
    requires ValidName(x)
    ensures Segments(x) == [x]
  {
    SlashIndexAppend(x, "");
    assert x + "" == x;
    assert x[..|x|] == x;
  }

  /** A valid name followed by '/' contributes exactly that name. */
  lemma SegmentsOfCons(x: string, rest: string)
    requires ValidName(x)
    ensures Segments(x + "/" + rest) == [x] + Segments(rest)
  {
    var s := x + "/" + rest;
    assert s == x + ("/" + rest);
    SlashIndexAppend(x, "/" + rest);
    assert SlashIndex(s) == |x|;
    assert s[..|x|] == x;
    assert s[|x| + 1..] == rest;
  }

  /** Splitting the join of valid names gives the names back. */
  lemma {:induction false} SegmentsOfJoin(xs: seq<string>)
    requires xs != [] && ValidNames(xs)
    ensures Segments(Join(xs)) == xs
    ensures Join(xs) != "" && Join(xs)[0] == xs[0][0]
  {
    if |xs| == 1 {
      SegmentsOfName(xs[0]);
    } else {
      assert ValidName(xs[0]);
      SegmentsOfCons(xs[0], Join(xs[1..]));
      SegmentsOfJoin(xs[1..]);
      assert xs == [xs[0]] + xs[1..];
    }
  }

  /**
   * Round trip: a path whose names are valid and which is not the empty
   * relative path prints to a string that Paths.get parses back to it, with or
   * without a trailing '/'.
   */
  lemma GetToString(p: Path)
    requires ValidNames(p.names)
    requires p.names != [] || p.absolute
    ensures Get(ToString(p)) == p
    ensures Get(ToString(p) + "/") == p
  {
    var s := ToString(p);
    if p.names != [] {
      SegmentsOfJoin(p.names);
    }
    if p.absolute {
      assert s == "/" + Join(p.names);
      assert Segments(s) == Segments(Join(p.names)) by {
        assert SlashIndex(s) == 0;
        assert s[1..] == Join(p.names);
      }
      assert (s + "/")[0] == '/';
      assert Segments(s + "/") == Segments(Join(p.names) + "/") by {
        assert SlashIndex(s + "/") == 0;
        assert (s + "/")[1..] == Join(p.names) + "/";
      }
      SegmentsTrailingSlash(Join(p.names));
      if p.names == [] {
        assert Join(p.names) == "";
        assert Segments("") == [];
      }
    } else {
      assert s == Join(p.names);
      assert (s + "/")[0] == s[0];
      SegmentsTrailingSlash(s);
    }
  }
}
