// Storage paths taken apart again: segments, the namespace of a path, the cache
// key of a path, and the path the informer makes up for a cache key.
module Paths {
  import opened Options
  import opened Text
  import opened Storage

  /** `split('/')`. */
  function Pieces(s: string): (r: seq<string>)
    ensures |r| > 0
  {
    if s == "" then [""] else
      var rest := Pieces(s[1..]);
      if s[0] == '/' then [""] + rest else [[s[0]] + rest[0]] + rest[1..]
  }

  function NonEmpty(xs: seq<string>): seq<string> {
    if xs == [] then [] else (if xs[0] == "" then [] else [xs[0]]) + NonEmpty(xs[1..])
  }

  function StripRegistry(path: string): string {
    if "/registry/" <= path then path[10..] else path
  }

  /** The non-empty segments below `/registry/`. */
  function Segments(path: string): seq<string> {
    NonEmpty(Pieces(StripRegistry(path)))
  }

  function NamespaceOfPath(path: string, group: string): Option<string> {
    var all := Segments(path);
    if group != "" && all == [] then None else
      var segs := if group == "" then all else all[1..];
      if |segs| == 3 then Some(segs[1]) else None
  }

  function KeyFromPath(path: string): string {
    var segs := Segments(path);
    var n := |segs|;
    if n == 0 then "" else if n == 1 then segs[0] else segs[n - 2] + "/" + segs[n - 1]
  }

  /** `Informer::synthetic_path`. */
  function SyntheticPath(prefix: KeyPrefix, objKey: string): string {
    var pieces := Pieces(objKey);
    prefix.AsPath() + "/" + if prefix.namespace.Some? then pieces[|pieces| - 1] else objKey
  }

  lemma {:induction false} PiecesOfSegment(a: string)
    requires '/' !in a
    ensures Pieces(a) == [a]
  {
    if a != "" {
      PiecesOfSegment(a[1..]);
      assert a[0] in a && [a[0]] + a[1..] == a;
    }
  }

  lemma {:induction false} PiecesOfJoin(a: string, s: string)
    requires '/' !in a
    ensures Pieces(a + "/" + s) == [a] + Pieces(s)
  {
    var whole := a + "/" + s;
    if a == "" {
      assert whole[1..] == s;
    } else {
      assert whole[1..] == a[1..] + "/" + s;
      PiecesOfJoin(a[1..], s);
      assert a[0] in a && [a[0]] + a[1..] == a;
      assert ([a[1..]] + Pieces(s))[1..] == Pieces(s);
    }
  }

  lemma NonEmptyStep(a: string, xs: seq<string>)
    requires a != ""
    ensures NonEmpty([a] + xs) == [a] + NonEmpty(xs)
  {
  }

  /** Segments joined with slashes come apart into themselves. */
  lemma {:induction false} PiecesOfSegments(segs: seq<string>)
    requires segs != [] && forall i :: 0 <= i < |segs| ==> IsSegment(segs[i])
    ensures Pieces(Join(segs)) == segs && NonEmpty(segs) == segs
  {
    NonEmptyStep(segs[0], segs[1..]);
    assert segs == [segs[0]] + segs[1..];
    if |segs| == 1 {
      PiecesOfSegment(segs[0]);
    } else {
      PiecesOfJoin(segs[0], Join(segs[1..]));
      PiecesOfSegments(segs[1..]);
    }
  }

  /** The segments of a key's path, outermost first. */
  function KeySegments(key: Key): seq<string> {
    (if key.group == "" then [] else [key.group]) + [key.resource]
    + (if key.namespace == "" then [] else [key.namespace]) + [key.name]
  }

  predicate WellFormedKey(key: Key) {
    && (key.group != "" ==> IsSegment(key.group)) && IsSegment(key.resource)
    && (key.namespace != "" ==> IsSegment(key.namespace)) && IsSegment(key.name)
  }

  lemma JoinStep(a: string, rest: seq<string>)
    requires rest != []
    ensures Join([a] + rest) == a + "/" + Join(rest)
  {
  }

  lemma PathIsJoin(key: Key)
    ensures key.AsPath() == "/registry/" + Join(KeySegments(key))
  {
    var tail := (if key.namespace == "" then [] else [key.namespace]) + [key.name];
    if key.namespace == "" {
      assert tail == [key.name];
    } else {
      JoinStep(key.namespace, [key.name]);
    }
    JoinStep(key.resource, tail);
    assert [key.resource] + tail == [key.resource] + (if key.namespace == "" then [] else [key.namespace]) + [key.name];
    if key.group == "" {
      assert KeySegments(key) == [key.resource] + tail;
    } else {
      JoinStep(key.group, [key.resource] + tail);
      assert KeySegments(key) == [key.group] + ([key.resource] + tail);
    }
  }

  /** A path comes apart into the segments of its key. */
  lemma SegmentsOfPath(key: Key)
    requires WellFormedKey(key)
    ensures Segments(key.AsPath()) == KeySegments(key)
  {
    PathIsJoin(key);
    var path := key.AsPath();
    assert path[..10] == "/registry/" && path[10..] == Join(KeySegments(key));
    PiecesOfSegments(KeySegments(key));
  }

  /**
   * The namespace of a path is its key's, none for a cluster-scoped key; the
   * cache key of a path is `namespace/name`, and `resource/name` where there is
   * no namespace.
   */
  lemma PathComesApart(key: Key)
    requires WellFormedKey(key)
    ensures NamespaceOfPath(key.AsPath(), key.group) == if key.namespace == "" then None else Some(key.namespace)
    ensures KeyFromPath(key.AsPath()) == (if key.namespace == "" then key.resource else key.namespace) + "/" + key.name
  {
    SegmentsOfPath(key);
  }

  /** Distinct well-formed keys of one resource have distinct paths. */
  lemma PathsAreDistinct(a: Key, b: Key)
    requires WellFormedKey(a) && WellFormedKey(b) && a.group == b.group && a.resource == b.resource
    requires a.AsPath() == b.AsPath()
    ensures a == b
  {
    SegmentsOfPath(a);
    SegmentsOfPath(b);
    assert |KeySegments(a)| == |KeySegments(b)|;
    assert KeySegments(a)[|KeySegments(a)| - 1] == KeySegments(b)[|KeySegments(b)| - 1];
    assert a.namespace != "" ==> KeySegments(a)[|KeySegments(a)| - 2] == KeySegments(b)[|KeySegments(b)| - 2];
  }

  /**
   * The made-up path of a removed cache key leads back to that key when the key
   * is `namespace/name`; a bare key comes back as `resource/name`.
   */
  lemma SyntheticPathComesBack(prefix: KeyPrefix, namespace: string, name: string)
    requires prefix.WellFormed() && IsSegment(namespace) && IsSegment(name)
    requires prefix.namespace.Some? ==> prefix.namespace.value == namespace
    ensures
      var key := Key(prefix.group, prefix.resource, namespace, name);
      SyntheticPath(prefix, namespace + "/" + name) == key.AsPath()
    ensures KeyFromPath(SyntheticPath(prefix, namespace + "/" + name)) == namespace + "/" + name
    ensures prefix.namespace.None? ==> KeyFromPath(SyntheticPath(prefix, name)) == prefix.resource + "/" + name
  {
    hide Pieces, NamespaceOfPath, KeyFromPath;
    PathComesApart(Key(prefix.group, prefix.resource, namespace, name));
    PathComesApart(Key(prefix.group, prefix.resource, "", name));
    assert Pieces(namespace + "/" + name) == [namespace, name] by {
      PiecesOfJoin(namespace, name);
      PiecesOfSegment(name);
    }
    assert SyntheticPath(prefix, namespace + "/" + name) == prefix.Base() + "/" + namespace + "/" + name;
  }

  /**
   * Any path under the registry, key or not: it shows a namespace exactly if
   * there are three segments below the group, and its cache key is its last
   * two segments, or the one there is.
   */
  lemma AnyPathComesApart(segs: seq<string>, group: string)
    requires segs != [] && forall i :: 0 <= i < |segs| ==> IsSegment(segs[i])
    ensures
      var path, n := "/registry/" + Join(segs), |segs|;
      var below := if group == "" then segs else segs[1..];
      && NamespaceOfPath(path, group) == (if |below| == 3 then Some(below[1]) else None)
      && KeyFromPath(path) == if n == 1 then segs[0] else segs[n - 2] + "/" + segs[n - 1]
  {
    var path := "/registry/" + Join(segs);
    assert path[..10] == "/registry/" && path[10..] == Join(segs);
    PiecesOfSegments(segs);
  }
}
