/** Resource paths of the kernel namespace.  A path is written as a string
    of components, each after a `/`, and handled as the list of its
    non-empty components. */
module Namespace {

  const SEPARATOR: char := '/'

  predicate SlashFree(c: string)
  {
    SEPARATOR !in c
  }

  /** `str::split("/")`: the pieces between separators, empty ones included,
      so a string with k separators has k + 1 pieces. */
  function Pieces(s: string): (ps: seq<string>)
    ensures |ps| >= 1
    ensures forall i :: 0 <= i < |ps| ==> SlashFree(ps[i])
    decreases |s|
  {
    if s == [] then [[]]
    else
      var rest := Pieces(s[1..]);
      if s[0] == SEPARATOR then [[]] + rest
      else [[s[0]] + rest[0]] + rest[1..]
  }

  /** The pieces joined with a separator between each two. */
  function Join(ps: seq<string>): string
    requires |ps| >= 1
  {
    if |ps| == 1 then ps[0] else ps[0] + [SEPARATOR] + Join(ps[1..])
  }

  /** Splitting loses nothing: joining the pieces gives the string back. */
  lemma {:induction false} JoinPieces(s: string)
    ensures Join(Pieces(s)) == s
    decreases |s|
  {
    if s != [] {
      var rest := Pieces(s[1..]);
      JoinPieces(s[1..]);
      if s[0] == SEPARATOR {
        assert Pieces(s)[1..] == rest;
        assert s == [SEPARATOR] + s[1..];
      } else {
        JoinCons(s[0], rest);
        assert s == [s[0]] + s[1..];
      }
    }
  }

  lemma JoinCons(ch: char, ps: seq<string>)
    requires |ps| >= 1
    ensures Join([[ch] + ps[0]] + ps[1..]) == [ch] + Join(ps)
  {
    var qs := [[ch] + ps[0]] + ps[1..];
    if |ps| > 1 {
      assert qs[1..] == ps[1..];
    }
  }

  /** The non-empty strings of ps, in order. */
  function NonEmpty(ps: seq<string>): (qs: seq<string>)
    ensures forall i :: 0 <= i < |qs| ==> qs[i] != []
    ensures |qs| <= |ps|
  {
    if ps == [] then []
    else if ps[0] == [] then NonEmpty(ps[1..])
    else [ps[0]] + NonEmpty(ps[1..])
  }

  /** Each string kept is one of ps. */
  lemma {:induction false} NonEmptyFrom(ps: seq<string>)
    ensures forall i :: 0 <= i < |NonEmpty(ps)| ==> NonEmpty(ps)[i] in ps
  {
    if ps != [] {
      NonEmptyFrom(ps[1..]);
      assert forall q :: q in ps[1..] ==> q in ps;
    }
  }

  /** `split_resource_path`: the non-empty pieces, so that leading,
      trailing and repeated separators are dropped. */
  function SplitResourcePath(s: string): (path: seq<string>)
    ensures forall i :: 0 <= i < |path| ==> path[i] != [] && SlashFree(path[i])
  {
    NonEmptyFrom(Pieces(s));
    NonEmpty(Pieces(s))
  }

  /** `concat_resource_path`: each component preceded by a separator.  Only
      the empty path gives the empty string; any other result starts with
      a separator and has at least one character per component. */
  function ConcatResourcePath(path: seq<string>): (s: string)
    ensures s == [] <==> path == []
    ensures s != [] ==> s[0] == SEPARATOR
    ensures |s| >= |path|
  {
    if path == [] then [] else [SEPARATOR] + path[0] + ConcatResourcePath(path[1..])
  }

  /** The total length of a path's components plus one separator each. */
  function PathLength(path: seq<string>): nat
  {
    if path == [] then 0 else |path[0]| + 1 + PathLength(path[1..])
  }

  lemma {:induction false} ConcatLength(path: seq<string>)
    ensures |ConcatResourcePath(path)| == PathLength(path)
  {
    if path != [] {
      ConcatLength(path[1..]);
    }
  }

  /** The strings of ps, concatenated. */
  function Flatten(ps: seq<string>): string
  {
    if ps == [] then [] else ps[0] + Flatten(ps[1..])
  }

  /** The characters of s other than separators, in order. */
  function RemoveSeparators(s: string): (r: string)
    ensures SlashFree(r)
  {
    if s == [] then []
    else if s[0] == SEPARATOR then RemoveSeparators(s[1..])
    else [s[0]] + RemoveSeparators(s[1..])
  }

  lemma {:induction false} FlattenPieces(s: string)
    ensures Flatten(Pieces(s)) == RemoveSeparators(s)
    decreases |s|
  {
    if s != [] {
      var rest := Pieces(s[1..]);
      FlattenPieces(s[1..]);
      if s[0] == SEPARATOR {
        assert Pieces(s)[1..] == rest;
      } else {
        var ps := Pieces(s);
        assert ps[1..] == rest[1..];
        FlattenCons(rest);
      }
    }
  }

  lemma FlattenCons(ps: seq<string>)
    requires ps != []
    ensures Flatten(ps) == ps[0] + Flatten(ps[1..])
  {
  }

  lemma {:induction false} FlattenNonEmpty(ps: seq<string>)
    ensures Flatten(NonEmpty(ps)) == Flatten(ps)
  {
    if ps != [] {
      FlattenNonEmpty(ps[1..]);
      if ps[0] != [] {
        assert NonEmpty(ps) == [ps[0]] + NonEmpty(ps[1..]);
        FlattenCons(NonEmpty(ps));
      } else {
        assert Flatten(ps) == Flatten(ps[1..]);
      }
    }
  }

  /** The components keep the order and the characters of the path: read
      one after the other they spell the path without its separators. */
  lemma SplitKeepsOrder(s: string)
    ensures Flatten(SplitResourcePath(s)) == RemoveSeparators(s)
  {
    FlattenNonEmpty(Pieces(s));
    FlattenPieces(s);
  }

  /** Prefixing a separator-free string to s extends the first piece. */
  lemma {:induction false} PiecesPrefix(c: string, t: string)
    requires SlashFree(c)
    ensures Pieces(c + t) == [c + Pieces(t)[0]] + Pieces(t)[1..]
    decreases |c|
  {
    if c != [] {
      assert c == [c[0]] + c[1..];
      assert c[0] != SEPARATOR;
      assert (c + t)[0] == c[0] && (c + t)[1..] == c[1..] + t;
      PiecesPrefix(c[1..], t);
      assert [c[0]] + (c[1..] + Pieces(t)[0]) == c + Pieces(t)[0];
    } else {
      assert c + t == t && c + Pieces(t)[0] == Pieces(t)[0];
      assert [Pieces(t)[0]] + Pieces(t)[1..] == Pieces(t);
    }
  }

  /** A concatenated path is empty or starts with a separator, so its first
      piece is empty. */
  lemma ConcatFirstPiece(path: seq<string>)
    ensures Pieces(ConcatResourcePath(path))[0] == []
    ensures NonEmpty(Pieces(ConcatResourcePath(path))) == NonEmpty(Pieces(ConcatResourcePath(path))[1..])
  {
    if path != [] {
      var s := ConcatResourcePath(path);
      assert s[0] == SEPARATOR;
      assert Pieces(s) == [[]] + Pieces(s[1..]);
    }
  }

  /** Splitting a concatenated path gives the components back, when each
      component is non-empty and has no separator. */
  lemma {:induction false} SplitConcat(path: seq<string>)
    requires forall i :: 0 <= i < |path| ==> path[i] != [] && SlashFree(path[i])
    ensures SplitResourcePath(ConcatResourcePath(path)) == path
  {
    if path != [] {
      var c, r := path[0], ConcatResourcePath(path[1..]);
      var s := ConcatResourcePath(path);
      assert s == [SEPARATOR] + (c + r);
      assert s[1..] == c + r;
      ConcatFirstPiece(path[1..]);
      PiecesPrefix(c, r);
      assert Pieces(s) == [[]] + Pieces(c + r);
      assert c + Pieces(r)[0] == c;
      assert Pieces(c + r) == [c] + Pieces(r)[1..];
      SplitConcat(path[1..]);
      calc {
        SplitResourcePath(s);
        NonEmpty(Pieces(c + r));
        [c] + NonEmpty(Pieces(r)[1..]);
        [c] + NonEmpty(Pieces(r));
        [c] + path[1..];
      }
    }
  }

  /** A path string in normal form: its components, each after a separator. */
  function Normalize(s: string): string
  {
    ConcatResourcePath(SplitResourcePath(s))
  }

  /** Normalising twice is normalising once. */
  lemma NormalizeIdempotent(s: string)
    ensures Normalize(Normalize(s)) == Normalize(s)
  {
    SplitConcat(SplitResourcePath(s));
  }

  /** `Resource::resource_path_string` with the resource's `resource_path`:
      the path string built one component at a time. */
  method ResourcePathString(resourcePath: seq<string>) returns (str: string)
    ensures str == ConcatResourcePath(resourcePath)
  {
    str := [];
    for i := 0 to |resourcePath|
      invariant str + ConcatResourcePath(resourcePath[i..]) == ConcatResourcePath(resourcePath)
    {
      assert resourcePath[i..][1..] == resourcePath[i + 1..];
      str := str + ([SEPARATOR] + resourcePath[i]);
    }
  }
}
