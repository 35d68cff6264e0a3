/** Path names of fs.c: skipelem against splitting at slashes. */
module Paths {
  import opened Blocks
  import opened Options
  import opened Directory

  const SLASH: byte := 47

  // ---- Components ----

  /** The pieces between slashes, empty ones included. */
  function Pieces(path: seq<byte>): (r: seq<seq<byte>>)
    ensures r != []
  {
    if path == [] then [[]]
    else
      var rest := Pieces(path[1..]);
      if path[0] == SLASH then [[]] + rest else [[path[0]] + rest[0]] + rest[1..]
  }

  /** The non-empty pieces, cut to the length of a directory entry's name. */
  function Names(pieces: seq<seq<byte>>): seq<seq<byte>> {
    if pieces == [] then []
    else if pieces[0] == [] then Names(pieces[1..])
    else [Key(pieces[0])] + Names(pieces[1..])
  }

  function Components(path: seq<byte>): seq<seq<byte>> {
    Names(Pieces(path))
  }

  lemma SlashFirst(path: seq<byte>)
    requires path != [] && path[0] == SLASH
    ensures Components(path) == Components(path[1..])
  {
    var rest := Pieces(path[1..]);
    assert Pieces(path)[0] == [] && Pieces(path)[1..] == rest;
  }

  predicate NoSlash(e: seq<byte>) {
    forall i :: 0 <= i < |e| ==> e[i] != SLASH
  }

  function PiecesAfter(rest: seq<byte>): seq<seq<byte>> {
    if rest == [] then [] else Pieces(rest[1..])
  }

  lemma ConsPiece(path: seq<byte>)
    requires path != [] && path[0] != SLASH
    ensures Pieces(path) == [[path[0]] + Pieces(path[1..])[0]] + Pieces(path[1..])[1..]
  {
  }

  lemma {:induction false} PiecesOf(e: seq<byte>, rest: seq<byte>)
    requires NoSlash(e) && (rest == [] || rest[0] == SLASH)
    ensures Pieces(e + rest) == [e] + PiecesAfter(rest)
    decreases |e|
  {
    var path := e + rest;
    if e == [] {
      assert path == rest;
    } else {
      PiecesOf(e[1..], rest);
      ConsPiece(path);
      hide Pieces, PiecesAfter;
      assert path[1..] == e[1..] + rest && path[0] == e[0];
      var sub := [e[1..]] + PiecesAfter(rest);
      assert sub[0] == e[1..] && sub[1..] == PiecesAfter(rest);
      assert [e[0]] + e[1..] == e;
    }
  }

  /** A path that starts with an element: that element, then the components of what follows it. */
  lemma FirstComponent(e: seq<byte>, rest: seq<byte>)
    requires e != [] && NoSlash(e) && (rest == [] || rest[0] == SLASH)
    ensures Components(e + rest) == [Key(e)] + Components(rest)
  {
    PiecesOf(e, rest);
    var tail := PiecesAfter(rest);
    assert ([e] + tail)[0] == e && ([e] + tail)[1..] == tail;
    if rest != [] {
      SlashFirst(rest);
    } else {
      assert Pieces(rest)[1..] == [];
    }
  }

  lemma {:induction false} NamesConcat(a: seq<seq<byte>>, b: seq<seq<byte>>)
    ensures Names(a + b) == Names(a) + Names(b)
    decreases |a|
  {
    if a == [] {
      assert a + b == b;
    } else {
      assert (a + b)[1..] == a[1..] + b;
      NamesConcat(a[1..], b);
    }
  }

  lemma {:induction false} PiecesJoin(q: seq<byte>, p: seq<byte>)
    ensures Pieces(q + [SLASH] + p) == Pieces(q) + Pieces(p)
    decreases |q|
  {
    var path := q + [SLASH] + p;
    if q == [] {
      assert path[1..] == p;
    } else {
      assert path[1..] == q[1..] + [SLASH] + p;
      PiecesJoin(q[1..], p);
    }
  }

  /** A slash separates: the components of q, then those of p. With one element and none, that is all there is. */
  lemma ComponentsJoin(q: seq<byte>, p: seq<byte>)
    ensures Components(q + [SLASH] + p) == Components(q) + Components(p)
    ensures NoSlash(p) && p != [] ==> Components(p) == [Key(p)]
    ensures p == [] ==> Components(p) == []
  {
    PiecesJoin(q, p);
    NamesConcat(Pieces(q), Pieces(p));
    LastOrNot([]);
    if NoSlash(p) && p != [] {
      FirstComponent(p, []);
      assert p + [] == p;
    }
  }

  // ---- skipelem ----

  method SkipSlashes(path: seq<byte>, from: nat) returns (i: nat)
    requires from <= |path|
    ensures from <= i <= |path| && (i < |path| ==> path[i] != SLASH) &&
            Components(path[i..]) == Components(path[from..])
  {
    i := from;
    while i < |path| && path[i] == SLASH
      invariant from <= i <= |path| && Components(path[i..]) == Components(path[from..])
    {
      SlashFirst(path[i..]);
      assert path[i..][1..] == path[i + 1..];
      i := i + 1;
    }
  }

  /**
   * skipelem: None when no element is left; otherwise the first component and a rest, which does not start
   * with a slash and is empty exactly when that component was the last.
   */
  method Skipelem(path: seq<byte>) returns (r: Option<(seq<byte>, seq<byte>)>)
    requires 0 !in path
    ensures r == None <==> Components(path) == []
    ensures r != None ==> Components(path) == [r.value.0] + Components(r.value.1)
    ensures r != None ==> Key(r.value.0) == r.value.0
    ensures r != None ==> (r.value.1 == [] <==> |Components(path)| == 1) && 0 !in r.value.1 && |r.value.1| < |path|
  {
    assert path[0..] == path;
    hide Components, Key;
    var start := SkipSlashes(path, 0);
    LastOrNot(path[start..]);
    if start == |path| {
      return None;
    }
    var end := ElementEnd(path, start);
    var elem := path[start..end];
    var name := if |elem| >= DIRSIZ then elem[..DIRSIZ] else elem;
    assert path[start..] == elem + path[end..];
    FirstComponent(elem, path[end..]);
    KeyIsCut(elem);
    KeyIsCut(name);
    var next := SkipSlashes(path, end);
    LastOrNot(path[next..]);
    return Some((name, path[next..]));
  }

  method ElementEnd(path: seq<byte>, start: nat) returns (end: nat)
    requires start < |path| && path[start] != SLASH
    ensures start < end <= |path| && NoSlash(path[start..end]) && (end < |path| ==> path[end] == SLASH)
  {
    end := start;
    while end < |path| && path[end] != SLASH
      invariant start <= end <= |path| && forall i :: start <= i < end ==> path[i] != SLASH
    {
      end := end + 1;
    }
  }

  lemma LastOrNot(rest: seq<byte>)
    requires rest == [] || rest[0] != SLASH
    ensures rest == [] <==> Components(rest) == []
  {
    if rest == [] {
      assert Pieces(rest)[1..] == [];
    } else {
      assert Pieces(rest)[0] != [];
    }
  }

  lemma {:induction false} PrefixOfPlain(s: seq<byte>, n: nat)
    requires 0 !in s
    ensures Prefix(s, n) == if |s| >= n then s[..n] else s
    decreases n
  {
    if n > 0 && s != [] {
      PrefixOfPlain(s[1..], n - 1);
    }
  }

  lemma KeyIsCut(s: seq<byte>)
    requires 0 !in s
    ensures Key(s) == if |s| >= DIRSIZ then s[..DIRSIZ] else s
  {
    PrefixOfPlain(s, DIRSIZ);
  }
}
