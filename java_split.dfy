/**
  `String.split` on a one-character separator with no limit, as the Java
  platform defines it: a string without the separator splits into itself;
  otherwise it splits into every separator-free piece, and trailing empty
  pieces are then removed.
 */
module JavaSplit {

  /** Every piece between separators, empty ones included (one more piece
      than there are separators). */
  function Pieces(s: string, sep: char): (r: seq<string>)
    ensures |r| >= 1
    decreases |s|
  {
    if s == [] then [[]]
    else
      var rest := Pieces(s[1..], sep);
      if s[0] == sep then [[]] + rest
      else [[s[0]] + rest[0]] + rest[1..]
  }

  /** `ps` without its trailing empty pieces: a prefix of `ps` that ends in
      a non-empty piece (or is empty), all of whose dropped pieces are empty. */
  function DropTrailingEmpty(ps: seq<string>): (r: seq<string>)
    ensures |r| <= |ps| && r == ps[..|r|]
    ensures forall i :: |r| <= i < |ps| ==> ps[i] == []
    ensures r == [] || r[|r| - 1] != []
    decreases |ps|
  {
    if ps != [] && ps[|ps| - 1] == [] then DropTrailingEmpty(ps[..|ps| - 1]) else ps
  }

  /** `s.split(String.valueOf(sep))`: no piece holds the separator; a
      string without the separator is its own only piece; otherwise the
      result is every piece up to the last non-empty one. */
  function Split(s: string, sep: char): (r: seq<string>)
    ensures forall i :: 0 <= i < |r| ==> sep !in r[i]
    ensures sep !in s ==> r == [s]
    ensures sep in s ==> |r| <= |Pieces(s, sep)| && r == Pieces(s, sep)[..|r|]
    ensures sep in s ==> forall i :: |r| <= i < |Pieces(s, sep)| ==> Pieces(s, sep)[i] == []
    ensures sep in s ==> r == [] || r[|r| - 1] != []
  {
    if sep !in s then [s]
    else
      JoinOfPieces(s, sep);
      DropTrailingEmpty(Pieces(s, sep))
  }

  /** The pieces written back with the separator between them. */
  function Join(ps: seq<string>, sep: char): string
    decreases |ps|
  {
    if |ps| == 0 then []
    else if |ps| == 1 then ps[0]
    else ps[0] + [sep] + Join(ps[1..], sep)
  }

  lemma {:induction false} PiecesOfPlain(p: string, sep: char)
    requires sep !in p
    ensures Pieces(p, sep) == [p]
    decreases |p|
  {
    if p != [] {
      assert sep !in p[1..];
      PiecesOfPlain(p[1..], sep);
      assert [p[0]] + p[1..] == p;
    }
  }

  lemma {:induction false} PiecesAfterSeparator(p: string, sep: char, t: string)
    requires sep !in p
    ensures Pieces(p + [sep] + t, sep) == [p] + Pieces(t, sep)
    decreases |p|
  {
    var s := p + [sep] + t;
    if p == [] {
      assert s[0] == sep && s[1..] == t;
    } else {
      assert s[0] == p[0] && s[1..] == p[1..] + [sep] + t;
      assert sep !in p[1..];
      PiecesAfterSeparator(p[1..], sep, t);
      assert [p[0]] + p[1..] == p;
    }
  }

  /** Splitting a join gives the pieces back, when no piece holds the separator. */
  lemma {:induction false} PiecesOfJoin(ps: seq<string>, sep: char)
    requires |ps| >= 1
    requires forall i :: 0 <= i < |ps| ==> sep !in ps[i]
    ensures Pieces(Join(ps, sep), sep) == ps
    decreases |ps|
  {
    if |ps| == 1 {
      PiecesOfPlain(ps[0], sep);
    } else {
      PiecesOfJoin(ps[1..], sep);
      PiecesAfterSeparator(ps[0], sep, Join(ps[1..], sep));
      assert [ps[0]] + ps[1..] == ps;
    }
  }

  /** The pieces of any string are separator-free and join back to it. */
  lemma {:induction false} JoinOfPieces(s: string, sep: char)
    ensures Join(Pieces(s, sep), sep) == s
    ensures forall i :: 0 <= i < |Pieces(s, sep)| ==> sep !in Pieces(s, sep)[i]
    decreases |s|
  {
    if s != [] {
      var rest := Pieces(s[1..], sep);
      JoinOfPieces(s[1..], sep);
      assert [s[0]] + s[1..] == s;
      if s[0] != sep {
        var ps := Pieces(s, sep);
        assert ps == [[s[0]] + rest[0]] + rest[1..];
        if |rest| > 1 {
          assert Join(rest, sep) == rest[0] + [sep] + Join(rest[1..], sep);
          assert ps[1..] == rest[1..];
        }
        forall i | 0 <= i < |ps| ensures sep !in ps[i] {
          if i > 0 { assert ps[i] == rest[i]; }
        }
      }
    }
  }

  lemma {:induction false} JoinHoldsSeparator(ps: seq<string>, sep: char)
    requires |ps| >= 2
    ensures sep in Join(ps, sep)
  {
    assert Join(ps, sep)[|ps[0]|] == sep;
  }

  /** `split` undoes a join whose pieces are separator-free and whose last
      piece is not empty (otherwise `split` would drop it). */
  lemma {:induction false} SplitOfJoin(ps: seq<string>, sep: char)
    requires |ps| >= 1 && ps[|ps| - 1] != []
    requires forall i :: 0 <= i < |ps| ==> sep !in ps[i]
    ensures Split(Join(ps, sep), sep) == ps
  {
    PiecesOfJoin(ps, sep);
    if |ps| >= 2 {
      JoinHoldsSeparator(ps, sep);
    }
  }
}
