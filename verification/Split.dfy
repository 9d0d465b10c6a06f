/**
  Splitting text at a separator, with a limit on the number of pieces, and trimming its end.
*/
module Split {
  import opened Decimal

  // Whether sep stands at position i of s.
  predicate At(s: string, sep: string, i: nat) {
    i + |sep| <= |s| && forall k :: 0 <= k < |sep| ==> s[i + k] == sep[k]
  }

  ghost predicate Free(s: string, sep: string) {
    forall i: nat :: !At(s, sep, i)
  }

  // std::basic_string::find; NOT_FOUND is npos.
  const NOT_FOUND: int := -1

  function Find(s: string, sep: string, start: nat): (i: int)
    requires start <= |s|
    ensures i == NOT_FOUND || (start <= i <= |s| - |sep| && At(s, sep, i))
    ensures forall j :: start <= j && (i == NOT_FOUND || j < i) ==> !At(s, sep, j)
    decreases |s| - start
  {
    if At(s, sep, start) then start
    else if start == |s| then NOT_FOUND
    else Find(s, sep, start + 1)
  }

  // The pieces of s from pos on; cuts is how many times it may be cut, without a limit when negative.
  function Pieces(s: string, sep: string, pos: nat, cuts: int): (ps: seq<string>)
    requires sep != "" && pos <= |s|
    ensures |ps| >= 1
    decreases |s| - pos
  {
    var i := Find(s, sep, pos);
    if cuts == 0 || i == NOT_FOUND then [s[pos..]] else [s[pos..i]] + Pieces(s, sep, i + |sep|, cuts - 1)
  }

  // The limit as size_t arithmetic reads it: 0 and 1 are no limit.
  function Cuts(maxElements: nat): (c: int)
    ensures c != 0
  {
    if maxElements <= 1 then -1 else maxElements - 1
  }

  // Where the loop stands: some pieces are cut off, and the rest of s is still to be cut.
  ghost predicate Standing(s: string, sep: string, pos: nat, left: int, output: seq<string>, all: seq<string>)
    requires sep != ""
  {
    pos <= |s| && output + Pieces(s, sep, pos, left) == all
  }

  lemma StandsAtStart(s: string, sep: string, left: int)
    requires sep != ""
    ensures Standing(s, sep, 0, left, [], Pieces(s, sep, 0, left))
  {
  }

  lemma StandsAtEnd(s: string, sep: string, pos: nat, left: int, output: seq<string>, all: seq<string>)
    requires sep != "" && Standing(s, sep, pos, left, output, all)
    requires left == 0 || Find(s, sep, pos) == NOT_FOUND
    ensures output + [s[pos..]] == all
  {
  }

  // Up to the next separator.
  method Cut(s: string, sep: string, prevPos: nat, found: nat, output: seq<string>, ghost left: int,
             ghost all: seq<string>)
    returns (output': seq<string>, pos: nat)
    requires sep != "" && Standing(s, sep, prevPos, left, output, all) && left != 0 && found == Find(s, sep, prevPos)
    ensures Standing(s, sep, pos, left - 1, output', all)
    ensures |output'| == |output| + 1 && pos > prevPos
  {
    Appended(output, s[prevPos..found], Pieces(s, sep, found + |sep|, left - 1));
    output' := output + [s[prevPos..found]];
    pos := found + |sep|;
  }

  // All overloads; those for one character have a separator of length one.
  method Split(s: string, sep: string, maxElements: nat) returns (output: seq<string>)
    requires sep != ""
    ensures output == Pieces(s, sep, 0, Cuts(maxElements))
  {
    output := [];
    var pos := 0;
    ghost var left := Cuts(maxElements);
    ghost var all := Pieces(s, sep, 0, left);
    StandsAtStart(s, sep, left);
    while true
      invariant Standing(s, sep, pos, left, output, all)
      invariant left == Cuts(maxElements) - |output| && left != 0 && (maxElements > 1 ==> left > 0)
      decreases |s| - pos
    {
      var found := Find(s, sep, pos);
      if found == NOT_FOUND {
        break;
      }
      output, pos := Cut(s, sep, pos, found, output, left, all);
      left := left - 1;
      if |output| == maxElements - 1 {
        break;
      }
    }
    StandsAtEnd(s, sep, pos, left, output, all);
    output := output + [s[pos..]];
  }

  lemma Appended(output: seq<string>, piece: string, more: seq<string>)
    ensures output + ([piece] + more) == (output + [piece]) + more
  {
  }

  function Join(ps: seq<string>, sep: string): string
    requires ps != []
  {
    if |ps| == 1 then ps[0] else ps[0] + (sep + Join(ps[1..], sep))
  }

  lemma JoinNext(piece: string, rest: seq<string>, sep: string)
    requires rest != []
    ensures Join([piece] + rest, sep) == piece + (sep + Join(rest, sep))
  {
    assert ([piece] + rest)[1..] == rest;
  }

  lemma CutAt(s: string, sep: string, pos: nat, i: nat)
    requires pos <= i && At(s, sep, i)
    ensures s[pos..] == s[pos..i] + (sep + s[i + |sep|..])
  {
    assert s[i..i + |sep|] == sep;
    assert s[pos..] == s[pos..i] + (s[i..i + |sep|] + s[i + |sep|..]);
  }

  lemma {:induction false} JoinFrom(s: string, sep: string, pos: nat, cuts: int)
    requires sep != "" && pos <= |s|
    ensures Join(Pieces(s, sep, pos, cuts), sep) == s[pos..]
    decreases |s| - pos
  {
    var i, ps := Find(s, sep, pos), Pieces(s, sep, pos, cuts);
    if cuts == 0 || i == NOT_FOUND {
      assert ps == [s[pos..]];
    } else {
      var rest := Pieces(s, sep, i + |sep|, cuts - 1);
      JoinFrom(s, sep, i + |sep|, cuts - 1);
      JoinNext(s[pos..i], rest, sep);
      CutAt(s, sep, pos, i);
    }
  }

  /**
    Joining the pieces restores the text, whatever the limit.
  */
  lemma JoinRestores(s: string, sep: string, maxElements: nat)
    requires sep != ""
    ensures Join(Pieces(s, sep, 0, Cuts(maxElements)), sep) == s
  {
    JoinFrom(s, sep, 0, Cuts(maxElements));
    assert s[0..] == s;
  }

  lemma AtStretch(s: string, sep: string, pos: nat, end: nat, j: nat)
    requires pos <= end <= |s|
    ensures At(s[pos..end], sep, j) ==> pos + j + |sep| <= end && At(s, sep, pos + j)
  {
    if At(s[pos..end], sep, j) {
      forall k | 0 <= k < |sep| ensures s[pos + j + k] == sep[k] {
        assert s[pos..end][j + k] == sep[k];
      }
    }
  }

  // A stretch of s without an occurrence.
  lemma StretchIsFree(s: string, sep: string, pos: nat, end: nat)
    requires pos <= end <= |s| && forall j :: pos <= j && j + |sep| <= end ==> !At(s, sep, j)
    ensures Free(s[pos..end], sep)
  {
    forall j: nat
      ensures !At(s[pos..end], sep, j)
    {
      AtStretch(s, sep, pos, end, j);
    }
  }

  ghost predicate AllButLastFree(ps: seq<string>, sep: string) {
    forall k :: 0 <= k < |ps| - 1 ==> Free(ps[k], sep)
  }

  lemma FreeNext(piece: string, rest: seq<string>, sep: string)
    requires Free(piece, sep) && AllButLastFree(rest, sep)
    ensures AllButLastFree([piece] + rest, sep)
  {
  }

  lemma {:induction false} CountFrom(s: string, sep: string, pos: nat, cuts: nat)
    requires sep != "" && pos <= |s|
    ensures |Pieces(s, sep, pos, cuts)| <= cuts + 1
    decreases |s| - pos
  {
    var i := Find(s, sep, pos);
    if i != NOT_FOUND && cuts != 0 {
      CountFrom(s, sep, i + |sep|, cuts - 1);
    }
  }

  lemma {:induction false} FreeFrom(s: string, sep: string, pos: nat, cuts: int)
    requires sep != "" && pos <= |s|
    ensures AllButLastFree(Pieces(s, sep, pos, cuts), sep)
    decreases |s| - pos
  {
    var i := Find(s, sep, pos);
    if i != NOT_FOUND && cuts != 0 {
      StretchIsFree(s, sep, pos, i);
      FreeFrom(s, sep, i + |sep|, cuts - 1);
      FreeNext(s[pos..i], Pieces(s, sep, i + |sep|, cuts - 1), sep);
    }
  }

  function Last(ps: seq<string>): string
    requires ps != []
  {
    ps[|ps| - 1]
  }

  lemma LastOfCut(s: string, sep: string, pos: nat, cuts: int)
    requires sep != "" && pos <= |s| && cuts != 0 && Find(s, sep, pos) != NOT_FOUND
    ensures
      var ps, rest := Pieces(s, sep, pos, cuts), Pieces(s, sep, Find(s, sep, pos) + |sep|, cuts - 1);
      |ps| == |rest| + 1 && Last(ps) == Last(rest)
  {
  }

  lemma TailIsFree(s: string, sep: string, pos: nat)
    requires pos <= |s| && Find(s, sep, pos) == NOT_FOUND
    ensures Free(s[pos..], sep)
  {
    StretchIsFree(s, sep, pos, |s|);
    assert s[pos..|s|] == s[pos..];
  }

  lemma {:induction false} LastFreeFrom(s: string, sep: string, pos: nat, cuts: int)
    requires sep != "" && pos <= |s| && (cuts < 0 || |Pieces(s, sep, pos, cuts)| <= cuts)
    ensures Free(Last(Pieces(s, sep, pos, cuts)), sep)
    decreases |s| - pos
  {
    var i := Find(s, sep, pos);
    if i == NOT_FOUND {
      TailIsFree(s, sep, pos);
    } else {
      LastOfCut(s, sep, pos, cuts);
      LastFreeFrom(s, sep, i + |sep|, cuts - 1);
    }
  }

  /**
    All pieces but the last are free of the separator; with a limit of two or more there are at most
    that many; and the last is free of it too unless the limit was reached.
  */
  lemma PiecesAreFree(s: string, sep: string, maxElements: nat)
    requires sep != ""
    ensures
      var ps := Pieces(s, sep, 0, Cuts(maxElements));
      && (maxElements >= 2 ==> |ps| <= maxElements)
      && (forall k :: 0 <= k < |ps| - 1 ==> Free(ps[k], sep))
      && (maxElements <= 1 || |ps| < maxElements ==> Free(ps[|ps| - 1], sep))
  {
    var cuts := Cuts(maxElements);
    FreeFrom(s, sep, 0, cuts);
    if cuts >= 0 {
      CountFrom(s, sep, 0, cuts);
    }
    if cuts < 0 || |Pieces(s, sep, 0, cuts)| <= cuts {
      LastFreeFrom(s, sep, 0, cuts);
    }
  }

  lemma AtChar(s: string, c: char, i: nat)
    ensures At(s, [c], i) <==> i < |s| && s[i] == c
  {
    assert At(s, [c], i) ==> s[i + 0] == [c][0];
  }

  // A character is found where text that does not hold it ends.
  lemma {:induction false} FindChar(s: string, start: nat, n: nat, c: char)
    requires start <= n <= |s| && c !in s[start..n] && (n < |s| ==> s[n] == c)
    ensures Find(s, [c], start) == if n == |s| then NOT_FOUND else n
    decreases n - start
  {
    AtChar(s, c, start);
    if start < n {
      assert s[start] == s[start..n][0];
      assert s[start..n] == [s[start]] + s[start + 1..n];
      FindChar(s, start + 1, n, c);
    }
  }

  lemma Parts(s: string, pos: nat, piece: string, c: char, rest: string)
    requires pos <= |s| && s[pos..] == piece + ([c] + rest)
    ensures
      var n := pos + |piece|;
      n < |s| && s[pos..n] == piece && s[n] == c && s[n + 1..] == rest
  {
    var n := pos + |piece|;
    assert s[pos..n] == s[pos..][..|piece|];
    assert s[n] == s[pos..][|piece|];
    assert s[n + 1..] == s[pos..][|piece| + 1..];
  }

  lemma {:induction false} UndoesJoinFrom(s: string, pos: nat, ps: seq<string>, c: char, cuts: int)
    requires cuts < 0 && ps != [] && forall k :: 0 <= k < |ps| ==> c !in ps[k]
    requires pos <= |s| && s[pos..] == Join(ps, [c])
    ensures Pieces(s, [c], pos, cuts) == ps
    decreases |ps|
  {
    if |ps| == 1 {
      assert s[pos..|s|] == ps[0];
      FindChar(s, pos, |s|, c);
    } else {
      Parts(s, pos, ps[0], c, Join(ps[1..], [c]));
      var n := pos + |ps[0]|;
      FindChar(s, pos, n, c);
      UndoesJoinFrom(s, n + 1, ps[1..], c, cuts - 1);
      assert Pieces(s, [c], pos, cuts) == [ps[0]] + ps[1..];
    }
  }

  /**
    For a separator of one character and no limit the pieces are determined by that: splitting undoes
    joining.
  */
  lemma SplitUndoesJoin(ps: seq<string>, c: char)
    requires ps != [] && forall k :: 0 <= k < |ps| ==> c !in ps[k]
    ensures Pieces(Join(ps, [c]), [c], 0, Cuts(0)) == ps
  {
    var s := Join(ps, [c]);
    assert s[0..] == s;
    UndoesJoinFrom(s, 0, ps, c, -1);
  }

  // rtrim.
  function RTrim(s: string): (t: string)
    ensures t <= s && forall k :: |t| <= k < |s| ==> IsSpace(s[k])
    ensures t == "" || !IsSpace(t[|t| - 1])
  {
    if s == "" || !IsSpace(s[|s| - 1]) then s else RTrim(s[..|s| - 1])
  }
}
