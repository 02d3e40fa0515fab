/**
 Splitting and trimming, as the header and chunk parsers use them.
 */
module Text {
  import opened Octets

  /** Index of the first character at or after `from` that occurs in `delims`, or |s|. */
  function FindFirstOf(s: string, delims: string, from: nat): (k: nat)
    requires from <= |s|
    ensures from <= k <= |s|
    ensures k < |s| ==> s[k] in delims
    ensures forall i :: from <= i < k ==> s[i] !in delims
    decreases |s| - from
  {
    if from == |s| || s[from] in delims then from else FindFirstOf(s, delims, from + 1)
  }

  ghost predicate Free(s: string, delims: string) {
    forall i :: 0 <= i < |s| ==> s[i] !in delims
  }

  /** The pieces of `s` between delimiter characters; never empty. */
  function Pieces(s: string, delims: string): (r: seq<string>)
    ensures |r| >= 1
    decreases |s|
  {
    var k := FindFirstOf(s, delims, 0);
    if k == |s| then [s] else [s[..k]] + Pieces(s[k + 1..], delims)
  }

  /** `split`. */
  method Split(s: string, delims: string) returns (result: seq<string>)
    ensures result == Pieces(s, delims)
  {
    hide Pieces;
    result := [];
    var current := 0;
    assert s[0..] == s;
    while true
      invariant 0 <= current <= |s|
      invariant Pieces(s, delims) == result + Pieces(s[current..], delims)
      decreases |s| - current
    {
      var next := FindFirstOf(s, delims, current);
      PiecesFrom(s, delims, current);
      if next == |s| {
        result := result + [s[current..next]];
        break;
      }
      assert Pieces(s, delims) == (result + [s[current..next]]) + Pieces(s[next + 1..], delims);
      result, current := result + [s[current..next]], next + 1;
    }
  }

  lemma {:induction false} FirstIs(s: string, delims: string, from: nat, k: nat)
    requires from <= k <= |s|
    requires k < |s| ==> s[k] in delims
    requires forall i :: from <= i < k ==> s[i] !in delims
    ensures FindFirstOf(s, delims, from) == k
  {
  }

  lemma {:induction false} PiecesFrom(s: string, delims: string, from: nat)
    requires from <= |s|
    ensures
      var next := FindFirstOf(s, delims, from);
      Pieces(s[from..], delims) ==
        if next == |s| then [s[from..next]] else [s[from..next]] + Pieces(s[next + 1..], delims)
  {
    var next := FindFirstOf(s, delims, from);
    FirstIs(s[from..], delims, 0, next - from);
    assert s[from..][..next - from] == s[from..next];
    if next < |s| {
      assert s[from..][next - from + 1..] == s[next + 1..];
    } else {
      assert s[from..next] == s[from..];
    }
  }

  /** Text without a delimiter is one piece; otherwise the first piece ends at the first delimiter. */
  lemma {:induction false} FirstPiece(a: string, d: char, b: string, delims: string)
    requires Free(a, delims)
    ensures Pieces(a, delims) == [a]
    ensures d in delims ==> Pieces(a + [d] + b, delims) == [a] + Pieces(b, delims)
  {
    FirstIs(a, delims, 0, |a|);
    if d in delims {
      var s := a + [d] + b;
      FirstIs(s, delims, 0, |a|);
      assert s[..|a|] == a && s[|a| + 1..] == b;
    }
  }

  /** Text with a delimiter is more than one piece. */
  lemma ManyPieces(text: string, d: char)
    requires d in text
    ensures |Pieces(text, [d])| >= 2
  {
    var k := FindFirstOf(text, [d], 0);
    var i :| 0 <= i < |text| && text[i] == d;
    assert k <= i;
  }

  /** The pieces put back together with one delimiter between neighbours. */
  function Join(pieces: seq<string>, d: char): string
    requires |pieces| >= 1
  {
    if |pieces| == 1 then pieces[0] else pieces[0] + [d] + Join(pieces[1..], d)
  }

  /** Splitting at one character undoes joining with it. */
  lemma {:induction false} PiecesOfJoin(pieces: seq<string>, d: char)
    requires |pieces| >= 1
    requires forall i :: 0 <= i < |pieces| ==> Free(pieces[i], [d])
    ensures Pieces(Join(pieces, d), [d]) == pieces
  {
    hide Pieces;
    if |pieces| == 1 {
      FirstPiece(pieces[0], d, "", [d]);
    } else {
      FirstPiece(pieces[0], d, Join(pieces[1..], d), [d]);
      PiecesOfJoin(pieces[1..], d);
      assert pieces == [pieces[0]] + pieces[1..];
    }
  }

  /** Joining undoes splitting, and no piece holds the delimiter. */
  lemma {:induction false} JoinOfPieces(s: string, d: char)
    ensures Join(Pieces(s, [d]), d) == s
    ensures forall i :: 0 <= i < |Pieces(s, [d])| ==> Free(Pieces(s, [d])[i], [d])
    decreases |s|
  {
    var k := FindFirstOf(s, [d], 0);
    if k < |s| {
      JoinOfPieces(s[k + 1..], d);
      assert s == s[..k] + [d] + s[k + 1..];
    }
  }

  ghost predicate Spaces(s: string) {
    forall i :: 0 <= i < |s| ==> IsSpace(s[i])
  }

  /** Neither end is white space. */
  ghost predicate Trimmed(s: string) {
    s != "" ==> !IsSpace(s[0]) && !IsSpace(s[|s| - 1])
  }

  function TrimLeft(s: string): (r: string)
    ensures |r| <= |s| && r == s[|s| - |r|..]
    ensures Spaces(s[..|s| - |r|])
    ensures r != "" ==> !IsSpace(r[0])
  {
    if s == "" || !IsSpace(s[0]) then s else TrimLeft(s[1..])
  }

  function TrimRight(s: string): (r: string)
    ensures |r| <= |s| && r == s[..|r|]
    ensures Spaces(s[|r|..])
    ensures r != "" ==> !IsSpace(r[|r| - 1])
  {
    if s == "" || !IsSpace(s[|s| - 1]) then s else TrimRight(s[..|s| - 1])
  }

  /** `trim`: right end first, then left end. */
  function Trim(s: string): (r: string)
    ensures Trimmed(r)
  {
    TrimLeft(TrimRight(s))
  }

  lemma {:induction false} TrimRightExact(core: string, after: string)
    requires Spaces(after)
    requires core != "" ==> !IsSpace(core[|core| - 1])
    ensures TrimRight(core + after) == core
  {
    if after == "" {
      assert core + after == core;
    } else {
      var n := |after| - 1;
      assert (core + after)[..|core| + n] == core + after[..n];
      TrimRightExact(core, after[..n]);
    }
  }

  lemma {:induction false} TrimLeftExact(before: string, core: string)
    requires Spaces(before)
    requires core != "" ==> !IsSpace(core[0])
    ensures TrimLeft(before + core) == core
  {
    if before == "" {
      assert before + core == core;
    } else {
      assert (before + core)[1..] == before[1..] + core;
      TrimLeftExact(before[1..], core);
    }
  }

  /** Trimming removes exactly the white space around a trimmed text. */
  lemma TrimExact(before: string, core: string, after: string)
    requires Spaces(before) && Spaces(after) && Trimmed(core)
    ensures Trim(before + core + after) == core
  {
    if core == "" {
      TrimRightExact("", before + after);
      assert "" + (before + after) == before + core + after;
    } else {
      TrimRightExact(before + core, after);
      TrimLeftExact(before, core);
    }
  }

  lemma TrimNothing(s: string)
    requires Trimmed(s)
    ensures Trim(s) == s
  {
    TrimExact("", s, "");
    assert "" + s + "" == s;
  }

  // ----- The order of keys -----

  /** The order of strings, octet by octet; it is the order of the keys of a map. */
  predicate Less(a: string, b: string) {
    b != "" && (a == "" || a[0] < b[0] || (a[0] == b[0] && Less(a[1..], b[1..])))
  }

  lemma {:induction false} LessOrder(a: string, b: string, c: string)
    ensures Less(a, b) ==> a != b && !Less(b, a)
    ensures a != b && !Less(a, b) ==> Less(b, a)
    ensures Less(a, b) && Less(b, c) ==> Less(a, c)
  {
    if a != "" && b != "" && a[0] == b[0] {
      assert a == b <==> a[1..] == b[1..] by {
        assert a == [a[0]] + a[1..] && b == [b[0]] + b[1..];
      }
      LessOrder(a[1..], b[1..], if c != "" then c[1..] else "");
    }
  }

  /** It is decided by the first difference, and a prefix comes first. */
  lemma {:induction false} FirstDifference(same: string, x: char, a: string, y: char, b: string)
    ensures Less(same + [x] + a, same + [y] + b) <==> x < y || (x == y && Less(a, b))
    ensures Less(same, same + [y] + b)
  {
    var s, t := same + [x] + a, same + [y] + b;
    if same == "" {
      assert s[1..] == a && t[1..] == b;
    } else {
      assert s[1..] == same[1..] + [x] + a && t[1..] == same[1..] + [y] + b;
      FirstDifference(same[1..], x, a, y, b);
    }
  }
}
