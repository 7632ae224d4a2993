/** Cutting a text at a separator, and putting the pieces back together. */
module Segments {

  function Join<T>(pieces: seq<seq<T>>, separator: T): seq<T> {
    if |pieces| == 0 then []
    else if |pieces| == 1 then pieces[0]
    else pieces[0] + [separator] + Join(pieces[1..], separator)
  }

  function SeparatorAt<T(==)>(s: seq<T>, separator: T): (k: nat)
    ensures k <= |s| && (k < |s| ==> s[k] == separator) && separator !in s[..k]
  {
    if |s| == 0 || s[0] == separator then 0
    else 1 + SeparatorAt(s[1..], separator)
  }

  function Split<T(==)>(s: seq<T>, separator: T): (pieces: seq<seq<T>>)
    ensures |pieces| > 0
    decreases |s|
  {
    var k := SeparatorAt(s, separator);
    if k == |s| then [s] else [s[..k]] + Split(s[k + 1..], separator)
  }

  lemma SeparatorAtIs<T>(s: seq<T>, separator: T, k: nat)
    requires k <= |s| && (k < |s| ==> s[k] == separator) && separator !in s[..k]
    ensures SeparatorAt(s, separator) == k
  {
  }

  lemma SplitFirst<T>(first: seq<T>, rest: seq<T>, separator: T)
    requires separator !in first
    ensures Split(first + [separator] + rest, separator) == [first] + Split(rest, separator)
  {
    var s := first + [separator] + rest;
    assert s[..|first|] == first && s[|first| + 1..] == rest;
    SeparatorAtIs(s, separator, |first|);
  }

  /** Splitting joined pieces gives the pieces back. */
  lemma {:induction false} SplitInvertsJoin<T>(pieces: seq<seq<T>>, separator: T)
    requires |pieces| > 0 && forall p :: p in pieces ==> separator !in p
    ensures Split(Join(pieces, separator), separator) == pieces
  {
    if |pieces| > 1 {
      assert pieces[0] in pieces;
      SplitInvertsJoin(pieces[1..], separator);
      SplitFirst(pieces[0], Join(pieces[1..], separator), separator);
    } else {
      assert pieces[0] in pieces;
      assert pieces[0][..|pieces[0]|] == pieces[0];
      SeparatorAtIs(pieces[0], separator, |pieces[0]|);
    }
  }

  /** Every text is the join of its pieces, and no piece holds a separator. */
  lemma {:induction false} JoinInvertsSplit<T>(s: seq<T>, separator: T)
    ensures Join(Split(s, separator), separator) == s
    ensures forall p :: p in Split(s, separator) ==> separator !in p
    decreases |s|
  {
    var k := SeparatorAt(s, separator);
    if k < |s| {
      JoinInvertsSplit(s[k + 1..], separator);
      assert s == s[..k] + [separator] + s[k + 1..];
    } else {
      assert s[..k] == s;
    }
  }
}
