/** Dates are day numbers. A set of dates has exactly one ascending listing. */
module Calendar {

  ghost predicate Ascending(s: seq<int>) {
    forall i, j :: 0 <= i < j < |s| ==> s[i] < s[j]
  }

  lemma NonEmptyHasMember(dates: set<int>)
    ensures dates == {} || exists d :: d in dates
  {
    if !exists d :: d in dates {
      assert dates == {};
    }
  }

  lemma {:induction false} HasLatest(dates: set<int>)
    requires dates != {}
    ensures exists m :: m in dates && forall d :: d in dates ==> d <= m
  {
    NonEmptyHasMember(dates);
    var x :| x in dates;
    if dates != {x} {
      HasLatest(dates - {x});
      var y :| y in dates - {x} && forall d :: d in dates - {x} ==> d <= y;
      var m := if x < y then y else x;
      assert m in dates;
      forall d | d in dates
        ensures d <= m
      {
        assert d == x || d in dates - {x};
      }
    }
  }

  /** Python's `sorted` on a set of dates. */
  function SortDates(dates: set<int>): (r: seq<int>)
    ensures Ascending(r)
    ensures forall d :: d in r <==> d in dates
    ensures |r| == |dates|
  {
    if dates == {} then []
    else
      HasLatest(dates);
      var m :| m in dates && forall d :: d in dates ==> d <= m;
      var r := SortDates(dates - {m});
      AppendLatest(r, dates - {m}, m);
      assert dates == dates - {m} + {m};
      r + [m]
  }

  lemma AppendLatest(r: seq<int>, dates: set<int>, m: int)
    requires Ascending(r) && forall d :: d in r <==> d in dates
    requires forall d :: d in dates ==> d < m
    ensures Ascending(r + [m])
    ensures forall d :: d in r + [m] <==> d in dates + {m}
  {
    forall i, j | 0 <= i < j < |r + [m]|
      ensures (r + [m])[i] < (r + [m])[j]
    {
      if j == |r| {
        assert r[i] in r;
      }
    }
  }

  /** An ascending sequence is determined by its elements. */
  lemma {:induction false} AscendingUnique(a: seq<int>, b: seq<int>)
    requires Ascending(a) && Ascending(b)
    requires forall d :: d in a <==> d in b
    ensures a == b
  {
    if |a| == 0 {
      if |b| > 0 {
        MemberAt(b, 0);
      }
    } else if |b| == 0 {
      MemberAt(a, 0);
    } else {
      var a', b' := a[..|a| - 1], b[..|b| - 1];
      assert a == a' + [a[|a| - 1]] && b == b' + [b[|b| - 1]];
      assert a[|a| - 1] in a && b[|b| - 1] in b;
      assert a[|a| - 1] in b && b[|b| - 1] in a;
      assert a[|a| - 1] == b[|b| - 1];
      forall d ensures d in a' <==> d in b' {
        if d in a' { assert d in a && d != a[|a| - 1]; assert d in b; }
        if d in b' { assert d in b && d != b[|b| - 1]; assert d in a; }
      }
      AscendingUnique(a', b');
    }
  }

  lemma MemberAt(s: seq<int>, i: nat)
    requires i < |s|
    ensures s[i] in s
  {
  }
}
