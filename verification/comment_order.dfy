/** Comments ordered by creation time, as the comment queries "...OrderByCreated" return them.
    The order is a stable insertion sort: comments created at the same instant keep their
    store order. */
module CommentOrder {
  import opened Domain
  import opened Seqs

  ghost predicate SortedByCreated(s: seq<Comment>) {
    forall i, j :: 0 <= i < j < |s| ==> s[i].created <= s[j].created
  }

  /** Places c before the first comment of s created no earlier than c. */
  function InsertByCreated(c: Comment, s: seq<Comment>): seq<Comment>
    decreases |s|
  {
    if |s| == 0 then [c]
    else if c.created <= s[0].created then [c] + s
    else [s[0]] + InsertByCreated(c, s[1..])
  }

  /** A comment created no later than everything in a sorted list can go in front of it. */
  lemma ConsSorted(x: Comment, s: seq<Comment>)
    requires SortedByCreated(s)
    requires forall y :: y in s ==> x.created <= y.created
    ensures SortedByCreated([x] + s)
  {
    var t := [x] + s;
    forall i, j | 0 <= i < j < |t| ensures t[i].created <= t[j].created {
      assert t[j] == s[j - 1];
      if i > 0 {
        assert t[i] == s[i - 1];
      }
    }
  }

  /** The tail of a sorted list is sorted. */
  lemma TailSorted(s: seq<Comment>)
    requires |s| != 0 && SortedByCreated(s)
    ensures SortedByCreated(s[1..])
  {
    var tail := s[1..];
    forall i, j | 0 <= i < j < |tail| ensures tail[i].created <= tail[j].created {
      assert tail[i] == s[i + 1] && tail[j] == s[j + 1];
    }
  }

  /** The head of a sorted list was created no later than anything in it. */
  lemma HeadIsEarliest(s: seq<Comment>)
    requires |s| != 0 && SortedByCreated(s)
    ensures forall y :: y in s ==> s[0].created <= y.created
  {
    forall y | y in s ensures s[0].created <= y.created {
      var j :| 0 <= j < |s| && s[j] == y;
      assert s[0].created <= s[j].created;
    }
  }

  /** Everything in a list holding the elements of a sorted s's tail, plus c created after its
      head, was created no earlier than that head. */
  lemma HeadPrecedesInsertion(c: Comment, s: seq<Comment>, rest: seq<Comment>)
    requires |s| != 0 && SortedByCreated(s) && s[0].created < c.created
    requires multiset(rest) == multiset(s[1..]) + multiset{c}
    ensures forall y :: y in rest ==> s[0].created <= y.created
  {
    HeadIsEarliest(s);
    forall y | y in rest ensures s[0].created <= y.created {
      assert y in multiset(rest);
      if y != c {
        assert y in multiset(s[1..]);
        assert y in s[1..];
        assert y in s;
      }
    }
  }

  /** The step of insertion behind the head of a sorted s, given the claim for its tail. */
  lemma InsertBehindHeadSorted(c: Comment, s: seq<Comment>, rest: seq<Comment>)
    requires |s| != 0 && SortedByCreated(s) && s[0].created < c.created
    requires rest == InsertByCreated(c, s[1..])
    requires SortedByCreated(rest) && multiset(rest) == multiset(s[1..]) + multiset{c}
    ensures InsertByCreated(c, s) == [s[0]] + rest
    ensures SortedByCreated(InsertByCreated(c, s))
    ensures multiset(InsertByCreated(c, s)) == multiset(s) + multiset{c}
  {
    HeadPrecedesInsertion(c, s, rest);
    ConsSorted(s[0], rest);
    assert s == [s[0]] + s[1..];
    assert multiset(s) == multiset{s[0]} + multiset(s[1..]);
  }

  /** Insertion into a sorted list keeps it sorted and adds exactly c. */
  lemma {:induction false} InsertKeepsSorted(c: Comment, s: seq<Comment>)
    requires SortedByCreated(s)
    ensures SortedByCreated(InsertByCreated(c, s))
    ensures multiset(InsertByCreated(c, s)) == multiset(s) + multiset{c}
    ensures InsertByCreated(c, s)[0] == c || (|s| > 0 && InsertByCreated(c, s)[0] == s[0])
    decreases |s|
  {
    if |s| == 0 {
      assert InsertByCreated(c, s) == [c];
    } else if c.created <= s[0].created {
      assert InsertByCreated(c, s) == [c] + s;
      HeadIsEarliest(s);
      ConsSorted(c, s);
    } else {
      TailSorted(s);
      InsertKeepsSorted(c, s[1..]);
      InsertBehindHeadSorted(c, s, InsertByCreated(c, s[1..]));
    }
  }

  /** The comments of s ordered by created, ties in store order. */
  function SortByCreated(s: seq<Comment>): (r: seq<Comment>)
    ensures SortedByCreated(r)
    ensures multiset(r) == multiset(s)
    decreases |s|
  {
    if |s| == 0 then []
    else
      assert s == [s[0]] + s[1..];
      InsertKeepsSorted(s[0], SortByCreated(s[1..]));
      InsertByCreated(s[0], SortByCreated(s[1..]))
  }

  /** The first element of a filtered sorted list was created no earlier than the list's head. */
  lemma FilterHeadNotEarlier(t: seq<Comment>, p: Comment -> bool)
    requires SortedByCreated(t)
    requires |Filter(t, p)| != 0
    ensures t[0].created <= Filter(t, p)[0].created
  {
    var x := Filter(t, p)[0];
    assert x in Filter(t, p);
    var j :| 0 <= j < |t| && t[j] == x;
  }

  /** FilterInsert when c goes in front of t. */
  lemma FilterInsertFront(c: Comment, t: seq<Comment>, p: Comment -> bool)
    requires SortedByCreated(t)
    requires |t| != 0 && c.created <= t[0].created
    ensures p(c) ==> Filter(InsertByCreated(c, t), p) == InsertByCreated(c, Filter(t, p))
    ensures !p(c) ==> Filter(InsertByCreated(c, t), p) == Filter(t, p)
  {
    FilterCons(c, t, p);
    if |Filter(t, p)| != 0 {
      FilterHeadNotEarlier(t, p);
    }
  }

  /** FilterInsert for a selected c going behind the head of t, given the claim for the tail. */
  lemma SelectedInsertBehind(c: Comment, t: seq<Comment>, p: Comment -> bool)
    requires |t| != 0 && t[0].created < c.created
    requires p(c)
    requires Filter(InsertByCreated(c, t[1..]), p) == InsertByCreated(c, Filter(t[1..], p))
    ensures Filter(InsertByCreated(c, t), p) == InsertByCreated(c, Filter(t, p))
  {
    var x, it, ft := t[0], InsertByCreated(c, t[1..]), Filter(t[1..], p);
    var h := if p(x) then [x] else [];
    assert InsertByCreated(c, t) == [x] + it;
    FilterCons(x, it, p);
    assert Filter(InsertByCreated(c, t), p) == h + InsertByCreated(c, ft);
    assert Filter(t, p) == h + ft;
    if p(x) {
      var fx := [x] + ft;
      assert fx[0] == x && fx[1..] == ft;
      assert InsertByCreated(c, fx) == [x] + InsertByCreated(c, ft);
    } else {
      assert h + ft == ft;
      assert h + InsertByCreated(c, ft) == InsertByCreated(c, ft);
    }
  }

  /** FilterInsert for an unselected c going behind the head of t, given the claim for the tail. */
  lemma UnselectedInsertBehind(c: Comment, t: seq<Comment>, p: Comment -> bool)
    requires |t| != 0 && t[0].created < c.created
    requires !p(c)
    requires Filter(InsertByCreated(c, t[1..]), p) == Filter(t[1..], p)
    ensures Filter(InsertByCreated(c, t), p) == Filter(t, p)
  {
    var x, it := t[0], InsertByCreated(c, t[1..]);
    assert InsertByCreated(c, t) == [x] + it;
    FilterCons(x, it, p);
    assert Filter(t, p) == (if p(x) then [x] else []) + Filter(t[1..], p);
  }

  /** Inserting then filtering is filtering then inserting, when c is selected at all. */
  lemma {:induction false} FilterInsert(c: Comment, t: seq<Comment>, p: Comment -> bool)
    requires SortedByCreated(t)
    ensures p(c) ==> Filter(InsertByCreated(c, t), p) == InsertByCreated(c, Filter(t, p))
    ensures !p(c) ==> Filter(InsertByCreated(c, t), p) == Filter(t, p)
    decreases |t|
  {
    if |t| == 0 {
      FilterCons(c, [], p);
    } else if c.created <= t[0].created {
      FilterInsertFront(c, t, p);
    } else {
      FilterInsert(c, t[1..], p);
      if p(c) {
        SelectedInsertBehind(c, t, p);
      } else {
        UnselectedInsertBehind(c, t, p);
      }
    }
  }

  /** Sorting then filtering is filtering then sorting. */
  lemma {:induction false} FilterSortCommute(s: seq<Comment>, p: Comment -> bool)
    ensures Filter(SortByCreated(s), p) == SortByCreated(Filter(s, p))
    decreases |s|
  {
    if |s| != 0 {
      var x, tail := s[0], s[1..];
      assert s == [x] + tail;
      var sorted := SortByCreated(tail);
      assert SortByCreated(s) == InsertByCreated(x, sorted);
      FilterSortCommute(tail, p);
      FilterInsert(x, sorted, p);
      FilterCons(x, tail, p);
      if p(x) {
        var fs := [x] + Filter(tail, p);
        assert fs[0] == x && fs[1..] == Filter(tail, p);
        assert SortByCreated(fs) == InsertByCreated(x, SortByCreated(Filter(tail, p)));
      } else {
        assert Filter(s, p) == Filter(tail, p);
      }
    }
  }
}
