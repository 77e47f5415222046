/** The order in which ids are compared. Go compares strings byte by byte, which on UTF-8 text is the
    order of the code points. */
module Order {

  predicate Less(a: string, b: string) {
    b != [] && (a == [] || a[0] < b[0] || (a[0] == b[0] && Less(a[1..], b[1..])))
  }

  lemma {:induction false} LessIrreflexive(a: string)
    ensures !Less(a, a)
  {
    if a != [] {
      LessIrreflexive(a[1..]);
    }
  }

  lemma {:induction false} LessTransitive(a: string, b: string, c: string)
    requires Less(a, b) && Less(b, c)
    ensures Less(a, c)
  {
    if a != [] && a[0] == b[0] == c[0] {
      LessTransitive(a[1..], b[1..], c[1..]);
    }
  }

  lemma {:induction false} LessTotal(a: string, b: string)
    ensures Less(a, b) || a == b || Less(b, a)
  {
    if a != [] && b != [] && a[0] == b[0] {
      LessTotal(a[1..], b[1..]);
      assert a == [a[0]] + a[1..] && b == [b[0]] + b[1..];
    }
  }

  /** A prefix comes before everything it starts. */
  lemma {:induction false} PrefixLess(p: string, s: string)
    requires p < s
    ensures Less(p, s)
  {
    if p != [] {
      PrefixLess(p[1..], s[1..]);
    }
  }

  ghost predicate Increasing(ids: seq<string>) {
    forall i, j :: 0 <= i < j < |ids| ==> Less(ids[i], ids[j])
  }

  // ---------- Sorting ----------

  ghost predicate Ordered(ids: seq<string>) {
    forall i, j :: 0 <= i < j < |ids| ==> !Less(ids[j], ids[i])
  }

  function Insert(x: string, ids: seq<string>): seq<string> {
    if ids == [] || !Less(ids[0], x) then [x] + ids else [ids[0]] + Insert(x, ids[1..])
  }

  function Sort(ids: seq<string>): seq<string> {
    if ids == [] then [] else Insert(ids[0], Sort(ids[1..]))
  }

  lemma {:induction false} InsertOrdered(x: string, ids: seq<string>)
    requires Ordered(ids)
    ensures Ordered(Insert(x, ids)) && multiset(Insert(x, ids)) == multiset{x} + multiset(ids)
  {
    if ids == [] {
    } else if !Less(ids[0], x) {
      forall i | 0 <= i < |ids| ensures !Less(ids[i], x) {
        if i > 0 && Less(ids[i], x) {
          NotLessTransitive(x, ids[0], ids[i]);
        }
      }
    } else {
      assert ids == [ids[0]] + ids[1..];
      InsertOrdered(x, ids[1..]);
      InsertedAfter(ids[0], x, ids[1..]);
    }
  }

  lemma InsertedAfter(first: string, x: string, ids: seq<string>)
    requires Less(first, x) && (forall i :: 0 <= i < |ids| ==> !Less(ids[i], first))
    requires multiset(Insert(x, ids)) == multiset{x} + multiset(ids)
    ensures forall j :: 0 <= j < |Insert(x, ids)| ==> !Less(Insert(x, ids)[j], first)
  {
    var rest := Insert(x, ids);
    forall j | 0 <= j < |rest| ensures !Less(rest[j], first) {
      assert rest[j] in multiset(rest);
      if Less(x, first) {
        LessTransitive(first, x, first);
        LessIrreflexive(first);
      }
    }
  }

  lemma NotLessTransitive(a: string, b: string, c: string)
    requires !Less(b, a) && !Less(c, b)
    ensures !Less(c, a)
  {
  }

  lemma {:induction false} SortOrders(ids: seq<string>)
    ensures Ordered(Sort(ids)) && multiset(Sort(ids)) == multiset(ids)
  {
    if ids != [] {
      SortOrders(ids[1..]);
      InsertOrdered(ids[0], Sort(ids[1..]));
      assert ids == [ids[0]] + ids[1..];
    }
  }

  lemma SameFirst(a: seq<string>, b: seq<string>)
    requires Ordered(a) && Ordered(b) && multiset(a) == multiset(b) && a != [] && b != []
    ensures a[0] == b[0]
  {
    assert a[0] in multiset(b) && b[0] in multiset(a);
    LessTotal(a[0], b[0]);
  }

  lemma SameRest(a: seq<string>, b: seq<string>)
    requires a != [] && b != [] && a[0] == b[0] && multiset(a) == multiset(b)
    ensures multiset(a[1..]) == multiset(b[1..])
  {
    assert a == [a[0]] + a[1..] && b == [b[0]] + b[1..];
    assert multiset(a[1..]) == multiset(a) - multiset{a[0]};
    assert multiset(b[1..]) == multiset(b) - multiset{b[0]};
  }

  /** Two ordered sequences of the same ids are the same sequence. */
  lemma {:induction false} OrderedUnique(a: seq<string>, b: seq<string>)
    requires Ordered(a) && Ordered(b) && multiset(a) == multiset(b)
    ensures a == b
  {
    if a == [] {
      assert |multiset(b)| == 0;
    } else {
      assert a[0] in multiset(b);
      SameFirst(a, b);
      SameRest(a, b);
      OrderedUnique(a[1..], b[1..]);
      assert a == [a[0]] + a[1..] && b == [b[0]] + b[1..];
    }
  }

  ghost predicate Distinct(ids: seq<string>) {
    forall i, j :: 0 <= i < j < |ids| ==> ids[i] != ids[j]
  }

  lemma {:induction false} DistinctByCount(ids: seq<string>)
    ensures Distinct(ids) <==> forall x :: multiset(ids)[x] <= 1
  {
    if ids != [] {
      var rest := ids[1..];
      DistinctByCount(rest);
      assert ids == [ids[0]] + rest;
      assert forall x :: multiset(ids)[x] == multiset(rest)[x] + if x == ids[0] then 1 else 0;
      assert Distinct(ids) <==> Distinct(rest) && ids[0] !in rest by {
        assert Distinct(ids) ==> forall k :: 0 <= k < |rest| ==> rest[k] == ids[k + 1];
      }
    }
  }

  /** Sorting puts ids in strictly ascending order exactly when none is repeated. */
  lemma SortedWithoutRepeats(ids: seq<string>)
    ensures Increasing(Sort(ids)) <==> Distinct(ids)
  {
    var sorted := Sort(ids);
    SortOrders(ids);
    DistinctByCount(ids);
    DistinctByCount(sorted);
    forall i, j | 0 <= i < j < |sorted| ensures Less(sorted[i], sorted[j]) <==> sorted[i] != sorted[j] {
      LessTotal(sorted[i], sorted[j]);
      LessIrreflexive(sorted[i]);
    }
  }

  /** Equal neighbours dropped, as `slices.Compact` does. */
  function Compact(ids: seq<string>): (r: seq<string>)
    ensures |r| <= |ids|
  {
    if |ids| <= 1 then ids else
    if ids[0] == ids[1] then Compact(ids[1..]) else [ids[0]] + Compact(ids[1..])
  }

  /** On ordered ids, compacting loses nothing exactly when no id is repeated. */
  lemma {:induction false} CompactKeepsDistinct(ids: seq<string>)
    requires Ordered(ids)
    ensures |Compact(ids)| == |ids| <==> Increasing(ids)
  {
    if |ids| > 1 {
      CompactKeepsDistinct(ids[1..]);
      if ids[0] == ids[1] {
        LessIrreflexive(ids[0]);
      } else {
        LessTotal(ids[0], ids[1]);
        forall j | 0 < j < |ids| && Increasing(ids[1..]) ensures Less(ids[0], ids[j]) {
          if j > 1 {
            assert Less(ids[1..][0], ids[1..][j - 1]);
            LessTransitive(ids[0], ids[1], ids[j]);
          }
        }
        assert Increasing(ids) ==> Increasing(ids[1..]);
        forall i, j | 0 <= i < j < |ids| && Increasing(ids[1..]) ensures Less(ids[i], ids[j]) {
          if i > 0 {
            assert Less(ids[1..][i - 1], ids[1..][j - 1]);
          }
        }
      }
    }
  }
}
