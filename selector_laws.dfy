/** Properties of the selectors, and of the selectors composed with the
    reducer: what the progress bar, the results map, the roster of collected
    parcels, the scans and the QR lookup show after each action. */
module SelectorLaws {
  import opened Optional
  import opened SeqUtil
  import opened JsNumbers
  import opened TourneeStore
  import opened TourneeSelectors
  import opened ReducerLaws

  // ---------------------------------------------------------------------------
  // Arithmetic of the rounded percentage
  // ---------------------------------------------------------------------------

  lemma DivUnique(x: int, y: int, q: int, m: int)
    requires 0 < y && 0 <= m < y && x == q * y + m
    ensures x / y == q
  {
    var d := x / y;
    var r := x % y;
    assert y * d + r == y * q + m;
    assert y * (d - q) == m - r;
    MulCancelLess(y, d - q, 1);
    MulCancelLess(y, -1, d - q);
  }

  lemma MulCancelLess(y: int, a: int, b: int)
    requires 0 < y && y * a < y * b
    ensures a < b
  {
    assert y * (b - a) > 0;
  }

  /** Everything done shows 100 %. */
  lemma RoundPercentAll(total: nat)
    requires 0 < total
    ensures RoundPercent(total, total) == 100
  {
    DivUnique(200 * total + total, 2 * total, 100, total);
  }

  /** Nothing done shows 0 %. */
  lemma RoundPercentNone(total: nat)
    requires 0 < total
    ensures RoundPercent(0, total) == 0
  {
    DivUnique(total, 2 * total, 0, total);
  }

  /** Below 200 items, 100 % is shown only when everything is done. */
  lemma RoundPercentFullOnlyIfAll(done: nat, total: nat)
    requires 0 < total < 200 && done <= total
    requires RoundPercent(done, total) == 100
    ensures done == total
  {
    assert 2 * total * 100 <= 200 * done + total;
  }

  /** From 200 items on, rounding shows 100 % with one item still open. */
  lemma RoundPercentFullWithOneOpen()
    ensures RoundPercent(199, 200) == 100
  {
    DivUnique(200 * 199 + 200, 400, 100, 0);
  }

  /** More done never shows a smaller percentage. */
  lemma RoundPercentMonotone(d1: nat, d2: nat, total: nat)
    requires 0 < total && d1 <= d2 <= total
    ensures RoundPercent(d1, total) <= RoundPercent(d2, total)
  {
    var r1 := RoundPercent(d1, total);
    var r2 := RoundPercent(d2, total);
    assert 2 * total * r1 <= 200 * d1 + total <= 200 * d2 + total < 2 * total * (r2 + 1);
    MulCancelLess(2 * total, r1, r2 + 1);
  }

  // ---------------------------------------------------------------------------
  // Counting terminal points
  // ---------------------------------------------------------------------------

  lemma {:induction false} DoneCountConcat(points: map<int, PointState>, a: seq<int>, b: seq<int>)
    ensures DoneCount(points, a + b) == DoneCount(points, a) + DoneCount(points, b)
    decreases |b|
  {
    if b == [] {
      assert a + b == a;
    } else {
      assert (a + b)[..|a + b| - 1] == a + b[..|b| - 1];
      DoneCountConcat(points, a, b[..|b| - 1]);
    }
  }

  lemma DoneCountRemoveAt(points: map<int, PointState>, ys: seq<int>, k: int)
    requires 0 <= k < |ys|
    ensures DoneCount(points, ys)
            == DoneCount(points, ys[..k] + ys[k + 1..]) + (if IsPointDone(points, ys[k]) then 1 else 0)
  {
    assert ys == ys[..k] + ([ys[k]] + ys[k + 1..]);
    DoneCountConcat(points, ys[..k], [ys[k]] + ys[k + 1..]);
    DoneCountConcat(points, [ys[k]], ys[k + 1..]);
    DoneCountConcat(points, ys[..k], ys[k + 1..]);
    assert [ys[k]][..0] == [];
  }

  /** The count depends only on which numbers occur, not on their order. */
  lemma {:induction false} DoneCountPermutation(points: map<int, PointState>, xs: seq<int>, ys: seq<int>)
    requires multiset(xs) == multiset(ys)
    ensures DoneCount(points, xs) == DoneCount(points, ys)
    decreases |xs|
  {
    if xs == [] {
      assert |multiset(ys)| == 0;
    } else {
      var last := |xs| - 1;
      var x := xs[last];
      assert x in multiset(ys);
      var k :| 0 <= k < |ys| && ys[k] == x;
      RemoveAtMultiset(ys, k);
      RemoveAtMultiset(xs, last);
      assert xs[..last] + xs[last + 1..] == xs[..last];
      DoneCountPermutation(points, xs[..last], ys[..k] + ys[k + 1..]);
      DoneCountRemoveAt(points, ys, k);
    }
  }

  /** The count reaches the length exactly when every number is terminal. */
  lemma {:induction false} DoneCountFull(points: map<int, PointState>, ns: seq<int>)
    ensures DoneCount(points, ns) == |ns| <==> forall i | 0 <= i < |ns| :: IsPointDone(points, ns[i])
  {
    if ns != [] {
      var init := ns[..|ns| - 1];
      DoneCountFull(points, init);
      assert forall i | 0 <= i < |init| :: init[i] == ns[i];
    }
  }

  /** A pointwise larger set of terminal points counts at least as many. */
  lemma {:induction false} DoneCountMonotone(p1: map<int, PointState>, p2: map<int, PointState>, ns: seq<int>)
    requires forall n | IsPointDone(p1, n) :: IsPointDone(p2, n)
    ensures DoneCount(p1, ns) <= DoneCount(p2, ns)
  {
    if ns != [] {
      DoneCountMonotone(p1, p2, ns[..|ns| - 1]);
    }
  }

  lemma {:induction false} DoneCountZero(points: map<int, PointState>, ns: seq<int>)
    requires forall n | n in points :: !IsPointDone(points, n)
    ensures DoneCount(points, ns) == 0
  {
    if ns != [] {
      DoneCountZero(points, ns[..|ns| - 1]);
    }
  }

  // ---------------------------------------------------------------------------
  // Progress and completion
  // ---------------------------------------------------------------------------

  lemma AllDoneIffFullCount(s: TourneeState)
    ensures AllPointsDone(s) <==> DoneCount(s.points, s.pointsOrder) == |s.pointsOrder|
  {
    DoneCountFull(s.points, s.pointsOrder);
  }

  /** A round with every point terminal shows 100 %. */
  lemma AllDoneShowsFullProgress(s: TourneeState)
    requires 0 < |s.pointsOrder| && AllPointsDone(s)
    ensures TourneeProgress(s) == 100
  {
    AllDoneIffFullCount(s);
    RoundPercentAll(|s.pointsOrder|);
  }

  /** With fewer than 200 points, 100 % means every point is terminal. */
  lemma FullProgressMeansAllDone(s: TourneeState)
    requires 0 < |s.pointsOrder| < 200 && TourneeProgress(s) == 100
    ensures AllPointsDone(s)
  {
    RoundPercentFullOnlyIfAll(DoneCount(s.points, s.pointsOrder), |s.pointsOrder|);
    AllDoneIffFullCount(s);
  }

  /** Completing a point never lowers the round's progress. */
  lemma CompletePointProgressMonotone(s: TourneeState, n: int, result: PointResult,
                                      reason: Option<FailureReason>, now: string)
    ensures TourneeProgress(s) <= TourneeProgress(Reduce(s, CompletePoint(n, result, reason), now))
  {
    var r := Reduce(s, CompletePoint(n, result, reason), now);
    if n in s.points && |s.pointsOrder| > 0 {
      DoneCountMonotone(s.points, r.points, s.pointsOrder);
      RoundPercentMonotone(DoneCount(s.points, s.pointsOrder), DoneCount(r.points, s.pointsOrder), |s.pointsOrder|);
    }
  }

  /** Completing a point makes its number appear in the results map with the
      action's result; no other entry changes. */
  lemma CompletePointResults(s: TourneeState, n: int, result: PointResult,
                             reason: Option<FailureReason>, now: string)
    requires n in s.points
    ensures ResultsMap(Reduce(s, CompletePoint(n, result, reason), now))
            == ResultsMap(s)[n := if result == ResultSuccess then MapResult.Success else MapResult.Fail]
  {
  }

  /** Starting or resetting a point takes its number out of the results map. */
  lemma ReopenedPointLeavesResults(s: TourneeState, n: int, now: string)
    ensures ResultsMap(Reduce(s, StartPoint(n), now)) == ResultsMap(s) - {n}
    ensures ResultsMap(Reduce(s, ResetPoint(n), now)) == ResultsMap(s) - {n}
  {
  }

  /** Reordering changes neither the progress, nor completion, nor the results. */
  lemma SwapKeepsProgress(s: TourneeState, a: int, b: int, now: string)
    ensures var r := Reduce(s, SwapPoints(a, b), now);
      && TourneeProgress(r) == TourneeProgress(s)
      && AllPointsDone(r) == AllPointsDone(s)
      && ResultsMap(r) == ResultsMap(s)
  {
    var r := Reduce(s, SwapPoints(a, b), now);
    SwapOrderPermutes(s.pointsOrder, a, b);
    DoneCountPermutation(s.points, s.pointsOrder, r.pointsOrder);
    assert |r.pointsOrder| == |multiset(r.pointsOrder)| == |s.pointsOrder|;
    AllDoneIffFullCount(s);
    AllDoneIffFullCount(r);
  }

  /** In a consistent state every ordered number names a point, so the
      displayed list has one entry per number. */
  lemma OrderedPointsOfValid(s: TourneeState)
    requires Valid(s)
    ensures forall i | 0 <= i < |s.pointsOrder| :: s.pointsOrder[i] in s.points
    ensures |OrderedPoints(s)| == |s.pointsOrder|
    ensures forall i | 0 <= i < |s.pointsOrder| :: OrderedPoints(s)[i] == s.points[s.pointsOrder[i]]
  {
    forall i | 0 <= i < |s.pointsOrder| ensures s.pointsOrder[i] in s.points {
      var n := s.pointsOrder[i];
      assert n in s.pointsOrder;
    }
  }

  /** The list of points of a concatenation is the concatenation of the lists:
      `map` then `filter` keeps the numbers' order, dangling ones dropped. */
  lemma {:induction false} OrderedFromConcat(points: map<int, PointState>, a: seq<int>, b: seq<int>)
    ensures OrderedFrom(points, a + b) == OrderedFrom(points, a) + OrderedFrom(points, b)
    decreases |a|
  {
    if a != [] {
      assert (a + b)[0] == a[0] && (a + b)[1..] == a[1..] + b;
      var head := if a[0] in points then [points[a[0]]] else [];
      assert OrderedFrom(points, a + b) == head + OrderedFrom(points, a[1..] + b);
      assert OrderedFrom(points, a) == head + OrderedFrom(points, a[1..]);
      OrderedFromConcat(points, a[1..], b);
    } else {
      assert a + b == b;
    }
  }

  /** When every number names a point, exchanging two numbers exchanges the
      same two entries of the list of points. */
  lemma OrderedFromSwap(points: map<int, PointState>, o: seq<int>, ia: nat, ib: nat)
    requires ia < |o| && ib < |o|
    requires forall k | 0 <= k < |o| :: o[k] in points
    ensures OrderedFrom(points, SwapAt(o, ia, ib)) == SwapAt(OrderedFrom(points, o), ia, ib)
  {
    var ro := SwapAt(o, ia, ib);
    forall k | 0 <= k < |ro| ensures ro[k] in points {
      assert ro[k] == o[k] || ro[k] == o[ia] || ro[k] == o[ib];
    }
    var before := OrderedFrom(points, o);
    var after := OrderedFrom(points, ro);
    var swapped := SwapAt(before, ia, ib);
    forall k | 0 <= k < |after| ensures after[k] == swapped[k] {
      if k == ia {
        assert swapped[k] == before[ib];
      } else if k == ib {
        assert swapped[k] == before[ia];
      } else {
        assert swapped[k] == before[k];
      }
    }
  }

  /** In a consistent state the displayed order follows a swap of two listed
      points exactly. */
  lemma SwapReordersDisplay(s: TourneeState, a: int, b: int, now: string)
    requires Valid(s) && a in s.pointsOrder && b in s.pointsOrder
    ensures |OrderedPoints(s)| == |s.pointsOrder|
            && OrderedPoints(Reduce(s, SwapPoints(a, b), now))
               == SwapAt(OrderedPoints(s), IndexOf(s.pointsOrder, a), IndexOf(s.pointsOrder, b))
  {
    var o := s.pointsOrder;
    var ia := IndexOf(o, a);
    var ib := IndexOf(o, b);
    var r := Reduce(s, SwapPoints(a, b), now);
    SwapPointsSpec(s, a, b, now);
    assert r == s.(pointsOrder := SwapAt(o, ia, ib));
    OrderedPointsOfValid(s);
    OrderedFromSwap(s.points, o, ia, ib);
  }

  // ---------------------------------------------------------------------------
  // Point progress
  // ---------------------------------------------------------------------------

  lemma {:induction false} HandledCountFull(p: PointState, names: seq<string>)
    ensures HandledCount(p, names) == |names| <==> forall i | 0 <= i < |names| :: IsColisHandled(p, names[i])
  {
    if names != [] {
      var init := names[..|names| - 1];
      HandledCountFull(p, init);
      assert forall i | 0 <= i < |init| :: init[i] == names[i];
    }
  }

  /** The handled count of a concatenation of names is the sum of the counts. */
  lemma {:induction false} HandledCountConcat(p: PointState, a: seq<string>, b: seq<string>)
    ensures HandledCount(p, a + b) == HandledCount(p, a) + HandledCount(p, b)
    decreases |b|
  {
    if b == [] {
      assert a + b == a;
    } else {
      assert (a + b)[..|a + b| - 1] == a + b[..|b| - 1];
      HandledCountConcat(p, a, b[..|b| - 1]);
    }
  }

  lemma {:induction false} HandledCountMonotone(p1: PointState, p2: PointState, names: seq<string>)
    requires forall name | IsColisHandled(p1, name) :: IsColisHandled(p2, name)
    ensures HandledCount(p1, names) <= HandledCount(p2, names)
  {
    if names != [] {
      HandledCountMonotone(p1, p2, names[..|names| - 1]);
    }
  }

  /** A point whose parcels are all handled shows 100 %; with fewer than 200
      parcels, 100 % means all are handled. */
  lemma PointProgressFull(s: TourneeState, n: int)
    requires n in s.points && 0 < |s.points[n].colisOrder|
    ensures var p := s.points[n];
      && ((forall i | 0 <= i < |p.colisOrder| :: IsColisHandled(p, p.colisOrder[i])) ==> PointProgress(s, n) == 100)
      && (|p.colisOrder| < 200 && PointProgress(s, n) == 100 ==>
            forall i | 0 <= i < |p.colisOrder| :: IsColisHandled(p, p.colisOrder[i]))
  {
    var p := s.points[n];
    HandledCountFull(p, p.colisOrder);
    RoundPercentAll(|p.colisOrder|);
    if |p.colisOrder| < 200 && PointProgress(s, n) == 100 {
      RoundPercentFullOnlyIfAll(HandledCount(p, p.colisOrder), |p.colisOrder|);
    }
  }

  /** Collecting or refusing a parcel never lowers its point's progress. */
  lemma HandleColisProgressMonotone(s: TourneeState, action: Action, now: string)
    requires action.CollectColis? || action.RefuseColis?
    ensures PointProgress(s, action.numero) <= PointProgress(Reduce(s, action, now), action.numero)
  {
    var r := Reduce(s, action, now);
    var n := action.numero;
    if n in s.points && action.colisName in s.points[n].colis {
      var p := s.points[n];
      HandledCountMonotone(p, r.points[n], p.colisOrder);
      if |p.colisOrder| > 0 {
        RoundPercentMonotone(HandledCount(p, p.colisOrder), HandledCount(r.points[n], p.colisOrder), |p.colisOrder|);
      }
    }
  }

  // ---------------------------------------------------------------------------
  // Collected parcels
  // ---------------------------------------------------------------------------

  lemma {:induction false} PointCollectedMembership(n: int, p: PointState, names: seq<string>, info: CollectedColisInfo)
    ensures info in PointCollected(n, p, names) <==>
      info.pointNumero == n && info.colisName in names && IsCollectedEntry(map[n := p], info)
  {
    if names != [] {
      var init := names[..|names| - 1];
      PointCollectedMembership(n, p, init, info);
      assert names == init + [names[|names| - 1]];
    }
  }

  lemma {:induction false} CollectedFromMembership(points: map<int, PointState>, ns: seq<int>, info: CollectedColisInfo)
    ensures info in CollectedFrom(points, ns) <==>
      && info.pointNumero in ns && IsCollectedEntry(points, info)
      && info.colisName in points[info.pointNumero].colisOrder
  {
    if ns != [] {
      var init := ns[..|ns| - 1];
      var n := ns[|ns| - 1];
      CollectedFromMembership(points, init, info);
      assert ns == init + [n];
      if n in points {
        PointCollectedMembership(n, points[n], points[n].colisOrder, info);
      }
    }
  }

  /** In a consistent state the roster lists exactly the collected parcels. */
  lemma AllCollectedMembership(s: TourneeState, info: CollectedColisInfo)
    requires Valid(s)
    ensures info in AllCollected(s) <==> IsCollectedEntry(s.points, info)
  {
    CollectedFromMembership(s.points, s.pointsOrder, info);
  }

  /** The parcels of a concatenation of names are those of the first names,
      then those of the rest. */
  lemma {:induction false} PointCollectedConcat(n: int, p: PointState, a: seq<string>, b: seq<string>)
    ensures PointCollected(n, p, a + b) == PointCollected(n, p, a) + PointCollected(n, p, b)
    decreases |b|
  {
    if b != [] {
      var init := b[..|b| - 1];
      assert (a + b)[..|a + b| - 1] == a + init;
      assert (a + b)[|a + b| - 1] == b[|b| - 1];
      var name := b[|b| - 1];
      var tail := if name in p.colis && p.colis[name].status == ColisStatus.Collected
                  then [CollectedColisInfo(name, n, p.colis[name])] else [];
      assert PointCollected(n, p, a + b) == PointCollected(n, p, a + init) + tail;
      assert PointCollected(n, p, b) == PointCollected(n, p, init) + tail;
      PointCollectedConcat(n, p, a, init);
    } else {
      assert a + b == a;
    }
  }

  /** The roster of a concatenation of point numbers is the roster of the first
      numbers, then that of the rest. */
  lemma {:induction false} CollectedFromConcat(points: map<int, PointState>, a: seq<int>, b: seq<int>)
    ensures CollectedFrom(points, a + b) == CollectedFrom(points, a) + CollectedFrom(points, b)
    decreases |b|
  {
    if b != [] {
      var init := b[..|b| - 1];
      assert (a + b)[..|a + b| - 1] == a + init;
      assert (a + b)[|a + b| - 1] == b[|b| - 1];
      var n := b[|b| - 1];
      var tail := if n in points then PointCollected(n, points[n], points[n].colisOrder) else [];
      assert CollectedFrom(points, a + b) == CollectedFrom(points, a + init) + tail;
      assert CollectedFrom(points, b) == CollectedFrom(points, init) + tail;
      CollectedFromConcat(points, a, init);
    } else {
      assert a + b == a;
    }
  }

  /** The first position of `x` is unchanged by appending an element. */
  lemma IndexOfSnoc<T>(xs: seq<T>, y: T, x: T)
    requires x in xs
    ensures IndexOf(xs + [y], x) == IndexOf(xs, x)
  {
    var k := IndexOf(xs, x);
    var u := xs + [y];
    assert u[k] == x;
    assert forall j | 0 <= j < k :: u[j] == xs[j];
  }

  /** A duplicate-free sequence has a duplicate-free prefix that misses its
      last element. */
  lemma NoDuplicatesInit<T>(xs: seq<T>)
    requires xs != [] && NoDuplicates(xs)
    ensures NoDuplicates(xs[..|xs| - 1]) && xs[|xs| - 1] !in xs[..|xs| - 1]
    ensures IndexOf(xs, xs[|xs| - 1]) == |xs| - 1
  {
    IndexOfUnique(xs, |xs| - 1);
  }

  /** Over duplicate-free names, the entries of a point are in strictly
      increasing position of their names. */
  lemma {:induction false} PointCollectedOrdered(n: int, p: PointState, names: seq<string>)
    requires NoDuplicates(names)
    ensures var r := PointCollected(n, p, names);
      forall i, j | 0 <= i < j < |r| ::
        r[i].colisName in names && r[j].colisName in names
        && IndexOf(names, r[i].colisName) < IndexOf(names, r[j].colisName)
    decreases |names|
  {
    if names != [] {
      var init := names[..|names| - 1];
      var last := names[|names| - 1];
      NoDuplicatesInit(names);
      PointCollectedOrdered(n, p, init);
      var r0 := PointCollected(n, p, init);
      var r := PointCollected(n, p, names);
      assert r[..|r0|] == r0;
      forall i | 0 <= i < |r0|
        ensures r0[i].colisName in init && IndexOf(names, r0[i].colisName) == IndexOf(init, r0[i].colisName)
      {
        PointCollectedMembership(n, p, init, r0[i]);
        assert names == init + [last];
        IndexOfSnoc(init, last, r0[i].colisName);
      }
      forall i, j | 0 <= i < j < |r|
        ensures r[i].colisName in names && r[j].colisName in names
        ensures IndexOf(names, r[i].colisName) < IndexOf(names, r[j].colisName)
      {
        assert r[i] == r0[i];
        if j < |r0| {
          assert r[j] == r0[j];
        } else {
          assert r[j].colisName == last;
        }
      }
    }
  }

  /** Entry `x` comes before entry `y` in the order of point numbers `ns`, and
      within one point in that point's parcel order. */
  predicate RosterBefore(points: map<int, PointState>, ns: seq<int>, x: CollectedColisInfo, y: CollectedColisInfo)
  {
    || IndexOf(ns, x.pointNumero) < IndexOf(ns, y.pointNumero)
    || (&& x.pointNumero == y.pointNumero && x.pointNumero in points
        && IndexOf(points[x.pointNumero].colisOrder, x.colisName)
           < IndexOf(points[x.pointNumero].colisOrder, y.colisName))
  }

  /** Every entry of `r` comes before every later entry. */
  predicate RosterSorted(points: map<int, PointState>, ns: seq<int>, r: seq<CollectedColisInfo>)
  {
    forall i, j | 0 <= i < j < |r| :: RosterBefore(points, ns, r[i], r[j])
  }

  /** Two sorted runs, the first wholly before the second, make a sorted run. */
  lemma SortedConcat(points: map<int, PointState>, ns: seq<int>, r0: seq<CollectedColisInfo>, t: seq<CollectedColisInfo>)
    requires RosterSorted(points, ns, r0) && RosterSorted(points, ns, t)
    requires forall i, j | 0 <= i < |r0| && 0 <= j < |t| :: RosterBefore(points, ns, r0[i], t[j])
    ensures RosterSorted(points, ns, r0 + t)
  {
    var r := r0 + t;
    forall i, j | 0 <= i < j < |r| ensures RosterBefore(points, ns, r[i], r[j]) {
      if j < |r0| {
        assert r[i] == r0[i] && r[j] == r0[j];
      } else if i < |r0| {
        assert r[i] == r0[i] && r[j] == t[j - |r0|];
      } else {
        assert r[i] == t[i - |r0|] && r[j] == t[j - |r0|];
      }
    }
  }

  /** Appending a point number keeps a run of earlier points sorted. */
  lemma SortedExtend(points: map<int, PointState>, init: seq<int>, last: int, r0: seq<CollectedColisInfo>)
    requires RosterSorted(points, init, r0)
    requires forall k | 0 <= k < |r0| :: r0[k].pointNumero in init
    ensures RosterSorted(points, init + [last], r0)
  {
    forall i, j | 0 <= i < j < |r0| ensures RosterBefore(points, init + [last], r0[i], r0[j]) {
      assert RosterBefore(points, init, r0[i], r0[j]);
      IndexOfSnoc(init, last, r0[i].pointNumero);
      IndexOfSnoc(init, last, r0[j].pointNumero);
    }
  }

  /** The block of one point with a duplicate-free parcel order is sorted. */
  lemma PointBlockSorted(points: map<int, PointState>, ns: seq<int>, n: int)
    requires n in points && NoDuplicates(points[n].colisOrder)
    ensures RosterSorted(points, ns, PointCollected(n, points[n], points[n].colisOrder))
  {
    PointCollectedOrdered(n, points[n], points[n].colisOrder);
  }

  /** Entries of earlier points come before the block of an appended, new
      point. */
  lemma BeforeLastBlock(points: map<int, PointState>, init: seq<int>, last: int,
                        r0: seq<CollectedColisInfo>, t: seq<CollectedColisInfo>)
    requires last !in init
    requires forall k | 0 <= k < |r0| :: r0[k].pointNumero in init
    requires forall k | 0 <= k < |t| :: t[k].pointNumero == last
    ensures forall i, j | 0 <= i < |r0| && 0 <= j < |t| :: RosterBefore(points, init + [last], r0[i], t[j])
  {
    var u := init + [last];
    assert u[|init|] == last;
    assert forall i | 0 <= i < |init| :: u[i] == init[i];
    assert IndexOf(u, last) == |init|;
    forall i | 0 <= i < |r0| ensures IndexOf(u, r0[i].pointNumero) < |init| {
      IndexOfSnoc(init, last, r0[i].pointNumero);
    }
  }

  /** Over duplicate-free point numbers and parcel orders, the roster is in
      strictly increasing (point position, parcel position). */
  lemma {:induction false} CollectedFromOrdered(points: map<int, PointState>, ns: seq<int>)
    requires NoDuplicates(ns)
    requires forall n | n in points :: NoDuplicates(points[n].colisOrder)
    ensures RosterSorted(points, ns, CollectedFrom(points, ns))
    decreases |ns|
  {
    if ns != [] {
      var init := ns[..|ns| - 1];
      var last := ns[|ns| - 1];
      NoDuplicatesInit(ns);
      CollectedFromOrdered(points, init);
      var r0 := CollectedFrom(points, init);
      var t := if last in points then PointCollected(last, points[last], points[last].colisOrder) else [];
      assert CollectedFrom(points, ns) == r0 + t;
      assert ns == init + [last];
      forall k | 0 <= k < |r0| ensures r0[k].pointNumero in init {
        CollectedFromMembership(points, init, r0[k]);
      }
      SortedExtend(points, init, last, r0);
      if last in points {
        PointBlockSorted(points, ns, last);
      }
      BeforeLastBlock(points, init, last, r0, t);
      SortedConcat(points, ns, r0, t);
    }
  }

  /** In a consistent state the roster is in stop order, then parcel order, with
      no entry twice; with `AllCollectedMembership` this fixes it exactly. */
  lemma AllCollectedOrdered(s: TourneeState)
    requires Valid(s)
    ensures var r := AllCollected(s);
      forall i, j | 0 <= i < j < |r| :: RosterBefore(s.points, s.pointsOrder, r[i], r[j])
  {
    forall n | n in s.points ensures NoDuplicates(s.points[n].colisOrder) {
      assert PointValid(n, s.points[n]);
    }
    CollectedFromOrdered(s.points, s.pointsOrder);
    assert AllCollected(s) == CollectedFrom(s.points, s.pointsOrder);
  }

  lemma {:induction false} NothingCollectedFrom(points: map<int, PointState>, ns: seq<int>)
    requires forall n, name | n in points && name in points[n].colis :: points[n].colis[name].status != ColisStatus.Collected
    ensures CollectedFrom(points, ns) == []
  {
    if ns != [] {
      NothingCollectedFrom(points, ns[..|ns| - 1]);
      var n := ns[|ns| - 1];
      if n in points {
        NothingCollectedInPoint(n, points[n], points[n].colisOrder);
      }
    }
  }

  lemma {:induction false} NothingCollectedInPoint(n: int, p: PointState, names: seq<string>)
    requires forall name | name in p.colis :: p.colis[name].status != ColisStatus.Collected
    ensures PointCollected(n, p, names) == []
  {
    if names != [] {
      NothingCollectedInPoint(n, p, names[..|names| - 1]);
    }
  }

  /** After collecting a parcel of a consistent state, the roster lists it. */
  lemma CollectThenListed(s: TourneeState, n: int, name: string, photo: string,
                          analysis: Option<Gemini.ObjectAnalysis>, now: string)
    requires Valid(s) && n in s.points && name in s.points[n].colis
    ensures var r := Reduce(s, CollectColis(n, name, photo, analysis), now);
      CollectedColisInfo(name, n, r.points[n].colis[name]) in AllCollected(r)
  {
    var r := Reduce(s, CollectColis(n, name, photo, analysis), now);
    ReducePreservesValid(s, CollectColis(n, name, photo, analysis), now);
    AllCollectedMembership(r, CollectedColisInfo(name, n, r.points[n].colis[name]));
  }

  /** After refusing a parcel, the roster no longer lists it. */
  lemma RefuseThenUnlisted(s: TourneeState, n: int, name: string, reason: RefusalReason, now: string)
    ensures var r := Reduce(s, RefuseColis(n, name, reason), now);
      forall info | info in AllCollected(r) :: !(info.pointNumero == n && info.colisName == name)
  {
  }

  // ---------------------------------------------------------------------------
  // QR codes
  // ---------------------------------------------------------------------------

  /** The first separator of `p + [sep] + rest` is the one after `p` when `p`
      has none. */
  lemma IndexOfAfterPrefix(p: string, rest: string, sep: char)
    requires sep !in p
    ensures IndexOf(p + [sep] + rest, sep) == |p|
  {
    var u := p + [sep] + rest;
    assert u[|p|] == sep;
    assert forall j | 0 <= j < |p| :: u[j] == p[j];
  }

  /** The canonical payload of a parcel finds it exactly when it is collected. */
  lemma QrRoundTrip(s: TourneeState, n: int, name: string)
    ensures FindColisFromQR(s, QrCode(n, name))
            == if IsCollectedAt(s.points, n, name)
               then Some(CollectedColisInfo(name, n, s.points[n].colis[name])) else None
  {
    var qr := QrCode(n, name);
    IntStringChars(n);
    IndexOfAfterPrefix(IntString(n), name, ':');
    var i := |IntString(n)|;
    assert qr[..i] == IntString(n);
    assert qr[i + 1..] == name;
    ParseIntStringRoundTrip(n);
  }

  /** Whatever payload found an entry, the canonical payload finds the same. */
  lemma QrFoundByCanonicalCode(s: TourneeState, qrData: string)
    requires FindColisFromQR(s, qrData).Some?
    ensures var info := FindColisFromQR(s, qrData).value;
      FindColisFromQR(s, QrCode(info.pointNumero, info.colisName)) == Some(info)
  {
    var info := FindColisFromQR(s, qrData).value;
    QrRoundTrip(s, info.pointNumero, info.colisName);
  }

  /** Without a colon nothing is found. */
  lemma QrWithoutColon(s: TourneeState, qrData: string)
    requires ':' !in qrData
    ensures FindColisFromQR(s, qrData) == None
  {
  }

  /** A non-numeric point part finds nothing. */
  lemma QrNonNumeric(s: TourneeState)
    ensures FindColisFromQR(s, "abc:X") == None
  {
    var qr := "abc:X";
    assert qr[3] == ':' && qr[0] != ':' && qr[1] != ':' && qr[2] != ':';
    assert IndexOf(qr, ':') == 3;
    assert qr[..3] == "abc";
    NonNumericStartIsNone(qr[..3]);
  }

  /** After collecting a parcel its QR code finds it. */
  lemma CollectThenFoundByQr(s: TourneeState, n: int, name: string, photo: string,
                             analysis: Option<Gemini.ObjectAnalysis>, now: string)
    requires n in s.points && name in s.points[n].colis
    ensures var r := Reduce(s, CollectColis(n, name, photo, analysis), now);
      FindColisFromQR(r, QrCode(n, name)) == Some(CollectedColisInfo(name, n, r.points[n].colis[name]))
  {
    var r := Reduce(s, CollectColis(n, name, photo, analysis), now);
    CollectColisEffect(s, n, name, photo, analysis, now);
    assert IsCollectedAt(r.points, n, name);
    QrRoundTrip(r, n, name);
  }

  /** After refusing a parcel its QR code finds nothing. */
  lemma RefuseThenNotFoundByQr(s: TourneeState, n: int, name: string, reason: RefusalReason, now: string)
    ensures FindColisFromQR(Reduce(s, RefuseColis(n, name, reason), now), QrCode(n, name)) == None
  {
    var r := Reduce(s, RefuseColis(n, name, reason), now);
    if n in s.points && name in s.points[n].colis {
      RefuseColisEffect(s, n, name, reason, now);
    } else {
      assert r == s;
    }
    assert !IsCollectedAt(r.points, n, name);
    QrRoundTrip(r, n, name);
  }

  // ---------------------------------------------------------------------------
  // Scans
  // ---------------------------------------------------------------------------

  /** Two strings split at a separator neither prefix contains agree when they
      are equal. */
  lemma SplitAtFirst(p1: string, a: string, p2: string, b: string, sep: char)
    requires sep !in p1 && sep !in p2 && p1 + [sep] + a == p2 + [sep] + b
    ensures p1 == p2 && a == b
  {
    var u := p1 + [sep] + a;
    IndexOfAfterPrefix(p1, a, sep);
    IndexOfAfterPrefix(p2, b, sep);
    assert p1 == u[..|p1|] == p2;
    assert a == u[|p1| + 1..] == b;
  }

  /** Distinct parcels have distinct scan keys, even with negative numbers. */
  lemma ScanKeyInjective(n1: int, a: string, n2: int, b: string)
    requires ScanKey(n1, a) == ScanKey(n2, b)
    ensures n1 == n2 && a == b
  {
    var s1 := IntString(n1);
    var s2 := IntString(n2);
    IntStringChars(n1);
    IntStringChars(n2);
    var k := ScanKey(n1, a);
    assert k[0] == s1[0] == s2[0];
    assert k[1..] == s1[1..] + "-" + a == s2[1..] + "-" + b;
    SplitAtFirst(s1[1..], a, s2[1..], b, '-');
    assert s1 == [s1[0]] + s1[1..] == [s2[0]] + s2[1..] == s2;
    ParseIntStringRoundTrip(n1);
    ParseIntStringRoundTrip(n2);
  }

  ghost function ScanKeys(pairs: set<(int, string)>): set<string>
  {
    set pr | pr in pairs :: ScanKey(pr.0, pr.1)
  }

  lemma {:induction false} ScanKeysCard(pairs: set<(int, string)>)
    ensures |ScanKeys(pairs)| == |pairs|
    decreases |pairs|
  {
    if pairs != {} {
      var x := PickElement(pairs);
      var rest := pairs - {x};
      ScanKeysCard(rest);
      forall pr | pr in rest ensures ScanKey(pr.0, pr.1) != ScanKey(x.0, x.1) {
        if ScanKey(pr.0, pr.1) == ScanKey(x.0, x.1) {
          ScanKeyInjective(pr.0, pr.1, x.0, x.1);
        }
      }
      assert ScanKeys(pairs) == ScanKeys(rest) + {ScanKey(x.0, x.1)};
    }
  }

  /** The scanned count is at least the number of distinct parcels scanned. */
  lemma ScannedCountBound(s: TourneeState, pairs: set<(int, string)>)
    requires forall pr | pr in pairs :: IsColisScanned(s, pr.0, pr.1)
    ensures |pairs| <= ScannedCount(s)
  {
    var keys := s.dechargement.scannedColis.Keys;
    var scanned := ScanKeys(pairs);
    ScanKeysCard(pairs);
    assert scanned <= keys;
    assert keys == scanned + (keys - scanned);
    assert |keys| == |scanned| + |keys - scanned|;
    assert |keys| == |s.dechargement.scannedColis|;
  }

  /** No tour action other than RESET touches the scans. */
  lemma NonResetKeepsScans(s: TourneeState, action: Action, now: string)
    requires !action.Reset?
    ensures var r := Reduce(s, action, now);
      && ScannedCount(r) == ScannedCount(s)
      && forall n, name :: IsColisScanned(r, n, name) == IsColisScanned(s, n, name)
  {
    NonResetFrame(s, action, now);
  }

  // ---------------------------------------------------------------------------
  // Reset
  // ---------------------------------------------------------------------------

  /** The built round shows no progress, no results, no collected parcel and
      no scan. */
  lemma InitShowsNothing(ads: seq<Adresse>)
    ensures var r := InitState(ads);
      && TourneeProgress(r) == 0
      && ResultsMap(r) == map[]
      && AllCollected(r) == []
      && ScannedCount(r) == 0
      && forall n, name :: !IsColisScanned(r, n, name)
  {
    var r := InitState(ads);
    assert forall n | n in r.points :: !IsPointDone(r.points, n);
    assert ResultsMap(r).Keys == {};
    DoneCountZero(r.points, r.pointsOrder);
    if |r.pointsOrder| > 0 {
      RoundPercentNone(|r.pointsOrder|);
    }
    NothingCollectedFrom(r.points, r.pointsOrder);
  }

  /** After RESET every view starts over: no progress, no results, no collected
      parcel, no scan. */
  lemma ResetClearsViews(s: TourneeState, ads: seq<Adresse>, now: string)
    ensures var r := Reduce(s, Reset(ads), now);
      && TourneeProgress(r) == 0
      && ResultsMap(r) == map[]
      && AllCollected(r) == []
      && ScannedCount(r) == 0
      && forall n, name :: !IsColisScanned(r, n, name)
  {
    assert Reduce(s, Reset(ads), now) == InitState(ads);
    InitShowsNothing(ads);
  }
}
