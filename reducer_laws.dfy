/** What the builder and the reducer guarantee: the shape of a freshly built
    state, no-ops on missing targets, locality of each action, the effect of each
    action on its target, the laws of SWAP_POINTS, and the order invariant kept by
    every action and every run of actions. */
module ReducerLaws {
  import opened Optional
  import opened SeqUtil
  import opened TourneeStore

  // ---------------------------------------------------------------------------
  // Builder
  // ---------------------------------------------------------------------------

  lemma {:induction false} ColisRecordAt(cs: seq<ColisItem>, i: int)
    requires NoDuplicates(ColisNames(cs)) && 0 <= i < |cs|
    ensures cs[i].name in ColisRecord(cs) && ColisRecord(cs)[cs[i].name] == BuildColis(cs[i])
  {
    var init := cs[..|cs| - 1];
    if i < |cs| - 1 {
      assert ColisNames(init) == ColisNames(cs)[..|cs| - 1];
      ColisRecordAt(init, i);
      assert ColisNames(cs)[i] != ColisNames(cs)[|cs| - 1];
    }
  }

  lemma {:induction false} PointsRecordAt(ads: seq<Adresse>, i: int)
    requires NoDuplicates(Numeros(ads)) && 0 <= i < |ads|
    ensures ads[i].numero in PointsRecord(ads)
    ensures PointsRecord(ads)[ads[i].numero] == BuildPoint(ads[i])
  {
    var init := ads[..|ads| - 1];
    if i < |ads| - 1 {
      assert Numeros(init) == Numeros(ads)[..|ads| - 1];
      PointsRecordAt(init, i);
      assert Numeros(ads)[i] != Numeros(ads)[|ads| - 1];
    }
  }

  /** With distinct numbers and names, each stop's point copies the stop's
      static fields, its parcel order is the stop's parcel names in input
      order, and each parcel copies its item. */
  lemma InitStateAt(ads: seq<Adresse>, i: int)
    requires WellFormedRound(ads) && 0 <= i < |ads|
    ensures var s := InitState(ads); var n := ads[i].numero;
      && n in s.points
      && s.points[n].numero == n && s.points[n].info == ads[i].info
      && s.points[n].status == PointStatus.Pending
      && s.points[n].colisOrder == ColisNames(ads[i].colis)
      && forall k | 0 <= k < |ads[i].colis| ::
           ads[i].colis[k].name in s.points[n].colis
           && s.points[n].colis[ads[i].colis[k].name] == BuildColis(ads[i].colis[k])
  {
    PointsRecordAt(ads, i);
    forall k | 0 <= k < |ads[i].colis|
      ensures ads[i].colis[k].name in ColisRecord(ads[i].colis)
      ensures ColisRecord(ads[i].colis)[ads[i].colis[k].name] == BuildColis(ads[i].colis[k])
    {
      ColisRecordAt(ads[i].colis, k);
    }
  }

  /** Well-formed round data builds a valid state. */
  lemma InitValid(ads: seq<Adresse>)
    requires WellFormedRound(ads)
    ensures Valid(InitState(ads))
  {
    var s := InitState(ads);
    forall n | n in s.points ensures PointValid(n, s.points[n]) {
      var i :| 0 <= i < |ads| && Numeros(ads)[i] == n;
      PointsRecordAt(ads, i);
    }
  }

  // ---------------------------------------------------------------------------
  // Missing targets
  // ---------------------------------------------------------------------------

  /** The action names a point, a parcel or a pair of points that is not there. */
  predicate TargetMissing(s: TourneeState, action: Action)
  {
    match action
    case StartPoint(n) => n !in s.points
    case CompletePoint(n, _, _) => n !in s.points
    case SetPointPhoto(n, _) => n !in s.points
    case ResetPoint(n) => n !in s.points
    case CollectColis(n, name, _, _) => n !in s.points || name !in s.points[n].colis
    case RefuseColis(n, name, _) => n !in s.points || name !in s.points[n].colis
    case SetColisAnalysis(n, name, _) => n !in s.points || name !in s.points[n].colis
    case SwapPoints(a, b) => a !in s.pointsOrder || b !in s.pointsOrder
    case _ => false
  }

  /** An action on a missing point or parcel, or a swap with an absent number,
      returns the state unchanged. */
  lemma MissingTargetIsNoOp(s: TourneeState, action: Action, now: string)
    requires TargetMissing(s, action)
    ensures Reduce(s, action, now) == s
  {
  }

  // ---------------------------------------------------------------------------
  // Locality
  // ---------------------------------------------------------------------------

  predicate IsPointAction(action: Action)
  {
    action.StartPoint? || action.CompletePoint? || action.SetPointPhoto? || action.ResetPoint?
  }

  predicate IsColisAction(action: Action)
  {
    action.CollectColis? || action.RefuseColis? || action.SetColisAnalysis?
  }

  /** A point action on an existing point replaces that point only, and within
      it leaves the number, the static fields and the parcels as they were. */
  lemma PointActionLocality(s: TourneeState, action: Action, now: string)
    requires IsPointAction(action) && action.numero in s.points
    ensures var r := Reduce(s, action, now); var n := action.numero;
      && n in r.points
      && r == s.(points := s.points[n := r.points[n]])
      && r.points[n].numero == s.points[n].numero
      && r.points[n].info == s.points[n].info
      && r.points[n].colis == s.points[n].colis
      && r.points[n].colisOrder == s.points[n].colisOrder
  {
  }

  /** A parcel action on an existing parcel replaces that parcel only; its name
      and static fields are kept. */
  lemma ColisActionLocality(s: TourneeState, action: Action, now: string)
    requires IsColisAction(action)
    requires action.numero in s.points && action.colisName in s.points[action.numero].colis
    ensures var r := Reduce(s, action, now); var n := action.numero; var name := action.colisName;
      && n in r.points && name in r.points[n].colis
      && r == s.(points := s.points[n := r.points[n]])
      && r.points[n] == s.points[n].(colis := s.points[n].colis[name := r.points[n].colis[name]])
      && r.points[n].colis[name].name == s.points[n].colis[name].name
      && r.points[n].colis[name].info == s.points[n].colis[name].info
  {
  }

  /** Only RESET touches the id, the unloading record, the set of point keys and
      the multiset of numbers in the order. */
  lemma NonResetFrame(s: TourneeState, action: Action, now: string)
    requires !action.Reset?
    ensures var r := Reduce(s, action, now);
      && r.id == s.id
      && r.dechargement == s.dechargement
      && r.points.Keys == s.points.Keys
      && multiset(r.pointsOrder) == multiset(s.pointsOrder)
  {
  }

  // ---------------------------------------------------------------------------
  // Effects
  // ---------------------------------------------------------------------------

  /** START_TOURNEE and COMPLETE_TOURNEE change the status and their own
      timestamp, and nothing else. */
  lemma TourneeLifecycleEffect(s: TourneeState, now: string)
    ensures Reduce(s, StartTournee, now)
         == s.(status := TourneeStatus.InProgress, startedAt := Some(now))
    ensures Reduce(s, CompleteTournee, now)
         == s.(status := TourneeStatus.Completed, completedAt := Some(now))
  {
  }

  /** START_POINT makes the point started, whatever its status was, and stamps
      its start; the completion stamp, photo and failure reason are kept. */
  lemma StartPointEffect(s: TourneeState, n: int, now: string)
    requires n in s.points
    ensures var p := s.points[n]; var q := Reduce(s, StartPoint(n), now).points[n];
      && q.status == PointStatus.Started && q.startedAt == Some(now)
      && q.completedAt == p.completedAt && q.photo == p.photo && q.failureReason == p.failureReason
  {
  }

  /** COMPLETE_POINT sets success or failed according to the result, stamps the
      completion, and overwrites the failure reason with the action's, absent
      or not. */
  lemma CompletePointEffect(s: TourneeState, n: int, result: PointResult,
                            reason: Option<FailureReason>, now: string)
    requires n in s.points
    ensures var p := s.points[n]; var q := Reduce(s, CompletePoint(n, result, reason), now).points[n];
      && q.status == (if result == ResultSuccess then PointStatus.Success else PointStatus.Failed)
      && q.completedAt == Some(now) && q.failureReason == reason
      && q.startedAt == p.startedAt && q.photo == p.photo
  {
  }

  lemma SetPointPhotoEffect(s: TourneeState, n: int, uri: string, now: string)
    requires n in s.points
    ensures var p := s.points[n]; var q := Reduce(s, SetPointPhoto(n, uri), now).points[n];
      q == p.(photo := Some(uri))
  {
  }

  /** RESET_POINT returns the point to started and clears its completion stamp;
      the start stamp and the failure reason are kept. */
  lemma ResetPointEffect(s: TourneeState, n: int, now: string)
    requires n in s.points
    ensures var p := s.points[n]; var q := Reduce(s, ResetPoint(n), now).points[n];
      && q.status == PointStatus.Started && q.completedAt.None?
      && q.startedAt == p.startedAt && q.failureReason == p.failureReason && q.photo == p.photo
  {
  }

  /** COLLECT_COLIS marks the parcel collected with the given photo; a given
      analysis replaces the old one, an absent one keeps it; an earlier refusal
      reason is not cleared. */
  lemma CollectColisEffect(s: TourneeState, n: int, name: string, photo: string,
                           analysis: Option<Gemini.ObjectAnalysis>, now: string)
    requires n in s.points && name in s.points[n].colis
    ensures var c := s.points[n].colis[name];
      var d := Reduce(s, CollectColis(n, name, photo, analysis), now).points[n].colis[name];
      && d.status == ColisStatus.Collected && d.photo == Some(photo)
      && d.analysis == (if analysis.Some? then analysis else c.analysis)
      && d.refusalReason == c.refusalReason
  {
  }

  /** REFUSE_COLIS marks the parcel refused with the reason, keeping its photo
      and analysis. */
  lemma RefuseColisEffect(s: TourneeState, n: int, name: string, reason: RefusalReason, now: string)
    requires n in s.points && name in s.points[n].colis
    ensures var c := s.points[n].colis[name];
      var d := Reduce(s, RefuseColis(n, name, reason), now).points[n].colis[name];
      && d.status == ColisStatus.Refused && d.refusalReason == Some(reason)
      && d.photo == c.photo && d.analysis == c.analysis
  {
  }

  /** SET_COLIS_ANALYSIS replaces the analysis and leaves the status (and all
      else) as it was, even on a parcel that is not collected. */
  lemma SetColisAnalysisEffect(s: TourneeState, n: int, name: string,
                               analysis: Gemini.ObjectAnalysis, now: string)
    requires n in s.points && name in s.points[n].colis
    ensures var c := s.points[n].colis[name];
      var d := Reduce(s, SetColisAnalysis(n, name, analysis), now).points[n].colis[name];
      d == c.(analysis := Some(analysis))
  {
  }

  /** RESET rebuilds from the given data alone: nothing of the prior state
      survives. */
  lemma ResetForgetsPriorState(s1: TourneeState, s2: TourneeState, ads: seq<Adresse>,
                               now1: string, now2: string)
    ensures Reduce(s1, Reset(ads), now1) == Reduce(s2, Reset(ads), now2)
    ensures Reduce(s1, Reset(ads), now1) == InitState(ads)
  {
  }

  // ---------------------------------------------------------------------------
  // SWAP_POINTS
  // ---------------------------------------------------------------------------

  /** SWAP_POINTS: if either number is absent from the order the state is
      unchanged; otherwise only the order changes, the first occurrences of the
      two numbers are exchanged, every other position keeps its number, and the
      order stays a permutation of itself. */
  lemma SwapPointsSpec(s: TourneeState, a: int, b: int, now: string)
    ensures var r := Reduce(s, SwapPoints(a, b), now);
      && r == s.(pointsOrder := r.pointsOrder)
      && multiset(r.pointsOrder) == multiset(s.pointsOrder)
      && (a !in s.pointsOrder || b !in s.pointsOrder ==> r == s)
      && (a in s.pointsOrder && b in s.pointsOrder ==>
            var i := IndexOf(s.pointsOrder, a); var j := IndexOf(s.pointsOrder, b);
            && |r.pointsOrder| == |s.pointsOrder|
            && r.pointsOrder[i] == b && r.pointsOrder[j] == a
            && forall k | 0 <= k < |s.pointsOrder| && k != i && k != j ::
                 r.pointsOrder[k] == s.pointsOrder[k])
  {
  }

  /** Swapping a number with itself changes nothing. */
  lemma SwapPointsSelf(s: TourneeState, a: int, now: string)
    ensures Reduce(s, SwapPoints(a, a), now) == s
  {
  }

  lemma SwapOrderPermutes(order: seq<int>, a: int, b: int)
    ensures multiset(SwapOrder(order, a, b)) == multiset(order)
    ensures forall x :: x in SwapOrder(order, a, b) <==> x in order
  {
    var r := SwapOrder(order, a, b);
    forall x ensures x in r <==> x in order {
      assert x in r <==> x in multiset(r);
      assert x in order <==> x in multiset(order);
    }
  }

  /** On an order without duplicates, two identical swaps cancel. */
  lemma SwapOrderTwice(order: seq<int>, a: int, b: int)
    requires NoDuplicates(order)
    ensures SwapOrder(SwapOrder(order, a, b), a, b) == order
  {
    var i := IndexOf(order, a);
    var j := IndexOf(order, b);
    if i != -1 && j != -1 {
      var once := SwapAt(order, i, j);
      NoDuplicatesPermutation(order, once);
      IndexOfUnique(once, j);
      IndexOfUnique(once, i);
      SwapAtTwice(order, i, j);
    }
  }

  /** With no repeated number in the order (as in every valid state), two
      identical SWAP_POINTS restore the state. */
  lemma SwapPointsTwice(s: TourneeState, a: int, b: int, now1: string, now2: string)
    requires NoDuplicates(s.pointsOrder)
    ensures Reduce(Reduce(s, SwapPoints(a, b), now1), SwapPoints(a, b), now2) == s
  {
    SwapOrderTwice(s.pointsOrder, a, b);
  }

  /** The precondition above is needed: with a repeated number the second swap
      finds a different first occurrence. */
  lemma SwapTwiceWithRepeatedNumber()
    ensures SwapOrder(SwapOrder([1, 1, 2], 1, 2), 1, 2) == [1, 2, 1]
  {
    assert IndexOf([1, 1, 2], 2) == 2;
    assert SwapOrder([1, 1, 2], 1, 2) == [2, 1, 1];
    assert IndexOf([2, 1, 1], 1) == 1;
  }

  // ---------------------------------------------------------------------------
  // Invariant
  // ---------------------------------------------------------------------------

  /** Every action keeps the state valid (the order a permutation of the point
      keys, every point's parcel order a permutation of its parcel keys), given
      well-formed data for RESET. */
  lemma ReducePreservesValid(s: TourneeState, action: Action, now: string)
    requires Valid(s)
    requires action.Reset? ==> WellFormedRound(action.adresses)
    ensures Valid(Reduce(s, action, now))
  {
    match action
    case SwapPoints(a, b) =>
      var order := SwapOrder(s.pointsOrder, a, b);
      SwapOrderPermutes(s.pointsOrder, a, b);
      NoDuplicatesPermutation(s.pointsOrder, order);
    case Reset(ads) =>
      InitValid(ads);
    case _ =>
  }

  /** A run of actions, each with the timestamp it records. */
  function Run(s: TourneeState, steps: seq<(Action, string)>): TourneeState
    decreases |steps|
  {
    if steps == [] then s else Run(Reduce(s, steps[0].0, steps[0].1), steps[1..])
  }

  predicate ResetsWellFormed(steps: seq<(Action, string)>)
  {
    forall k | 0 <= k < |steps| :: steps[k].0.Reset? ==> WellFormedRound(steps[k].0.adresses)
  }

  /** Validity holds after every run of actions. */
  lemma {:induction false} RunPreservesValid(s: TourneeState, steps: seq<(Action, string)>)
    requires Valid(s) && ResetsWellFormed(steps)
    ensures Valid(Run(s, steps))
    decreases |steps|
  {
    if steps != [] {
      ReducePreservesValid(s, steps[0].0, steps[0].1);
      assert ResetsWellFormed(steps[1..]) by {
        forall k | 0 <= k < |steps[1..]| ensures steps[1..][k] == steps[k + 1] { }
      }
      RunPreservesValid(Reduce(s, steps[0].0, steps[0].1), steps[1..]);
    }
  }

  /** Without RESET, any run (repeated swaps included) keeps the point keys and
      the unloading record, and leaves the order a permutation of the original
      order, valid state or not. */
  lemma {:induction false} RunWithoutResetPermutesOrder(s: TourneeState, steps: seq<(Action, string)>)
    requires forall k | 0 <= k < |steps| :: !steps[k].0.Reset?
    ensures Run(s, steps).points.Keys == s.points.Keys
    ensures Run(s, steps).dechargement == s.dechargement
    ensures multiset(Run(s, steps).pointsOrder) == multiset(s.pointsOrder)
    decreases |steps|
  {
    if steps != [] {
      NonResetFrame(s, steps[0].0, steps[0].1);
      assert forall k | 0 <= k < |steps[1..]| :: steps[1..][k] == steps[k + 1];
      RunWithoutResetPermutesOrder(Reduce(s, steps[0].0, steps[0].1), steps[1..]);
    }
  }
}
