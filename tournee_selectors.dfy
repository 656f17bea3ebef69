/** Read-only projections of the tournée state: lookups, progress percentages,
    the ordered points, the results map, the all-done test, the roster of
    collected parcels, the unloading scan queries and the QR-code lookup. */
module TourneeSelectors {
  import opened Optional
  import opened SeqUtil
  import opened JsNumbers
  import opened TourneeStore

  // ---------------------------------------------------------------------------
  // Lookups
  // ---------------------------------------------------------------------------

  function GetPoint(s: TourneeState, numero: int): (r: Option<PointState>)
    ensures r.Some? <==> numero in s.points
    ensures r.Some? ==> r.value == s.points[numero]
  {
    if numero in s.points then Some(s.points[numero]) else None
  }

  function GetColis(s: TourneeState, numero: int, colisName: string): (r: Option<ColisState>)
    ensures r.Some? <==> numero in s.points && colisName in s.points[numero].colis
    ensures r.Some? ==> r.value == s.points[numero].colis[colisName]
  {
    match GetPoint(s, numero)
    case None => None
    case Some(p) => if colisName in p.colis then Some(p.colis[colisName]) else None
  }

  // ---------------------------------------------------------------------------
  // Progress
  // ---------------------------------------------------------------------------

  /** `Math.round(done / total * 100)`: the percentage rounded to the nearest
      integer, halves upwards, i.e. r <= 100 * done / total + 1/2 < r + 1. */
  function RoundPercent(done: nat, total: nat): (r: int)
    requires 0 < total && done <= total
    ensures 0 <= r <= 100
    ensures 2 * total * r <= 200 * done + total < 2 * total * (r + 1)
  {
    var q := (200 * done + total) / (2 * total);
    DivBelow(200 * done + total, 2 * total, 100);
    q
  }

  lemma DivBelow(x: nat, y: nat, c: nat)
    requires 0 < y && x < (c + 1) * y
    ensures x / y <= c
    ensures y * (x / y) <= x < y * (x / y + 1)
  {
    var q := x / y;
    assert x == y * q + x % y;
    assert y * q < y * (c + 1);
  }

  /** The point is known and terminal (success or failed). */
  predicate IsPointDone(points: map<int, PointState>, n: int)
  {
    n in points && (points[n].status == PointStatus.Success || points[n].status == PointStatus.Failed)
  }

  /** How many of the numbers name a terminal point. */
  function DoneCount(points: map<int, PointState>, ns: seq<int>): (k: nat)
    ensures k <= |ns|
  {
    if ns == [] then 0
    else DoneCount(points, ns[..|ns| - 1]) + (if IsPointDone(points, ns[|ns| - 1]) then 1 else 0)
  }

  /** Percentage of the ordered points that are terminal; 0 for an empty order. */
  function TourneeProgress(s: TourneeState): (pct: int)
    ensures 0 <= pct <= 100
    ensures |s.pointsOrder| == 0 ==> pct == 0
  {
    if |s.pointsOrder| == 0 then 0
    else RoundPercent(DoneCount(s.points, s.pointsOrder), |s.pointsOrder|)
  }

  /** The parcel is known and handled (collected or refused). */
  predicate IsColisHandled(p: PointState, name: string)
  {
    name in p.colis && (p.colis[name].status == ColisStatus.Collected || p.colis[name].status == ColisStatus.Refused)
  }

  function HandledCount(p: PointState, names: seq<string>): (k: nat)
    ensures k <= |names|
  {
    if names == [] then 0
    else HandledCount(p, names[..|names| - 1]) + (if IsColisHandled(p, names[|names| - 1]) then 1 else 0)
  }

  /** Percentage of a point's ordered parcels that are handled; 0 for a missing
      point or one without parcels. */
  function PointProgress(s: TourneeState, numero: int): (pct: int)
    ensures 0 <= pct <= 100
    ensures numero !in s.points || |s.points[numero].colisOrder| == 0 ==> pct == 0
  {
    if numero !in s.points then 0
    else
      var p := s.points[numero];
      if |p.colisOrder| == 0 then 0
      else RoundPercent(HandledCount(p, p.colisOrder), |p.colisOrder|)
  }

  // ---------------------------------------------------------------------------
  // Ordered points
  // ---------------------------------------------------------------------------

  /** The points named by `ns`, in that order, dangling numbers dropped. */
  function OrderedFrom(points: map<int, PointState>, ns: seq<int>): (r: seq<PointState>)
    ensures |r| <= |ns|
    ensures (forall i | 0 <= i < |ns| :: ns[i] in points) ==>
              |r| == |ns| && forall i | 0 <= i < |ns| :: r[i] == points[ns[i]]
    ensures forall p :: p in r <==> exists i | 0 <= i < |ns| :: ns[i] in points && points[ns[i]] == p
  {
    if ns == [] then []
    else
      var rest := OrderedFrom(points, ns[1..]);
      assert forall i | 1 <= i < |ns| :: ns[i] == ns[1..][i - 1];
      (if ns[0] in points then [points[ns[0]]] else []) + rest
  }

  /** The display list: never longer than the order, and one stop per ordered
      number, in that order, when every ordered number names a stop. */
  function OrderedPoints(s: TourneeState): (r: seq<PointState>)
    ensures |r| <= |s.pointsOrder|
    ensures (forall i | 0 <= i < |s.pointsOrder| :: s.pointsOrder[i] in s.points) ==>
              |r| == |s.pointsOrder| && forall i | 0 <= i < |r| :: r[i] == s.points[s.pointsOrder[i]]
  {
    OrderedFrom(s.points, s.pointsOrder)
  }

  // ---------------------------------------------------------------------------
  // Results map and completion
  // ---------------------------------------------------------------------------

  datatype MapResult = Success | Fail

  function ResultOf(p: PointState): Option<MapResult>
  {
    if p.status == PointStatus.Success then Some(MapResult.Success)
    else if p.status == PointStatus.Failed then Some(MapResult.Fail)
    else None
  }

  /** The results the map view shows: a key for exactly the terminal points,
      "success" for success and "fail" for failed. */
  function ResultsMap(s: TourneeState): (results: map<int, MapResult>)
    ensures forall n :: n in results <==> IsPointDone(s.points, n)
    ensures forall n | n in results ::
              n in s.points && results[n] == (if s.points[n].status == PointStatus.Success then MapResult.Success else MapResult.Fail)
  {
    map n | n in s.points && ResultOf(s.points[n]).Some? :: ResultOf(s.points[n]).value
  }

  /** The results of the points whose numbers are in `visited`. */
  function ResultsOf(points: map<int, PointState>, visited: set<int>): map<int, MapResult>
  {
    map n | n in visited && n in points && ResultOf(points[n]).Some? :: ResultOf(points[n]).value
  }

  /** The loop over the entries of the point record. */
  method GetResultsMap(s: TourneeState) returns (results: map<int, MapResult>)
    ensures results == ResultsMap(s)
  {
    results := map[];
    var remaining := s.points.Keys;
    while remaining != {}
      invariant remaining <= s.points.Keys
      invariant results == ResultsOf(s.points, s.points.Keys - remaining)
      decreases remaining
    {
      ghost var w := PickElement(remaining);
      var numero :| numero in remaining;
      var point := s.points[numero];
      if point.status == PointStatus.Success {
        results := results[numero := MapResult.Success];
      } else if point.status == PointStatus.Failed {
        results := results[numero := MapResult.Fail];
      }
      remaining := remaining - {numero};
    }
  }

  /** Every ordered number names a terminal point; then every ordered number
      has an entry in the results map. */
  predicate AllPointsDone(s: TourneeState)
    ensures AllPointsDone(s) ==>
              forall i | 0 <= i < |s.pointsOrder| :: s.pointsOrder[i] in ResultsMap(s)
  {
    forall i | 0 <= i < |s.pointsOrder| :: IsPointDone(s.points, s.pointsOrder[i])
  }

  // ---------------------------------------------------------------------------
  // Collected parcels
  // ---------------------------------------------------------------------------

  datatype CollectedColisInfo = CollectedColisInfo(colisName: string, pointNumero: int, colis: ColisState)

  /** The entry names a parcel of a known point, carries that parcel, and the
      parcel is collected. */
  predicate IsCollectedEntry(points: map<int, PointState>, info: CollectedColisInfo)
  {
    && info.pointNumero in points
    && info.colisName in points[info.pointNumero].colis
    && points[info.pointNumero].colis[info.colisName] == info.colis
    && info.colis.status == ColisStatus.Collected
  }

  /** The collected parcels of point `n` among `names`, in that order. */
  function PointCollected(n: int, p: PointState, names: seq<string>): (r: seq<CollectedColisInfo>)
    ensures forall k | 0 <= k < |r| ::
              r[k].pointNumero == n && r[k].colisName in p.colis
              && p.colis[r[k].colisName] == r[k].colis && r[k].colis.status == ColisStatus.Collected
  {
    if names == [] then []
    else
      var name := names[|names| - 1];
      PointCollected(n, p, names[..|names| - 1])
        + (if name in p.colis && p.colis[name].status == ColisStatus.Collected
           then [CollectedColisInfo(name, n, p.colis[name])] else [])
  }

  /** The collected parcels of the points named by `ns`, point by point. */
  function CollectedFrom(points: map<int, PointState>, ns: seq<int>): (r: seq<CollectedColisInfo>)
    ensures forall k | 0 <= k < |r| :: IsCollectedEntry(points, r[k])
  {
    if ns == [] then []
    else
      var n := ns[|ns| - 1];
      CollectedFrom(points, ns[..|ns| - 1])
        + (if n in points then PointCollected(n, points[n], points[n].colisOrder) else [])
  }

  function AllCollected(s: TourneeState): (r: seq<CollectedColisInfo>)
    ensures forall k | 0 <= k < |r| :: IsCollectedEntry(s.points, r[k])
  {
    CollectedFrom(s.points, s.pointsOrder)
  }

  /** The nested loop over the point order and each point's parcel order. */
  method GetAllCollectedColis(s: TourneeState) returns (collected: seq<CollectedColisInfo>)
    ensures collected == AllCollected(s)
  {
    collected := [];
    var i := 0;
    while i < |s.pointsOrder|
      invariant 0 <= i <= |s.pointsOrder|
      invariant collected == CollectedFrom(s.points, s.pointsOrder[..i])
    {
      var numero := s.pointsOrder[i];
      assert s.pointsOrder[..i + 1][..i] == s.pointsOrder[..i];
      if numero in s.points {
        var point := s.points[numero];
        var j := 0;
        while j < |point.colisOrder|
          invariant 0 <= j <= |point.colisOrder|
          invariant collected == CollectedFrom(s.points, s.pointsOrder[..i])
                                 + PointCollected(numero, point, point.colisOrder[..j])
        {
          var name := point.colisOrder[j];
          assert point.colisOrder[..j + 1][..j] == point.colisOrder[..j];
          if name in point.colis && point.colis[name].status == ColisStatus.Collected {
            collected := collected + [CollectedColisInfo(name, numero, point.colis[name])];
          }
          j := j + 1;
        }
        assert point.colisOrder[..j] == point.colisOrder;
      }
      i := i + 1;
    }
    assert s.pointsOrder[..i] == s.pointsOrder;
  }

  // ---------------------------------------------------------------------------
  // Unloading
  // ---------------------------------------------------------------------------

  /** The key of a scanned parcel, "{numero}-{name}": the number's text, a
      dash, then the name. */
  function ScanKey(numero: int, colisName: string): (k: string)
    ensures |k| == |IntString(numero)| + 1 + |colisName|
    ensures k[..|IntString(numero)|] == IntString(numero)
    ensures k[|IntString(numero)|] == '-' && k[|IntString(numero)| + 1..] == colisName
  {
    IntString(numero) + "-" + colisName
  }

  /** The number of scanned keys; 0 exactly when nothing was scanned. */
  function ScannedCount(s: TourneeState): (c: nat)
    ensures c == 0 <==> s.dechargement.scannedColis == map[]
  {
    var m := s.dechargement.scannedColis;
    assert m != map[] ==> exists k :: k in m.Keys;
    |m|
  }

  /** A parcel tests as scanned only when something was scanned. */
  predicate IsColisScanned(s: TourneeState, numero: int, colisName: string)
    ensures IsColisScanned(s, numero, colisName) ==> ScannedCount(s) > 0
  {
    ScanKey(numero, colisName) in s.dechargement.scannedColis
  }

  // ---------------------------------------------------------------------------
  // QR codes
  // ---------------------------------------------------------------------------

  /** Point `n` is known and holds a collected parcel called `name`. */
  predicate IsCollectedAt(points: map<int, PointState>, n: int, name: string)
  {
    n in points && name in points[n].colis && points[n].colis[name].status == ColisStatus.Collected
  }

  /** The QR payload of a parcel: "{numero}:{name}". */
  function QrCode(numero: int, colisName: string): string
  {
    IntString(numero) + ":" + colisName
  }

  /** Splits the payload at its first colon, reads the number before it and
      looks up the parcel named by everything after it; found only when that
      parcel is collected. */
  function FindColisFromQR(s: TourneeState, qrData: string): (r: Option<CollectedColisInfo>)
    ensures r.Some? ==> IsCollectedEntry(s.points, r.value)
    ensures r.Some? <==>
      var i := IndexOf(qrData, ':');
      i >= 0 && ParseNumber(qrData[..i]).Some? && IsCollectedAt(s.points, ParseNumber(qrData[..i]).value, qrData[i + 1..])
    ensures r.Some? ==>
      var i := IndexOf(qrData, ':');
      i >= 0 && Some(r.value.pointNumero) == ParseNumber(qrData[..i]) && r.value.colisName == qrData[i + 1..]
  {
    var colonIdx := IndexOf(qrData, ':');
    if colonIdx == -1 then None
    else
      var numStr := qrData[..colonIdx];
      var colisName := qrData[colonIdx + 1..];
      match ParseNumber(numStr)
      case None => None
      case Some(pointNumero) =>
        if pointNumero !in s.points then None
        else
          var point := s.points[pointNumero];
          if colisName !in point.colis || point.colis[colisName].status != ColisStatus.Collected then None
          else Some(CollectedColisInfo(colisName, pointNumero, point.colis[colisName]))
  }
}
