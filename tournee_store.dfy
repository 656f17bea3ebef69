/** The tournée state tree: the round, its points (stops) keyed by number, each
    point's parcels (colis) keyed by name, the display orders of both, and the
    unloading (déchargement) record; the builder that creates the tree from the
    static round data, and the reducer that applies one action to it. */
module TourneeStore {
  import opened Optional
  import opened SeqUtil
  import Gemini

  // ---------------------------------------------------------------------------
  // Statuses and reasons
  // ---------------------------------------------------------------------------

  datatype TourneeStatus = Pending | InProgress | Completed
  datatype PointStatus = Pending | Started | Failed | Success
  datatype ColisStatus = Pending | Collected | Refused

  /** Why a parcel was refused (the five labels of the source's single list). */
  datatype RefusalReason =
    | NotAtHome | NotWeee | NotIntact | AboveFifthFloorNoLift | ClientAbsent
  {
    function Label(): string
    {
      match this
      case NotAtHome => "Appareil non au domicile"
      case NotWeee => "Appareil non DEEE"
      case NotIntact => "Appareil non intègre"
      case AboveFifthFloorNoLift => "Collecte >5e étage sans ascenseur"
      case ClientAbsent => "Client non présent / ne répond pas"
    }
  }

  /** Why a point failed. */
  datatype FailureReason = PersonAbsent | AccessImpossible | AnswerD
  {
    function Label(): string
    {
      match this
      case PersonAbsent => "Personne absente"
      case AccessImpossible => "Accès impossible"
      case AnswerD => "La réponse D"
    }
  }

  /** Distinct reasons carry distinct labels, so each enumeration stands for
      the source's list of label strings one to one. */
  lemma ReasonLabelsDistinct()
    ensures forall a: RefusalReason, b: RefusalReason | a.Label() == b.Label() :: a == b
    ensures forall a: FailureReason, b: FailureReason | a.Label() == b.Label() :: a == b
  {
  }

  // ---------------------------------------------------------------------------
  // Static round data
  // ---------------------------------------------------------------------------

  datatype StaticStatut = Collecte | NonCollecte

  /** The descriptive fields of a parcel, copied unchanged into its state. */
  datatype ColisInfo = ColisInfo(
    kind: Option<string>,
    marque: Option<string>,
    modele: Option<string>,
    poids: Option<string>,
    statut: Option<StaticStatut>,
    categorie: Option<string>)

  datatype ColisItem = ColisItem(name: string, info: ColisInfo)

  /** The descriptive fields of a stop, copied unchanged into its state. */
  datatype AddressInfo = AddressInfo(
    adresse: string,
    latitude: real,
    longitude: real,
    clientName: Option<string>,
    phone: Option<string>,
    notes: Option<string>,
    creneauHoraire: Option<string>,
    ville: Option<string>,
    missionType: Option<string>,
    missionRef: Option<string>,
    missionPartenaire: Option<string>)

  /** One stop of the static round data. */
  datatype Adresse = Adresse(numero: int, info: AddressInfo, colis: seq<ColisItem>)

  // ---------------------------------------------------------------------------
  // State tree
  // ---------------------------------------------------------------------------

  datatype ColisState = ColisState(
    name: string,
    info: ColisInfo,
    status: ColisStatus,
    photo: Option<string>,
    analysis: Option<Gemini.ObjectAnalysis>,
    refusalReason: Option<RefusalReason>)

  datatype PointState = PointState(
    numero: int,
    info: AddressInfo,
    status: PointStatus,
    startedAt: Option<string>,
    completedAt: Option<string>,
    photo: Option<string>,
    failureReason: Option<FailureReason>,
    colis: map<string, ColisState>,
    colisOrder: seq<string>)

  datatype DechargementStatus = Locked | Pending | Started | Completed
  datatype Destination = Benne | Recyclage

  /** One parcel scanned at the depot. */
  datatype ScannedInfo = ScannedInfo(
    colisName: string,
    pointNumero: int,
    destination: Destination,
    scannedAt: string)

  /** The unloading stage, reduced to what the selectors read: its status and
      the scanned parcels keyed by "{numero}-{name}". */
  datatype DechargementState = DechargementState(
    status: DechargementStatus,
    scannedColis: map<string, ScannedInfo>)

  datatype TourneeState = TourneeState(
    id: string,
    status: TourneeStatus,
    startedAt: Option<string>,
    completedAt: Option<string>,
    points: map<int, PointState>,
    pointsOrder: seq<int>,
    dechargement: DechargementState)

  // ---------------------------------------------------------------------------
  // Invariants
  // ---------------------------------------------------------------------------

  /** A point is stored under its own number, and its parcel order lists each of
      its parcel keys exactly once, each parcel stored under its own name. */
  predicate PointValid(n: int, p: PointState)
  {
    && p.numero == n
    && NoDuplicates(p.colisOrder)
    && (forall k | k in p.colis :: k in p.colisOrder)
    && (forall k | k in p.colisOrder :: k in p.colis)
    && (forall k | k in p.colis :: p.colis[k].name == k)
  }

  /** The order of points is a permutation of the point keys, and every point is
      valid. */
  predicate Valid(s: TourneeState)
  {
    && NoDuplicates(s.pointsOrder)
    && (forall n | n in s.points :: n in s.pointsOrder)
    && (forall n | n in s.pointsOrder :: n in s.points)
    && (forall n | n in s.points :: PointValid(n, s.points[n]))
  }

  /** A parcel as the builder creates it: pending, with no photo, analysis or
      refusal reason. */
  predicate IsFreshColis(c: ColisState)
  {
    c.status == ColisStatus.Pending && c.photo.None? && c.analysis.None? && c.refusalReason.None?
  }

  /** A point as the builder creates it. */
  predicate IsFreshPoint(n: int, p: PointState)
  {
    && p.numero == n
    && p.status == PointStatus.Pending
    && p.startedAt.None? && p.completedAt.None? && p.photo.None? && p.failureReason.None?
    && (forall k | k in p.colis :: k in p.colisOrder)
    && (forall k | k in p.colisOrder :: k in p.colis)
    && (forall k | k in p.colis :: p.colis[k].name == k && IsFreshColis(p.colis[k]))
  }

  // ---------------------------------------------------------------------------
  // Builder
  // ---------------------------------------------------------------------------

  /** A parcel as the builder creates it from its static entry. */
  function BuildColis(c: ColisItem): (r: ColisState)
    ensures r.name == c.name && r.info == c.info && IsFreshColis(r)
  {
    ColisState(c.name, c.info, ColisStatus.Pending, None, None, None)
  }

  /** The names of the parcels, in input order. */
  function ColisNames(cs: seq<ColisItem>): (names: seq<string>)
    ensures |names| == |cs|
    ensures forall i | 0 <= i < |cs| :: names[i] == cs[i].name
  {
    if cs == [] then [] else ColisNames(cs[..|cs| - 1]) + [cs[|cs| - 1].name]
  }

  /** The parcel record, filled in input order (a later parcel of the same name
      overwrites an earlier one). */
  function ColisRecord(cs: seq<ColisItem>): (m: map<string, ColisState>)
    ensures forall k :: k in m <==> k in ColisNames(cs)
    ensures forall k | k in m :: m[k].name == k && IsFreshColis(m[k])
  {
    if cs == [] then map[]
    else
      var last := cs[|cs| - 1];
      ColisRecord(cs[..|cs| - 1])[last.name := BuildColis(last)]
  }

  /** A stop as the builder creates it: fresh, with its static fields and its
      parcels in input order. */
  function BuildPoint(a: Adresse): (p: PointState)
    ensures IsFreshPoint(a.numero, p) && p.info == a.info
    ensures p.colisOrder == ColisNames(a.colis)
    ensures forall k :: k in p.colis <==> k in p.colisOrder
  {
    PointState(a.numero, a.info, PointStatus.Pending, None, None, None, None,
               ColisRecord(a.colis), ColisNames(a.colis))
  }

  /** The numbers of the stops, in input order. */
  function Numeros(ads: seq<Adresse>): (ns: seq<int>)
    ensures |ns| == |ads|
    ensures forall i | 0 <= i < |ads| :: ns[i] == ads[i].numero
  {
    if ads == [] then [] else Numeros(ads[..|ads| - 1]) + [ads[|ads| - 1].numero]
  }

  /** The point record, filled in input order. */
  function PointsRecord(ads: seq<Adresse>): (m: map<int, PointState>)
    ensures forall n :: n in m <==> n in Numeros(ads)
    ensures forall n | n in m :: IsFreshPoint(n, m[n])
  {
    if ads == [] then map[]
    else
      var last := ads[|ads| - 1];
      PointsRecord(ads[..|ads| - 1])[last.numero := BuildPoint(last)]
  }

  const TOURNEE_ID := "T01"

  /** The state built from the static round data. */
  function InitState(ads: seq<Adresse>): (s: TourneeState)
    ensures s.id == TOURNEE_ID && s.status == TourneeStatus.Pending
    ensures s.startedAt.None? && s.completedAt.None?
    ensures s.pointsOrder == Numeros(ads)
    ensures forall n :: n in s.points <==> n in s.pointsOrder
    ensures forall n | n in s.points :: IsFreshPoint(n, s.points[n])
    ensures s.dechargement == DechargementState(DechargementStatus.Locked, map[])
  {
    TourneeState(TOURNEE_ID, TourneeStatus.Pending, None, None,
                 PointsRecord(ads), Numeros(ads),
                 DechargementState(DechargementStatus.Locked, map[]))
  }

  /** Round data the builder can turn into a valid state: stop numbers are
      distinct, and parcel names are distinct within each stop. */
  predicate WellFormedRound(ads: seq<Adresse>)
  {
    && NoDuplicates(Numeros(ads))
    && forall i | 0 <= i < |ads| :: NoDuplicates(ColisNames(ads[i].colis))
  }

  method BuildPointState(adresse: Adresse) returns (point: PointState)
    ensures point == BuildPoint(adresse)
  {
    var colisRecord: map<string, ColisState> := map[];
    var colisOrder: seq<string> := [];
    var i := 0;
    while i < |adresse.colis|
      invariant 0 <= i <= |adresse.colis|
      invariant colisRecord == ColisRecord(adresse.colis[..i])
      invariant colisOrder == ColisNames(adresse.colis[..i])
    {
      var c := adresse.colis[i];
      assert adresse.colis[..i + 1][..i] == adresse.colis[..i];
      colisRecord := colisRecord[c.name := BuildColis(c)];
      colisOrder := colisOrder + [c.name];
      i := i + 1;
    }
    assert adresse.colis[..i] == adresse.colis;
    point := PointState(adresse.numero, adresse.info, PointStatus.Pending, None, None, None, None,
                        colisRecord, colisOrder);
  }

  method InitTourneeState(adresses: seq<Adresse>) returns (state: TourneeState)
    ensures state == InitState(adresses)
  {
    var points: map<int, PointState> := map[];
    var pointsOrder: seq<int> := [];
    var i := 0;
    while i < |adresses|
      invariant 0 <= i <= |adresses|
      invariant points == PointsRecord(adresses[..i])
      invariant pointsOrder == Numeros(adresses[..i])
    {
      var a := adresses[i];
      assert adresses[..i + 1][..i] == adresses[..i];
      assert PointsRecord(adresses[..i + 1]) == PointsRecord(adresses[..i])[a.numero := BuildPoint(a)];
      assert Numeros(adresses[..i + 1]) == Numeros(adresses[..i]) + [a.numero];
      var point := BuildPointState(a);
      points := points[a.numero := point];
      pointsOrder := pointsOrder + [a.numero];
      i := i + 1;
    }
    assert adresses[..i] == adresses;
    assert points == PointsRecord(adresses) && pointsOrder == Numeros(adresses);
    state := TourneeState(TOURNEE_ID, TourneeStatus.Pending, None, None, points, pointsOrder,
                          DechargementState(DechargementStatus.Locked, map[]));
  }

  // ---------------------------------------------------------------------------
  // Actions and reducer
  // ---------------------------------------------------------------------------

  datatype PointResult = ResultSuccess | ResultFailed

  datatype Action =
    | StartTournee
    | StartPoint(numero: int)
    | CompletePoint(numero: int, result: PointResult, failureReason: Option<FailureReason>)
    | SetPointPhoto(numero: int, uri: string)
    | CollectColis(numero: int, colisName: string, photo: string,
                   newAnalysis: Option<Gemini.ObjectAnalysis>)
    | RefuseColis(numero: int, colisName: string, reason: RefusalReason)
    | SetColisAnalysis(numero: int, colisName: string, analysis: Gemini.ObjectAnalysis)
    | ResetPoint(numero: int)
    | SwapPoints(numeroA: int, numeroB: int)
    | CompleteTournee
    | Reset(adresses: seq<Adresse>)

  /** The order with the first occurrences of `a` and `b` exchanged, or the
      order unchanged when either is absent. */
  function SwapOrder(order: seq<int>, a: int, b: int): (r: seq<int>)
    ensures |r| == |order| && multiset(r) == multiset(order)
    ensures a !in order || b !in order ==> r == order
  {
    var idxA := IndexOf(order, a);
    var idxB := IndexOf(order, b);
    if idxA == -1 || idxB == -1 then order else SwapAt(order, idxA, idxB)
  }

  /** SWAP_POINTS on the order: copy it into an array, locate both numbers and
      exchange the two cells in place. */
  method SwapPointsOrder(order: seq<int>, numeroA: int, numeroB: int) returns (newOrder: seq<int>)
    ensures newOrder == SwapOrder(order, numeroA, numeroB)
  {
    var orderCopy := new int[|order|](i requires 0 <= i < |order| => order[i]);
    assert orderCopy[..] == order;
    var idxA := IndexOf(orderCopy[..], numeroA);
    var idxB := IndexOf(orderCopy[..], numeroB);
    if idxA == -1 || idxB == -1 {
      return order;
    }
    orderCopy[idxA], orderCopy[idxB] := orderCopy[idxB], orderCopy[idxA];
    newOrder := orderCopy[..];
  }

  /** The state with point `n` replaced. */
  function WithPoint(s: TourneeState, n: int, p: PointState): TourneeState
  {
    s.(points := s.points[n := p])
  }

  /** The state with parcel `name` of point `n` replaced. */
  function WithColis(s: TourneeState, n: int, name: string, c: ColisState): TourneeState
    requires n in s.points
  {
    var p := s.points[n];
    WithPoint(s, n, p.(colis := p.colis[name := c]))
  }

  /** Applies one action; `now` is the timestamp the action records. */
  function Reduce(s: TourneeState, action: Action, now: string): (r: TourneeState)
    ensures !action.Reset? ==> r.id == s.id && r.dechargement == s.dechargement
    ensures !action.Reset? ==> r.points.Keys == s.points.Keys
    ensures !action.Reset? ==> multiset(r.pointsOrder) == multiset(s.pointsOrder)
    ensures action.Reset? ==> r.dechargement == DechargementState(DechargementStatus.Locked, map[])
  {
    match action
    case StartTournee =>
      s.(status := TourneeStatus.InProgress, startedAt := Some(now))
    case StartPoint(n) =>
      if n !in s.points then s
      else WithPoint(s, n, s.points[n].(status := PointStatus.Started, startedAt := Some(now)))
    case CompletePoint(n, result, reason) =>
      if n !in s.points then s
      else
        var newStatus := if result == ResultSuccess then PointStatus.Success else PointStatus.Failed;
        WithPoint(s, n, s.points[n].(status := newStatus, completedAt := Some(now),
                                     failureReason := reason))
    case SetPointPhoto(n, uri) =>
      if n !in s.points then s
      else WithPoint(s, n, s.points[n].(photo := Some(uri)))
    case CollectColis(n, name, photo, analysis) =>
      if n !in s.points then s
      else if name !in s.points[n].colis then s
      else
        var c := s.points[n].colis[name];
        WithColis(s, n, name, c.(status := ColisStatus.Collected, photo := Some(photo),
                                 analysis := if analysis.Some? then analysis else c.analysis))
    case RefuseColis(n, name, reason) =>
      if n !in s.points then s
      else if name !in s.points[n].colis then s
      else
        var c := s.points[n].colis[name];
        WithColis(s, n, name, c.(status := ColisStatus.Refused, refusalReason := Some(reason)))
    case SetColisAnalysis(n, name, analysis) =>
      if n !in s.points then s
      else if name !in s.points[n].colis then s
      else WithColis(s, n, name, s.points[n].colis[name].(analysis := Some(analysis)))
    case ResetPoint(n) =>
      if n !in s.points then s
      else WithPoint(s, n, s.points[n].(status := PointStatus.Started, completedAt := None))
    case SwapPoints(a, b) =>
      s.(pointsOrder := SwapOrder(s.pointsOrder, a, b))
    case CompleteTournee =>
      s.(status := TourneeStatus.Completed, completedAt := Some(now))
    case Reset(ads) =>
      InitState(ads)
  }
}
