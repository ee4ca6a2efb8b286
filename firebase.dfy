/**
 * The Firestore side of the app: one-time initialisation of the SDK
 * handles, the document stored for a hazard report, and the client-side
 * bounding-box filter over the stored reports.
 */
module Firebase {
  import opened Wrappers
  import opened Geo

  /** The two configuration values the code checks; a missing or empty one is falsy. */
  datatype Config = Config(apiKey: Option<string>, projectId: Option<string>)

  predicate ConfigPresent(c: Config)
  {
    c.apiKey.Some? && c.apiKey.value != "" && c.projectId.Some? && c.projectId.value != ""
  }

  /** An SDK object (app, database or auth service). */
  datatype Handle = Handle(id: nat)

  /** How the three SDK calls of the initialisation turn out; each can throw. */
  datatype SdkInit =
    | Succeeds(app: Handle, db: Handle, auth: Handle)
    | AppThrows
    | FirestoreThrows(app: Handle)
    | AuthThrows(app: Handle, db: Handle)

  /** The `{ app, db, auth }` object handed back to the caller. */
  datatype Handles = Handles(app: Option<Handle>, db: Option<Handle>, auth: Option<Handle>)

  const NoHandles: Handles := Handles(None, None, None)

  /** The module's four variables. */
  datatype FbState = FbState(app: Option<Handle>, db: Option<Handle>, auth: Option<Handle>, isInitialized: bool)

  const Uninitialized: FbState := FbState(None, None, None, false)

  datatype Initialized = Initialized(next: FbState, result: Handles)

  /**
   * One call of the initialisation. Handles assigned before an SDK call
   * throws stay assigned, but the initialised flag is only set when all
   * three calls succeed.
   */
  function Initialize(s: FbState, config: Config, sdk: SdkInit): (r: Initialized)
    ensures s.isInitialized ==> r.next == s
    ensures !s.isInitialized && r.next.isInitialized ==> r.next.app.Some? && r.next.db.Some? && r.next.auth.Some?
    ensures r.next.isInitialized ==> r.result == Handles(r.next.app, r.next.db, r.next.auth)
    ensures !r.next.isInitialized ==> r.result == NoHandles
  {
    if s.isInitialized then Initialized(s, Handles(s.app, s.db, s.auth))
    else if !ConfigPresent(config) then Initialized(s, NoHandles)
    else match sdk
      case Succeeds(a, d, u) => Initialized(FbState(Some(a), Some(d), Some(u), true), Handles(Some(a), Some(d), Some(u)))
      case AppThrows => Initialized(s, NoHandles)
      case FirestoreThrows(a) => Initialized(s.(app := Some(a)), NoHandles)
      case AuthThrows(a, d) => Initialized(s.(app := Some(a), db := Some(d)), NoHandles)
  }

  /** `isInitialized && db !== null`. */
  predicate IsConfigured(s: FbState)
  {
    s.isInitialized && s.db.Some?
  }

  /** Once initialised, every further call hands back the same handles and changes nothing. */
  lemma InitializeIdempotent(s: FbState, config: Config, sdk1: SdkInit, sdk2: SdkInit)
    requires Initialize(s, config, sdk1).next.isInitialized
    ensures var first := Initialize(s, config, sdk1);
            Initialize(first.next, config, sdk2) == Initialized(first.next, Handles(first.next.app, first.next.db, first.next.auth))
    ensures Initialize(s, config, sdk1).result == Handles(Initialize(s, config, sdk1).next.app, Initialize(s, config, sdk1).next.db, Initialize(s, config, sdk1).next.auth)
  {
  }

  /**
   * Without an API key or project id nothing is initialised, null handles are
   * returned, and the state is left as it was.
   */
  lemma MissingConfigStaysLocal(s: FbState, config: Config, sdk: SdkInit)
    requires !s.isInitialized && !ConfigPresent(config)
    ensures Initialize(s, config, sdk) == Initialized(s, NoHandles)
    ensures !IsConfigured(Initialize(s, config, sdk).next)
  {
  }

  /** Starting from nothing, the client is configured exactly when all three SDK calls succeed. */
  lemma ConfiguredIffInitSucceeded(config: Config, sdk: SdkInit)
    ensures IsConfigured(Initialize(Uninitialized, config, sdk).next) <==> ConfigPresent(config) && sdk.Succeeds?
    ensures IsConfigured(Initialize(Uninitialized, config, sdk).next) <==>
            Initialize(Uninitialized, config, sdk).result != NoHandles
  {
  }

  /**
   * A failed initialisation can leave a database handle without the flag:
   * the client then saves to and reads from that database while reporting
   * itself as not configured.
   */
  lemma PartialInitLeavesDatabase(a: Handle, d: Handle, config: Config)
    requires ConfigPresent(config)
    ensures var r := Initialize(Uninitialized, config, AuthThrows(a, d));
            r.next.db == Some(d) && !IsConfigured(r.next) && r.result == NoHandles
  {
  }

  // ---------------------------------------------------------------------
  // Saving a report
  // ---------------------------------------------------------------------

  /** A hazard report as the caller passes it; absent fields are None. */
  datatype Report = Report(
    lat: real,
    lng: real,
    hazardType: Option<string>,
    detectionMethod: Option<string>,
    speedBefore: Option<real>,
    speedAfter: Option<real>,
    timestamp: Option<int>)

  /** The document written to `hazardReports`; times are epoch milliseconds. */
  datatype HazardDoc = HazardDoc(
    lat: real,
    lng: real,
    location: LatLng,
    hazardType: string,
    detectionMethod: string,
    speedBefore: Option<real>,
    speedAfter: Option<real>,
    timestamp: int,
    createdAt: int,
    verified: bool,
    verificationCount: int)

  /** `x || fallback` on an optional integer: absent and 0 are falsy. */
  function IntOr(x: Option<int>, fallback: int): int
  {
    if x.Some? && x.value != 0 then x.value else fallback
  }

  /**
   * The document for a report. `now` (`Date.now()`) and `createdAt`
   * (`Timestamp.now()`) both read the client clock; they are taken as two
   * independent parameters.
   */
  function ToDocument(r: Report, now: int, createdAt: int): (d: HazardDoc)
    ensures d.lat == r.lat && d.lng == r.lng && d.location == LatLng(r.lat, r.lng)
    ensures d.hazardType == (if r.hazardType.Some? && r.hazardType.value != "" then r.hazardType.value else "unknown")
    ensures d.detectionMethod == (if r.detectionMethod.Some? && r.detectionMethod.value != "" then r.detectionMethod.value else "deceleration")
    ensures d.speedBefore.Some? <==> r.speedBefore.Some? && r.speedBefore.value != 0.0
    ensures d.speedAfter.Some? <==> r.speedAfter.Some? && r.speedAfter.value != 0.0
    ensures d.speedBefore.Some? ==> d.speedBefore.value == r.speedBefore.value
    ensures d.speedAfter.Some? ==> d.speedAfter.value == r.speedAfter.value
    ensures d.timestamp == (if r.timestamp.Some? && r.timestamp.value != 0 then r.timestamp.value else now)
    ensures d.createdAt == createdAt && !d.verified && d.verificationCount == 0
  {
    HazardDoc(r.lat, r.lng, LatLng(r.lat, r.lng),
              StringOr(r.hazardType, "unknown"), StringOr(r.detectionMethod, "deceleration"),
              NumberOrNull(r.speedBefore), NumberOrNull(r.speedAfter),
              IntOr(r.timestamp, now), createdAt, false, 0)
  }

  // ---------------------------------------------------------------------
  // Reading reports back
  // ---------------------------------------------------------------------

  /** A stored document as `doc.data()` returns it: every field may be missing. */
  datatype StoredDoc = StoredDoc(
    id: string,
    lat: Option<real>,
    lng: Option<real>,
    location: Option<LatLng>,
    hazardType: Option<string>,
    detectionMethod: Option<string>,
    verified: Option<bool>,
    verificationCount: Option<int>,
    createdAt: Option<int>)

  /** A written document as it is read back under its id. */
  function Stored(id: string, d: HazardDoc): StoredDoc
  {
    StoredDoc(id, Some(d.lat), Some(d.lng), Some(d.location), Some(d.hazardType), Some(d.detectionMethod),
              Some(d.verified), Some(d.verificationCount), Some(d.createdAt))
  }

  /** `data.lat || data.location?.latitude`. */
  function ResolvedLat(d: StoredDoc): (r: Option<real>)
    ensures r.Some? <==> (d.lat.Some? && d.lat.value != 0.0) || d.location.Some?
    ensures d.lat.Some? && d.lat.value != 0.0 ==> r == d.lat
    ensures (d.lat.None? || d.lat.value == 0.0) && d.location.Some? ==> r == Some(d.location.value.lat)
  {
    if d.lat.Some? && d.lat.value != 0.0 then d.lat
    else if d.location.Some? then Some(d.location.value.lat)
    else None
  }

  /** `data.lng || data.location?.longitude`. */
  function ResolvedLng(d: StoredDoc): (r: Option<real>)
    ensures r.Some? <==> (d.lng.Some? && d.lng.value != 0.0) || d.location.Some?
    ensures d.lng.Some? && d.lng.value != 0.0 ==> r == d.lng
    ensures (d.lng.None? || d.lng.value == 0.0) && d.location.Some? ==> r == Some(d.location.value.lng)
  {
    if d.lng.Some? && d.lng.value != 0.0 then d.lng
    else if d.location.Some? then Some(d.location.value.lng)
    else None
  }

  datatype Bounds = Bounds(north: real, south: real, east: real, west: real)

  /** Inclusive on all four sides; a missing coordinate compares false. */
  predicate InBounds(d: StoredDoc, b: Bounds)
    ensures InBounds(d, b) ==> b.south <= b.north && b.west <= b.east
  {
    && ResolvedLat(d).Some? && ResolvedLng(d).Some?
    && b.south <= ResolvedLat(d).value <= b.north
    && b.west <= ResolvedLng(d).value <= b.east
  }

  /** A crowdsourced hazard handed to the caller. */
  datatype CrowdHazard = CrowdHazard(
    id: string,
    lat: real,
    lng: real,
    kind: Option<string>,
    detectionMethod: Option<string>,
    verified: Option<bool>,
    verificationCount: Option<int>,
    createdAt: Option<int>)

  function ToCrowdHazard(d: StoredDoc): CrowdHazard
    requires ResolvedLat(d).Some? && ResolvedLng(d).Some?
  {
    CrowdHazard(d.id, ResolvedLat(d).value, ResolvedLng(d).value, d.hazardType, d.detectionMethod,
                d.verified, d.verificationCount, d.createdAt)
  }

  /** The documents inside the bounds, in snapshot order. */
  function WithinBounds(docs: seq<StoredDoc>, b: Bounds): (r: seq<CrowdHazard>)
    ensures |r| <= |docs|
  {
    if docs == [] then []
    else if InBounds(docs[0], b) then [ToCrowdHazard(docs[0])] + WithinBounds(docs[1..], b)
    else WithinBounds(docs[1..], b)
  }

  lemma {:induction false} WithinBoundsAppend(a: seq<StoredDoc>, c: seq<StoredDoc>, b: Bounds)
    ensures WithinBounds(a + c, b) == WithinBounds(a, b) + WithinBounds(c, b)
  {
    if a == [] {
      assert a + c == c;
    } else {
      assert (a + c)[1..] == a[1..] + c;
      WithinBoundsAppend(a[1..], c, b);
    }
  }

  /** Every hazard returned lies inside the bounds, and every document inside them is returned. */
  lemma {:induction false} WithinBoundsExact(docs: seq<StoredDoc>, b: Bounds)
    ensures forall h :: h in WithinBounds(docs, b) ==> b.south <= h.lat <= b.north && b.west <= h.lng <= b.east
    ensures forall d :: d in docs && InBounds(d, b) ==> ToCrowdHazard(d) in WithinBounds(docs, b)
    ensures forall h :: h in WithinBounds(docs, b) ==> exists d :: d in docs && InBounds(d, b) && h == ToCrowdHazard(d)
  {
    if docs != [] {
      WithinBoundsExact(docs[1..], b);
      assert docs == [docs[0]] + docs[1..];
      forall d | d in docs[1..]
        ensures d in docs
      {
      }
    }
  }

  /**
   * A saved report read back from the collection resolves to its own
   * coordinates, so it is returned exactly when they lie within the bounds,
   * with the type the save defaulted.
   */
  lemma SavedReportReadBack(id: string, r: Report, now: int, createdAt: int, b: Bounds)
    ensures var d := Stored(id, ToDocument(r, now, createdAt));
            && ResolvedLat(d) == Some(r.lat) && ResolvedLng(d) == Some(r.lng)
            && (InBounds(d, b) <==> b.south <= r.lat <= b.north && b.west <= r.lng <= b.east)
            && (InBounds(d, b) ==> WithinBounds([d], b) == [CrowdHazard(id, r.lat, r.lng,
                 Some(ToDocument(r, now, createdAt).hazardType), Some(ToDocument(r, now, createdAt).detectionMethod),
                 Some(false), Some(0), Some(createdAt))])
            && (!InBounds(d, b) ==> WithinBounds([d], b) == [])
  {
    var d := Stored(id, ToDocument(r, now, createdAt));
    assert [d][1..] == [];
  }

  /** A document whose `lat` is 0 and which has no `location` is never returned. */
  lemma ZeroLatitudeWithoutLocationDropped(d: StoredDoc, b: Bounds)
    requires d.lat == Some(0.0) && d.location.None?
    ensures WithinBounds([d], b) == []
  {
    assert [d][1..] == [];
  }

  // ---------------------------------------------------------------------
  // The client object
  // ---------------------------------------------------------------------

  class FirebaseClient {
    const config: Config
    var app: Option<Handle>
    var db: Option<Handle>
    var auth: Option<Handle>
    var isInitialized: bool
    /** The documents this client has added to `hazardReports`, with their ids, in order. */
    var written: seq<(string, HazardDoc)>

    function State(): FbState
      reads this
    {
      FbState(app, db, auth, isInitialized)
    }

    ghost predicate Valid()
      reads this
    {
      isInitialized ==> app.Some? && db.Some? && auth.Some?
    }

    constructor (config: Config)
      ensures this.config == config && State() == Uninitialized && written == [] && Valid()
    {
      this.config := config;
      app, db, auth, isInitialized := None, None, None, false;
      written := [];
    }

    /** `initializeFirebase()`; the anonymous sign-in it starts is not awaited and not modelled. */
    method InitializeFirebase(sdk: SdkInit) returns (h: Handles)
      requires Valid()
      modifies this
      ensures Valid()
      ensures Initialized(State(), h) == Initialize(old(State()), config, sdk)
      ensures written == old(written)
    {
      if isInitialized {
        return Handles(app, db, auth);
      }
      if !ConfigPresent(config) {
        return NoHandles;
      }
      match sdk
      case AppThrows =>
        return NoHandles;
      case FirestoreThrows(a) =>
        app := Some(a);
        return NoHandles;
      case AuthThrows(a, d) =>
        app := Some(a);
        db := Some(d);
        return NoHandles;
      case Succeeds(a, d, u) =>
        app, db, auth := Some(a), Some(d), Some(u);
        isInitialized := true;
        return Handles(app, db, auth);
    }

    function IsFirebaseConfigured(): (r: bool)
      reads this
      ensures r <==> IsConfigured(State())
    {
      isInitialized && db.Some?
    }

    /**
     * `saveHazardToFirestore`: `added` is the id the database assigns, or
     * None when the write throws. Without a database nothing is written.
     */
    method SaveHazardToFirestore(report: Report, now: int, createdAt: int, added: Option<string>)
      returns (id: Option<string>)
      modifies this
      ensures State() == old(State())
      ensures db.None? ==> id.None? && written == old(written)
      ensures db.Some? && added.None? ==> id.None? && written == old(written)
      ensures db.Some? && added.Some? ==>
                id == added && written == old(written) + [(added.value, ToDocument(report, now, createdAt))]
    {
      if db.None? {
        return None;
      }
      if added.None? {
        return None;
      }
      written := written + [(added.value, ToDocument(report, now, createdAt))];
      return added;
    }

    /**
     * `fetchCrowdsourcedHazards`: `snapshot` is the collection's documents,
     * or None when reading it throws.
     */
    method FetchCrowdsourcedHazards(b: Bounds, snapshot: Option<seq<StoredDoc>>) returns (hazards: seq<CrowdHazard>)
      ensures db.None? || snapshot.None? ==> hazards == []
      ensures db.Some? && snapshot.Some? ==> hazards == WithinBounds(snapshot.value, b)
    {
      if db.None? || snapshot.None? {
        return [];
      }
      var docs := snapshot.value;
      hazards := [];
      for i := 0 to |docs|
        invariant hazards == WithinBounds(docs[..i], b)
      {
        var d := docs[i];
        WithinBoundsAppend(docs[..i], [d], b);
        assert docs[..i + 1] == docs[..i] + [d];
        assert [d][1..] == [];
        var lat := ResolvedLat(d);
        var lng := ResolvedLng(d);
        if lat.Some? && lng.Some? && lat.value >= b.south && lat.value <= b.north
           && lng.value >= b.west && lng.value <= b.east {
          hazards := hazards + [CrowdHazard(d.id, lat.value, lng.value, d.hazardType, d.detectionMethod,
                                            d.verified, d.verificationCount, d.createdAt)];
        }
      }
      assert docs[..|docs|] == docs;
    }
  }
}
