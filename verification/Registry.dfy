/** The registry tables and the arbiter statement, as one statement at a time
    sees them: what each leg checks and writes, and the invariant every
    statement keeps.
  */
module Registry {
  import opened Options
  import opened Serialization
  import opened Recipe
  import opened Identity
  import opened Identifiers

  /** `geoid_registry`, keyed by geoid. */
  datatype RegistryRow = RegistryRow(placeId: Uuid, collection: CollectionId, hash: bytes)

  /** `place`, keyed by id. */
  datatype PlaceRow = PlaceRow(collection: CollectionId, geometry: Geometry, externalId: Option<string>,
        createdBy: Option<string>)

  /** `change_log`; its op is always 'create'. */
  datatype LogRow = LogRow(geoid: Uuid, collection: CollectionId, externalId: Option<string>)

  datatype Tables = Tables(registry: map<Uuid, RegistryRow>, place: map<Uuid, PlaceRow>, log: seq<LogRow>)

  const EMPTY: Tables := Tables(map[], map[], [])

  /** How often the incumbent is read again before giving up. */
  const INCUMBENT_READS: nat := 3

  /** SHA-256 is any function to 32 bytes; nothing says it is injective. */
  type Digest = d: bytes -> bytes | forall b :: |d(b)| == 32 witness ((b: bytes) => seq(32, i => 0))

  /** What the statement finds around the tables: the identity recipe, the digest,
      the geoid derived from a hash, PostGIS's parser and validity test, and the
      collections. */
  datatype Deployment = Deployment(
    recipe: Geometry -> Result<bytes>,
    digest: Digest,
    stamp: bytes -> Uuid,
    parses: Geometry -> bool,
    valid: Geometry -> bool,
    collections: set<CollectionId>,
    publicCollection: CollectionId)

  /** A feature submitted to a collection. */
  datatype Request = Request(collection: CollectionId, geometry: Geometry, externalId: Option<string>,
        createdBy: Option<string>)

  /** How a statement aborts. */
  datatype DbError =
    | ParseFailure
    | DegenerateRing         // GD001
    | CheckViolation         // 23514
    | RegistryKeyClash       // 23505 on geoid_registry_pkey
    | GeomHashClash          // 23505 on uq_geoid_registry_geom_hash
    | PlaceKeyClash          // 23505 on place_pkey
    | ExternalIdClash        // 23505 on uq_place_collection_external_id
    | ForeignKeyViolation    // 23503
    | OtherSqlState          // anything else, such as a failed cast

  /** The recipe in force gives the geometry the bytes of the module Recipe. Only
      statements about differently drawn geometries need to know. */
  ghost predicate RecipeV2(env: Deployment, g: Geometry) {
    env.recipe(g) == CanonicalBytes(g)
  }

  /** Geoids are version-8 stamps. Only statements about which hashes share one
      need to know. */
  ghost predicate StampV8(env: Deployment) {
    env.stamp == StampOf
  }

  /** A hash has 32 bytes; the value on anything shorter plays no part. */
  function StampOf(hash: bytes): Uuid {
    if |hash| < 16 then hash else Stamp(hash)
  }

  // ---- Hash and geoid

  datatype HashResult = Hash(hash: bytes) | NoHash(error: DbError)

  /** How the database reports a geometry without canonical bytes. */
  function RejectedAs(e: Error): DbError {
    match e
    case CollapsedRing(_) => DegenerateRing
    case ZeroAreaRing => DegenerateRing
    case NoRings => DegenerateRing
    case Empty => CheckViolation
    case Unsupported(_) => CheckViolation
    case BadPosition => OtherSqlState
    case Overflow => OtherSqlState
  }

  /** `geoid_geom_hash_default` */
  function GeomHash(env: Deployment, g: Geometry): (r: HashResult)
    ensures r.Hash? ==> |r.hash| == 32
  {
    match env.recipe(g)
    case Err(e) => NoHash(RejectedAs(e))
    case Ok(b) => Hash(env.digest(b))
  }

  /** Two drawings of one shape, both identified by the recipe. */
  ghost predicate SameDrawing(env: Deployment, g: Geometry, h: Geometry) {
    RecipeV2(env, g) && RecipeV2(env, h) && SameGeometry(g, h)
  }

  /** Drawings of one shape share their hash, or share having none. */
  lemma SameGeometrySameHash(env: Deployment, g: Geometry, h: Geometry)
    ensures SameDrawing(env, g, h) ==> (GeomHash(env, g).Hash? <==> GeomHash(env, h).Hash?)
    ensures SameDrawing(env, g, h) && GeomHash(env, g).Hash? ==> GeomHash(env, g) == GeomHash(env, h)
  {
    if SameDrawing(env, g, h) {
      AcceptanceIsInvariant(g, h);
    }
  }

  // ---- What the legs look up

  /** Some registry row holds the hash: the arbiter's ON CONFLICT test. */
  predicate HashRegistered(t: Tables, hash: bytes) {
    exists g :: g in t.registry && t.registry[g].hash == hash
  }

  /** The row LEFT JOINed on the hash. */
  ghost function StoredGeoid(t: Tables, hash: bytes): (g: Uuid)
    requires HashRegistered(t, hash)
    ensures g in t.registry && t.registry[g].hash == hash
  {
    var g :| g in t.registry && t.registry[g].hash == hash;
    g
  }

  /** The partial unique index on (collection, external_id): nulls and the public
      collection are exempt. */
  predicate ExternalIdTaken(env: Deployment, t: Tables, c: CollectionId, e: Option<string>) {
    && e.Some? && c != env.publicCollection
    && exists g :: g in t.place && t.place[g].collection == c && t.place[g].externalId == e
  }

  /** The rows one successful mint writes. */
  datatype Mint = Mint(geoid: Uuid, hash: bytes, request: Request)

  function RegistryRowOf(m: Mint): RegistryRow {
    RegistryRow(m.geoid, m.request.collection, m.hash)
  }

  function PlaceRowOf(m: Mint): PlaceRow {
    PlaceRow(m.request.collection, m.request.geometry, m.request.externalId, m.request.createdBy)
  }

  function LogRowOf(m: Mint): LogRow {
    LogRow(m.geoid, m.request.collection, m.request.externalId)
  }

  /** The registry row, the place row and, by the AFTER INSERT trigger, the
      change_log row. */
  function WithMint(t: Tables, m: Mint): Tables {
    Tables(t.registry[m.geoid := RegistryRowOf(m)], t.place[m.geoid := PlaceRowOf(m)], t.log + [LogRowOf(m)])
  }

  // ---- The statement

  datatype Outcome =
    | Created(geoid: Uuid)
    | Existing(geoid: Uuid, resolvable: bool)   // resolvable: its collection joined
    | Raised(error: DbError)

  /** What the arbiter statement answers when it runs alone on the tables. */
  ghost function Judge(env: Deployment, t: Tables, r: Request): Outcome {
    if !env.parses(r.geometry) then Raised(ParseFailure)
    else match GeomHash(env, r.geometry)
      case NoHash(e) => Raised(e)
      case Hash(h) => JudgeHash(env, t, r, h)
  }

  /** The arbiter on the hash first; the place leg only behind a new registry row. */
  ghost function JudgeHash(env: Deployment, t: Tables, r: Request, h: bytes): Outcome {
    if HashRegistered(t, h) then
      var g := StoredGeoid(t, h);
      Existing(g, t.registry[g].collection in env.collections)
    else if env.stamp(h) in t.registry then Raised(RegistryKeyClash)
    else if !env.valid(r.geometry) then Raised(CheckViolation)
    else if env.stamp(h) in t.place then Raised(PlaceKeyClash)
    else if ExternalIdTaken(env, t, r.collection, r.externalId) then Raised(ExternalIdClash)
    else if r.collection !in env.collections then Raised(ForeignKeyViolation)
    else Created(env.stamp(h))
  }

  /** An abort or an existing geometry writes nothing. */
  ghost function Statement(env: Deployment, t: Tables, r: Request): (Outcome, Tables) {
    var o := Judge(env, t, r);
    (o, if o.Created? then WithMint(t, Mint(o.geoid, GeomHash(env, r.geometry).hash, r)) else t)
  }

  // ---- The invariant of every reachable state

  ghost predicate RowsMatch(env: Deployment, t: Tables) {
    && t.registry.Keys == t.place.Keys
    && forall g :: g in t.registry ==> RowMatches(env, g, t.registry[g], t.place[g])
  }

  /** One registry row and its place row: the key is the stamp of the stored hash,
      which is the hash of the stored geometry. */
  ghost predicate RowMatches(env: Deployment, g: Uuid, r: RegistryRow, p: PlaceRow) {
    && r.placeId == g
    && |r.hash| == 32 && g == env.stamp(r.hash)
    && GeomHash(env, p.geometry) == Hash(r.hash)
    && env.valid(p.geometry)
    && r.collection == p.collection && p.collection in env.collections
  }

  ghost predicate OneLogRowEach(log: seq<LogRow>, place: map<Uuid, PlaceRow>) {
    && (forall i :: 0 <= i < |log| ==> LogMatches(log[i], place))
    && (forall i, j :: 0 <= i < j < |log| ==> log[i].geoid != log[j].geoid)
    && (forall g :: g in place ==> exists i :: 0 <= i < |log| && log[i].geoid == g)
  }

  predicate LogMatches(l: LogRow, place: map<Uuid, PlaceRow>) {
    l.geoid in place && l.collection == place[l.geoid].collection && l.externalId == place[l.geoid].externalId
  }

  ghost predicate ExternalIdsUnique(env: Deployment, place: map<Uuid, PlaceRow>) {
    forall g, h :: g in place && h in place && g != h ==> !SameExternalId(env, place[g], place[h])
  }

  predicate SameExternalId(env: Deployment, p: PlaceRow, q: PlaceRow) {
    p.externalId.Some? && p.collection != env.publicCollection && p.collection == q.collection && p.externalId == q.externalId
  }

  ghost predicate Consistent(env: Deployment, t: Tables) {
    RowsMatch(env, t) && OneLogRowEach(t.log, t.place) && ExternalIdsUnique(env, t.place)
  }

  /** Rows are only ever added, and keep their contents. */
  ghost predicate Extends(t: Tables, u: Tables) {
    && (forall g :: g in t.registry ==> g in u.registry && u.registry[g] == t.registry[g])
    && (forall g :: g in t.place ==> g in u.place && u.place[g] == t.place[g])
    && t.log <= u.log
  }

  lemma ExtendsTransitive(t: Tables, u: Tables, v: Tables)
    requires Extends(t, u) && Extends(u, v)
    ensures Extends(t, v)
  {
  }

  lemma EmptyIsConsistent(env: Deployment)
    ensures Consistent(env, EMPTY)
  {
  }

  /** At most one row per hash. */
  lemma HashesUnique(env: Deployment, t: Tables, g: Uuid, h: Uuid)
    requires Consistent(env, t) && g in t.registry && h in t.registry && t.registry[g].hash == t.registry[h].hash
    ensures g == h
  {
    assert RowMatches(env, g, t.registry[g], t.place[g]) && RowMatches(env, h, t.registry[h], t.place[h]);
  }

  /** A registered hash sits under its stamp, with a place row and a known
      collection. */
  lemma RegisteredUnderStamp(env: Deployment, t: Tables, hash: bytes)
    requires Consistent(env, t)
    ensures HashRegistered(t, hash) <==> env.stamp(hash) in t.registry && t.registry[env.stamp(hash)].hash == hash
    ensures HashRegistered(t, hash) ==> StoredGeoid(t, hash) == env.stamp(hash)
    ensures HashRegistered(t, hash) ==> RowMatches(env, env.stamp(hash), t.registry[env.stamp(hash)], t.place[env.stamp(hash)])
  {
    if HashRegistered(t, hash) {
      var g := StoredGeoid(t, hash);
      assert RowMatches(env, g, t.registry[g], t.place[g]);
    }
  }

  lemma StampIs(env: Deployment, hash: bytes)
    requires StampV8(env) && |hash| == 32
    ensures env.stamp(hash) == Stamp(hash)
  {
    hide Stamp;
  }

  /** Two hashes share a geoid exactly when they share the 122 bits it keeps. */
  lemma SharedStamp(env: Deployment, a: bytes, b: bytes)
    requires StampV8(env) && |a| == 32 && |b| == 32
    ensures env.stamp(a) == env.stamp(b) <==> Same122Bits(a, b)
  {
    hide StampV8, Stamp, Same122Bits;
    StampIs(env, a);
    StampIs(env, b);
    StampKeeps122Bits(a, b);
  }

  // ---- Every mint keeps it

  /** The mint passes every check that looks at it alone. */
  ghost predicate Sound(env: Deployment, m: Mint) {
    && env.parses(m.request.geometry)
    && |m.hash| == 32 && m.geoid == env.stamp(m.hash)
    && GeomHash(env, m.request.geometry) == Hash(m.hash)
    && env.valid(m.request.geometry)
    && m.request.collection in env.collections
  }

  /** The mint's rows violate no unique index of the tables. */
  ghost predicate Fresh(env: Deployment, t: Tables, m: Mint) {
    m.geoid !in t.registry && !ExternalIdTaken(env, t, m.request.collection, m.request.externalId)
  }

  lemma AddedLogRow(log: seq<LogRow>, place: map<Uuid, PlaceRow>, l: LogRow, p: PlaceRow)
    requires OneLogRowEach(log, place) && l.geoid !in place
    requires l.collection == p.collection && l.externalId == p.externalId
    ensures OneLogRowEach(log + [l], place[l.geoid := p])
  {
    var u := place[l.geoid := p];
    forall g | g in u ensures exists i :: 0 <= i < |log + [l]| && (log + [l])[i].geoid == g {
      if g == l.geoid {
        assert (log + [l])[|log|].geoid == g;
      } else {
        var i :| 0 <= i < |log| && log[i].geoid == g;
        assert (log + [l])[i].geoid == g;
      }
    }
    forall i | 0 <= i < |log + [l]| ensures LogMatches((log + [l])[i], u) {
      if i < |log| {
        assert LogMatches(log[i], place);
      }
    }
    forall i, j | 0 <= i < j < |log + [l]| ensures (log + [l])[i].geoid != (log + [l])[j].geoid {
      assert LogMatches(log[i], place);
    }
  }

  lemma AddedExternalId(env: Deployment, t: Tables, g: Uuid, p: PlaceRow)
    requires ExternalIdsUnique(env, t.place) && g !in t.place
    requires !ExternalIdTaken(env, t, p.collection, p.externalId)
    ensures ExternalIdsUnique(env, t.place[g := p])
  {
    var u := t.place[g := p];
    forall a, b | a in u && b in u && a != b ensures !SameExternalId(env, u[a], u[b]) {
      if a != g && b != g {
        assert !SameExternalId(env, t.place[a], t.place[b]);
      }
    }
  }

  lemma AddedRows(env: Deployment, t: Tables, m: Mint)
    requires RowsMatch(env, t) && Sound(env, m)
    ensures RowsMatch(env, WithMint(t, m))
  {
    var u := WithMint(t, m);
    forall k | k in u.registry ensures RowMatches(env, k, u.registry[k], u.place[k]) {
      if k != m.geoid {
        assert RowMatches(env, k, t.registry[k], t.place[k]);
      }
    }
  }

  lemma AddedIsExtension(t: Tables, m: Mint)
    requires m.geoid !in t.registry && m.geoid !in t.place
    ensures Extends(t, WithMint(t, m))
  {
  }

  /** A sound and fresh mint leaves consistent tables consistent, and everything
      in them where it was. */
  lemma MintKeepsConsistent(env: Deployment, t: Tables, m: Mint)
    requires Consistent(env, t) && Sound(env, m) && Fresh(env, t, m)
    ensures Consistent(env, WithMint(t, m)) && Extends(t, WithMint(t, m))
  {
    assert m.geoid !in t.place;
    AddedRows(env, t, m);
    AddedLogRow(t.log, t.place, LogRowOf(m), PlaceRowOf(m));
    AddedExternalId(env, t, m.geoid, PlaceRowOf(m));
    AddedIsExtension(t, m);
  }

  /** The tables with the mints inserted one after another. */
  function Apply(t: Tables, ms: seq<Mint>): Tables {
    if ms == [] then t else WithMint(Apply(t, ms[..|ms| - 1]), ms[|ms| - 1])
  }

  /** The mints can be inserted one after another. */
  ghost predicate Insertable(env: Deployment, t: Tables, ms: seq<Mint>) {
    ms == [] ||
    var n := |ms| - 1;
    Insertable(env, t, ms[..n]) && Sound(env, ms[n]) && Fresh(env, Apply(t, ms[..n]), ms[n])
  }

  lemma {:induction false} ApplyKeepsConsistent(env: Deployment, t: Tables, ms: seq<Mint>)
    requires Consistent(env, t) && Insertable(env, t, ms)
    ensures Consistent(env, Apply(t, ms)) && Extends(t, Apply(t, ms))
  {
    if ms != [] {
      var n := |ms| - 1;
      ApplyKeepsConsistent(env, t, ms[..n]);
      MintKeepsConsistent(env, Apply(t, ms[..n]), ms[n]);
    }
  }

  /** A mint is created exactly when its geometry hashes and its rows are sound and
      fresh. On consistent tables the place key never clashes. */
  lemma CreatedWhen(env: Deployment, t: Tables, r: Request)
    requires Consistent(env, t)
    ensures Judge(env, t, r) != Raised(PlaceKeyClash)
    ensures Judge(env, t, r).Created? <==>
              && GeomHash(env, r.geometry).Hash?
              && var h := GeomHash(env, r.geometry).hash;
                 Sound(env, Mint(env.stamp(h), h, r)) && Fresh(env, t, Mint(env.stamp(h), h, r))
    ensures Judge(env, t, r).Created? ==> Judge(env, t, r).geoid == env.stamp(GeomHash(env, r.geometry).hash)
  {
    if GeomHash(env, r.geometry).Hash? {
      RegisteredUnderStamp(env, t, GeomHash(env, r.geometry).hash);
    }
  }

  /** Every statement keeps the tables consistent and only ever adds to them. */
  lemma StatementKeepsConsistent(env: Deployment, t: Tables, r: Request)
    requires Consistent(env, t)
    ensures Consistent(env, Statement(env, t, r).1) && Extends(t, Statement(env, t, r).1)
  {
    CreatedWhen(env, t, r);
    if Judge(env, t, r).Created? {
      var h := GeomHash(env, r.geometry).hash;
      MintKeepsConsistent(env, t, Mint(env.stamp(h), h, r));
    }
  }

  // ---- What one mint guarantees

  /** An accepted mint's geoid is the stamp of the geometry's hash, and resolves to
      a place whose geometry has that hash. The incumbent's collection always joins,
      so the drift guard never fires. */
  lemma AcceptedResolves(env: Deployment, t: Tables, r: Request)
    requires Consistent(env, t) && !Judge(env, t, r).Raised?
    ensures var (o, u) := Statement(env, t, r);
            && GeomHash(env, r.geometry).Hash? && o.geoid == env.stamp(GeomHash(env, r.geometry).hash)
            && o.geoid in u.place && o.geoid in u.registry
            && Hash(u.registry[o.geoid].hash) == GeomHash(env, u.place[o.geoid].geometry) == GeomHash(env, r.geometry)
            && (o.Existing? ==> o.resolvable)
  {
    CreatedWhen(env, t, r);
    RegisteredUnderStamp(env, t, GeomHash(env, r.geometry).hash);
  }

  /** Once a hash is registered, any statement about a geometry with that hash
      returns the same geoid and changes nothing: in any collection, with any
      external id, valid as a drawing or not. */
  lemma RegisteredHashIsReturned(env: Deployment, t: Tables, r: Request)
    requires Consistent(env, t) && env.parses(r.geometry) && GeomHash(env, r.geometry).Hash?
    requires HashRegistered(t, GeomHash(env, r.geometry).hash)
    ensures Statement(env, t, r) == (Existing(env.stamp(GeomHash(env, r.geometry).hash), true), t)
  {
    RegisteredUnderStamp(env, t, GeomHash(env, r.geometry).hash);
  }

  lemma HashStaysRegistered(t: Tables, u: Tables, hash: bytes)
    requires Extends(t, u) && HashRegistered(t, hash)
    ensures HashRegistered(u, hash)
  {
    var g := StoredGeoid(t, hash);
    assert u.registry[g].hash == hash;
  }

  /** Once a geometry is minted, minting any drawing of the same shape, from any
      later state, returns its geoid and changes nothing. */
  lemma MintIsIdempotent(env: Deployment, t: Tables, first: Request, later: Tables, again: Request)
    requires Consistent(env, t) && Consistent(env, later)
    requires !Judge(env, t, first).Raised? && Extends(Statement(env, t, first).1, later)
    ensures SameDrawing(env, first.geometry, again.geometry) && env.parses(again.geometry) ==>
      Statement(env, later, again) == (Existing(Judge(env, t, first).geoid, true), later)
  {
    if SameDrawing(env, first.geometry, again.geometry) && env.parses(again.geometry) {
      SameGeometrySameHash(env, first.geometry, again.geometry);
      hide SameDrawing;
      AcceptedResolves(env, t, first);
      HashStaysRegistered(Statement(env, t, first).1, later, GeomHash(env, first.geometry).hash);
      RegisteredHashIsReturned(env, later, again);
    }
  }

  // ---- Runs

  /** The tables after the first i statements, one after another. */
  ghost function After(env: Deployment, t: Tables, rs: seq<Request>, i: nat): Tables
    requires i <= |rs|
  {
    if i == 0 then t else Statement(env, After(env, t, rs, i - 1), rs[i - 1]).1
  }

  /** Every state of a run is consistent, and extends every earlier one. */
  lemma {:induction false} RunKeepsConsistent(env: Deployment, t: Tables, rs: seq<Request>, i: nat, j: nat)
    requires Consistent(env, t) && i <= j <= |rs|
    ensures Consistent(env, After(env, t, rs, j))
    ensures Extends(After(env, t, rs, i), After(env, t, rs, j))
    decreases j
  {
    hide Consistent, Statement;
    if j > 0 {
      var k := if i < j then i else j - 1;
      RunKeepsConsistent(env, t, rs, k, j - 1);
      StatementKeepsConsistent(env, After(env, t, rs, j - 1), rs[j - 1]);
      ExtendsTransitive(After(env, t, rs, k), After(env, t, rs, j - 1), After(env, t, rs, j));
    }
  }

  /** A statement run again on any later state: an accepted one returns the same
      geoid, and none ever creates a row. */
  lemma AgainCreatesNothing(env: Deployment, t: Tables, later: Tables, r: Request)
    requires Consistent(env, t) && Consistent(env, later) && Extends(Statement(env, t, r).1, later)
    ensures !Judge(env, later, r).Created?
    ensures !Judge(env, t, r).Raised? ==> Judge(env, later, r) == Existing(Judge(env, t, r).geoid, true)
  {
    CreatedWhen(env, t, r);
    CreatedWhen(env, later, r);
    if !Judge(env, t, r).Raised? {
      AcceptedResolves(env, t, r);
      assert HashRegistered(Statement(env, t, r).1, GeomHash(env, r.geometry).hash);
      HashStaysRegistered(Statement(env, t, r).1, later, GeomHash(env, r.geometry).hash);
      RegisteredHashIsReturned(env, later, r);
    } else if Judge(env, later, r).Created? {
      NotFreshLater(env, t, later, Mint(Judge(env, later, r).geoid, GeomHash(env, r.geometry).hash, r));
    }
  }

  lemma NotFreshLater(env: Deployment, t: Tables, later: Tables, m: Mint)
    requires Extends(t, later) && Fresh(env, later, m)
    ensures Fresh(env, t, m)
  {
  }
}
