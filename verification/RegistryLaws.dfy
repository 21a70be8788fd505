/** What the arbiter statement does, told from the rows alone: when each answer is
    given, what a mint stores, and what the invariant says of one row.
  */
module RegistryLaws {
  import opened Options
  import opened Serialization
  import opened Recipe
  import opened Identity
  import opened Identifiers
  import opened Registry

  // ---- The invariant, row by row

  /** Each registry row has its place row, with the same collection, a known one; the
      stored hash is the digest of the stored geometry's bytes. */
  lemma RowsBelongTogether(env: Deployment, t: Tables, g: Uuid)
    requires Consistent(env, t) && g in t.registry
    ensures g in t.place && t.registry[g].placeId == g
    ensures t.registry[g].collection == t.place[g].collection && t.place[g].collection in env.collections
    ensures env.recipe(t.place[g].geometry).Ok? && t.registry[g].hash == env.digest(env.recipe(t.place[g].geometry).value)
    ensures g == env.stamp(t.registry[g].hash) && env.valid(t.place[g].geometry)
  {
    assert RowMatches(env, g, t.registry[g], t.place[g]);
  }

  /** Each place row is logged exactly once, as it is. */
  lemma LoggedOnce(env: Deployment, t: Tables, g: Uuid)
    requires Consistent(env, t) && g in t.place
    ensures exists i :: 0 <= i < |t.log| && t.log[i] == LogRow(g, t.place[g].collection, t.place[g].externalId)
    ensures forall i, j :: 0 <= i < |t.log| && 0 <= j < |t.log| && t.log[i].geoid == g && t.log[j].geoid == g ==> i == j
    ensures g in t.registry
  {
    var i :| 0 <= i < |t.log| && t.log[i].geoid == g;
    assert LogMatches(t.log[i], t.place);
  }

  /** Outside the public collection no two places of a collection share an external
      id. */
  lemma ExternalIdsNeverShared(env: Deployment, t: Tables, g: Uuid, h: Uuid)
    requires Consistent(env, t) && g in t.place && h in t.place && g != h
    requires t.place[g].externalId.Some? && t.place[g].externalId == t.place[h].externalId
    ensures t.place[g].collection == t.place[h].collection ==> t.place[g].collection == env.publicCollection
  {
    assert !SameExternalId(env, t.place[g], t.place[h]);
  }

  // ---- When each answer is given

  /** The hash the database derives, when it derives one. */
  function Derived(env: Deployment, r: Request): bytes
    requires env.recipe(r.geometry).Ok?
  {
    env.digest(env.recipe(r.geometry).value)
  }

  /** The geometry parses and has a hash. */
  predicate Identified(env: Deployment, r: Request) {
    env.parses(r.geometry) && env.recipe(r.geometry).Ok?
  }

  /** Some place of the request's collection, not the public one, already has
      its external id. */
  ghost predicate IdInUse(env: Deployment, t: Tables, r: Request) {
    && r.externalId.Some? && r.collection != env.publicCollection
    && exists g :: g in t.place && t.place[g].collection == r.collection && t.place[g].externalId == r.externalId
  }

  /** No registry row has the hash, nor the geoid. */
  ghost predicate Unheld(env: Deployment, t: Tables, h: bytes) {
    (forall g :: g in t.registry ==> t.registry[g].hash != h) && env.stamp(h) !in t.registry
  }

  lemma HashIsDerived(env: Deployment, r: Request)
    ensures GeomHash(env, r.geometry).Hash? <==> env.recipe(r.geometry).Ok?
    ensures env.recipe(r.geometry).Ok? ==> GeomHash(env, r.geometry) == Hash(Derived(env, r))
  {
  }

  lemma JudgeIdentified(env: Deployment, t: Tables, r: Request)
    requires Identified(env, r)
    ensures Judge(env, t, r) == JudgeHash(env, t, r, Derived(env, r))
  {
    HashIsDerived(env, r);
  }

  /** A row is created exactly when the geometry is identified and valid, its hash
      and geoid are unheld, its collection exists and its external id is not in use. */
  lemma CreatedExactly(env: Deployment, t: Tables, r: Request)
    requires Consistent(env, t)
    ensures Judge(env, t, r).Created? <==>
              && Identified(env, r) && Unheld(env, t, Derived(env, r))
              && env.valid(r.geometry) && r.collection in env.collections && !IdInUse(env, t, r)
    ensures Judge(env, t, r).Created? ==> Judge(env, t, r) == Created(env.stamp(Derived(env, r)))
  {
    if Identified(env, r) {
      JudgeIdentified(env, t, r);
      assert env.stamp(Derived(env, r)) in t.registry <==> env.stamp(Derived(env, r)) in t.place;
    }
  }

  /** An existing geoid is returned exactly when some row has the derived hash, and
      it is that row's. */
  lemma ExistingExactly(env: Deployment, t: Tables, r: Request)
    requires Consistent(env, t)
    ensures Judge(env, t, r).Existing? <==>
              Identified(env, r) && exists g :: g in t.registry && t.registry[g].hash == Derived(env, r)
    ensures Judge(env, t, r).Existing? ==>
              var g := Judge(env, t, r).geoid; g in t.registry && t.registry[g].hash == Derived(env, r)
  {
    if Identified(env, r) {
      JudgeIdentified(env, t, r);
    }
  }

  /** An external id is refused exactly when it is in use, for a geometry that would
      otherwise be new: never on account of a row that is not there. */
  lemma ExternalIdClashExactly(env: Deployment, t: Tables, r: Request)
    requires Consistent(env, t)
    ensures Judge(env, t, r) == Raised(ExternalIdClash) <==>
              && Identified(env, r) && Unheld(env, t, Derived(env, r))
              && env.valid(r.geometry) && IdInUse(env, t, r)
  {
    if Identified(env, r) {
      JudgeIdentified(env, t, r);
      assert env.stamp(Derived(env, r)) in t.registry <==> env.stamp(Derived(env, r)) in t.place;
    }
  }

  /** The remaining refusals, each exactly when. */
  lemma RefusedExactly(env: Deployment, t: Tables, r: Request)
    requires Consistent(env, t)
    ensures Judge(env, t, r) == Raised(ParseFailure) <==> !env.parses(r.geometry)
    ensures Judge(env, t, r) == Raised(DegenerateRing) <==>
              && env.parses(r.geometry) && env.recipe(r.geometry).Err?
              && (env.recipe(r.geometry).error.Degenerate() || env.recipe(r.geometry).error.NoRings?)
    ensures Judge(env, t, r) == Raised(OtherSqlState) <==>
              && env.parses(r.geometry) && env.recipe(r.geometry).Err?
              && (env.recipe(r.geometry).error.BadPosition? || env.recipe(r.geometry).error.Overflow?)
    ensures Judge(env, t, r) == Raised(RegistryKeyClash) <==>
              && Identified(env, r) && env.stamp(Derived(env, r)) in t.registry
              && forall g :: g in t.registry ==> t.registry[g].hash != Derived(env, r)
    ensures Judge(env, t, r) == Raised(CheckViolation) <==>
              env.parses(r.geometry) &&
              match env.recipe(r.geometry)
              case Err(e) => e.Empty? || e.Unsupported?
              case Ok(_) => Unheld(env, t, Derived(env, r)) && !env.valid(r.geometry)
    ensures Judge(env, t, r) == Raised(ForeignKeyViolation) <==>
              && Identified(env, r) && Unheld(env, t, Derived(env, r)) && env.valid(r.geometry)
              && !IdInUse(env, t, r) && r.collection !in env.collections
  {
    if Identified(env, r) {
      JudgeIdentified(env, t, r);
      assert env.stamp(Derived(env, r)) in t.registry <==> env.stamp(Derived(env, r)) in t.place;
    }
  }

  // ---- What is stored

  /** A created mint adds one registry row, one place row with every field of the
      request, and one log row; all other rows stay. Any other outcome writes
      nothing. */
  lemma StoresTheRequest(env: Deployment, t: Tables, r: Request)
    requires Consistent(env, t)
    ensures var (o, u) := Statement(env, t, r);
            && (!o.Created? ==> u == t)
            && (o.Created? ==>
                  && Identified(env, r) && o.geoid !in t.place
                  && u.registry == t.registry[o.geoid := RegistryRow(o.geoid, r.collection, Derived(env, r))]
                  && u.place == t.place[o.geoid := PlaceRow(r.collection, r.geometry, r.externalId, r.createdBy)]
                  && u.log == t.log + [LogRow(o.geoid, r.collection, r.externalId)])
  {
    CreatedExactly(env, t, r);
    if Judge(env, t, r).Created? {
      HashIsDerived(env, r);
      assert Judge(env, t, r).geoid !in t.registry;
    }
  }

  // ---- Which requests share an identity

  /** Two identified drawings share their hash exactly when they draw the same shape,
      or the digest collides on their different bytes. */
  lemma SharedHash(env: Deployment, a: Request, b: Request)
    requires Identified(env, a) && Identified(env, b)
    requires RecipeV2(env, a.geometry) && RecipeV2(env, b.geometry)
    ensures GeomHash(env, a.geometry) == GeomHash(env, b.geometry) <==>
              || SameGeometry(a.geometry, b.geometry)
              || (env.recipe(a.geometry) != env.recipe(b.geometry) && Derived(env, a) == Derived(env, b))
  {
    CompleteInvariant(a.geometry, b.geometry);
    hide CanonicalBytes, SameGeometry;
    HashIsDerived(env, a);
    HashIsDerived(env, b);
  }

  /** Two accepted requests, at any two states of one history, get the same geoid
      exactly when their hashes agree: geoids are never shared by different hashes. */
  lemma SharedGeoid(env: Deployment, t: Tables, a: Request, later: Tables, b: Request)
    requires Consistent(env, t) && Consistent(env, later) && Extends(Statement(env, t, a).1, later)
    requires !Judge(env, t, a).Raised? && !Judge(env, later, b).Raised?
    ensures Judge(env, t, a).geoid == Judge(env, later, b).geoid <==> GeomHash(env, a.geometry) == GeomHash(env, b.geometry)
  {
    AcceptedResolves(env, t, a);
    AcceptedResolves(env, later, b);
    StatementKeepsConsistent(env, later, b);
  }
}
