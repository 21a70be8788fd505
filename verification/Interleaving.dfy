/** Concurrent mints under READ COMMITTED: transactions take their statements'
    steps in any order, wait for one another's pending keys, roll back to
    savepoints, retry once and abort at any time.
  */
module Interleaving {
  import opened Options
  import opened Serialization
  import opened Recipe
  import opened Identity
  import opened Identifiers
  import opened Registry
  import opened RegistryLaws

  type TxnId = nat

  datatype Answer = Accepted(geoid: Uuid) | Rejected(error: DbError)

  datatype Answered = Answered(request: Request, answer: Answer)

  /** Where a transaction stands in its current statement. */
  datatype Phase =
    | Between                                  // no statement is running
    | Started(snapshot: Tables, hash: bytes)   // snapshot taken, hash derived
    | Passed(hash: bytes)                      // the arbiter saw no row with the hash
    | Inserted(hash: bytes)                    // the registry row is pending
    | Resolving(geoid: Uuid, hash: bytes, tries: nat)   // DO NOTHING, but the join saw no incumbent
    | Missing(geoid: Uuid)                     // the re-reads found none either

  /** One transaction: its uncommitted mints, the features still to submit (the
      first is the current one), the answers so far, and which attempt this is. */
  datatype Txn = Txn(own: seq<Mint>, todo: seq<Request>, done: seq<Answered>, phase: Phase, attempt: nat)

  datatype World = World(committed: Tables, txns: map<TxnId, Txn>, delivered: seq<Answered>)

  const INIT: World := World(EMPTY, map[], [])

  // ---- What a statement sees

  /** The latest committed rows and the transaction's own. */
  ghost function View(w: World, x: Txn): Tables {
    Apply(w.committed, x.own)
  }

  ghost predicate HoldsHash(x: Txn, h: bytes) {
    (exists i :: 0 <= i < |x.own| && x.own[i].hash == h) || x.phase == Inserted(h)
  }

  ghost predicate HoldsKey(env: Deployment, x: Txn, g: Uuid) {
    (exists i :: 0 <= i < |x.own| && x.own[i].geoid == g) || (x.phase.Inserted? && env.stamp(x.phase.hash) == g)
  }

  ghost predicate HoldsExternalId(env: Deployment, x: Txn, p: PlaceRow) {
    exists i :: 0 <= i < |x.own| && SameExternalId(env, p, PlaceRowOf(x.own[i]))
  }

  /** The incumbent's slug, as the two joins on the hash read it. */
  ghost predicate Joined(env: Deployment, t: Tables, h: bytes) {
    HashRegistered(t, h) && t.registry[StoredGeoid(t, h)].collection in env.collections
  }

  ghost function PlaceError(env: Deployment, t: Tables, r: Request, g: Uuid): Option<DbError> {
    if !env.valid(r.geometry) then Some(CheckViolation)
    else if g in t.place then Some(PlaceKeyClash)
    else if ExternalIdTaken(env, t, r.collection, r.externalId) then Some(ExternalIdClash)
    else if r.collection !in env.collections then Some(ForeignKeyViolation)
    else None
  }

  // ---- Steps

  datatype Event =
    | Begin(requests: seq<Request>)
    | Refuse         // the geometry does not parse, or has no canonical bytes; an unforeseen error aborts instead
    | Start
    | ArbiterHit     // ON CONFLICT DO NOTHING
    | ArbiterPass
    | KeyRaise       // registry key clash with a committed row or one's own
    | KeyInsert
    | PlaceRaise
    | PlaceInsert
    | Reread         // one attempt to find the incumbent
    | Commit
    | Abort

  datatype Step = Step(id: TxnId, event: Event)

  /** The error of a geometry that never reaches the arbiter. */
  ghost function EarlyError(env: Deployment, r: Request): Option<DbError> {
    if !env.parses(r.geometry) then Some(ParseFailure)
    else match GeomHash(env, r.geometry)
      case NoHash(e) => Some(e)
      case Hash(_) => None
  }

  /** No other transaction is in the way: one that is makes this one wait. */
  ghost predicate HashFree(w: World, id: TxnId, h: bytes) {
    forall b :: b in w.txns && b != id ==> !HoldsHash(w.txns[b], h)
  }

  ghost predicate KeyFree(env: Deployment, w: World, id: TxnId, g: Uuid) {
    forall b :: b in w.txns && b != id ==> !HoldsKey(env, w.txns[b], g)
  }

  ghost predicate ExternalIdFree(env: Deployment, w: World, id: TxnId, p: PlaceRow) {
    forall b :: b in w.txns && b != id ==> !HoldsExternalId(env, w.txns[b], p)
  }

  function MintOf(env: Deployment, r: Request, h: bytes): Mint {
    Mint(env.stamp(h), h, r)
  }

  ghost predicate Allowed(env: Deployment, w: World, s: Step) {
    if s.event.Begin? then s.id !in w.txns
    else s.id in w.txns && Enabled(env, w, s.id, w.txns[s.id], s.event)
  }

  ghost predicate Enabled(env: Deployment, w: World, id: TxnId, x: Txn, e: Event)
    requires !e.Begin?
  {
    var view := View(w, x);
    match e
    case Refuse =>
      && x.phase.Between? && x.todo != []
      && EarlyError(env, x.todo[0]).Some? && EarlyError(env, x.todo[0]) != Some(OtherSqlState)
    case Start => x.phase.Between? && x.todo != [] && EarlyError(env, x.todo[0]).None?
    case ArbiterHit => x.phase.Started? && HashRegistered(view, x.phase.hash)
    case ArbiterPass => x.phase.Started? && !HashRegistered(view, x.phase.hash) && HashFree(w, id, x.phase.hash)
    case KeyRaise => x.phase.Passed? && x.todo != [] && env.stamp(x.phase.hash) in view.registry
    case KeyInsert =>
      && x.phase.Passed? && env.stamp(x.phase.hash) !in view.registry
      && KeyFree(env, w, id, env.stamp(x.phase.hash))
    case PlaceRaise =>
      && x.phase.Inserted? && x.todo != []
      && PlaceError(env, view, x.todo[0], env.stamp(x.phase.hash)).Some?
    case PlaceInsert =>
      && x.phase.Inserted? && x.todo != []
      && PlaceError(env, view, x.todo[0], env.stamp(x.phase.hash)).None?
      && ExternalIdFree(env, w, id, PlaceRowOf(MintOf(env, x.todo[0], x.phase.hash)))
    case Reread => x.phase.Resolving? && x.todo != []
    case Commit => x.phase.Between? && x.todo == []
    case Abort => true
  }

  /** The current feature is answered; the next one starts afresh. */
  function Finish(x: Txn, a: Answer): Txn
    requires x.todo != []
  {
    Txn(x.own, x.todo[1..], x.done + [Answered(x.todo[0], a)], Between, 1)
  }

  /** DO NOTHING: the joined geoid, or the derived one with re-reads to come. */
  ghost function Hit(env: Deployment, x: Txn): Txn
    requires x.phase.Started? && x.todo != []
  {
    var (s, h) := (x.phase.snapshot, x.phase.hash);
    var g := if HashRegistered(s, h) then StoredGeoid(s, h) else env.stamp(h);
    if Joined(env, s, h) then Finish(x, Accepted(g)) else x.(phase := Resolving(g, h, 0))
  }

  /** Roll back to the savepoint, or, for a single mint, a transaction that holds
      nothing else; then retry once. */
  ghost function LoseRace(x: Txn): Txn
    requires x.todo != []
  {
    if x.attempt == 1 then x.(phase := Between, attempt := 2) else Finish(x, Rejected(RegistryKeyClash))
  }

  ghost function LookAgain(env: Deployment, view: Tables, x: Txn): Txn
    requires x.phase.Resolving? && x.todo != []
  {
    var p := x.phase;
    if Joined(env, view, p.hash) then Finish(x, Accepted(p.geoid))
    else if p.tries + 1 < INCUMBENT_READS then x.(phase := Resolving(p.geoid, p.hash, p.tries + 1))
    else x.(phase := Missing(p.geoid))
  }

  /** The transaction after one of its own steps. */
  ghost function Advance(env: Deployment, w: World, id: TxnId, x: Txn, e: Event): Txn
    requires !e.Begin? && Enabled(env, w, id, x, e)
    requires x.phase.Started? ==> x.todo != []
  {
    var view := View(w, x);
    match e
    case Refuse => Finish(x, Rejected(EarlyError(env, x.todo[0]).value))
    case Start => x.(phase := Started(view, GeomHash(env, x.todo[0].geometry).hash))
    case ArbiterHit => Hit(env, x)
    case ArbiterPass => x.(phase := Passed(x.phase.hash))
    case KeyRaise => LoseRace(x)
    case KeyInsert => x.(phase := Inserted(x.phase.hash))
    case PlaceRaise => Finish(x, Rejected(PlaceError(env, view, x.todo[0], env.stamp(x.phase.hash)).value))
    case PlaceInsert =>
      Finish(x.(own := x.own + [MintOf(env, x.todo[0], x.phase.hash)]), Accepted(env.stamp(x.phase.hash)))
    case Reread => LookAgain(env, view, x)
    case Commit => x
    case Abort => x
  }

  ghost predicate Next(env: Deployment, w: World, s: Step, v: World) {
    && Allowed(env, w, s)
    && match s.event
       case Begin(rs) => v == w.(txns := w.txns[s.id := Txn([], rs, [], Between, 1)])
       case Commit =>
         v == World(View(w, w.txns[s.id]), w.txns - {s.id}, w.delivered + w.txns[s.id].done)
       case Abort => v == w.(txns := w.txns - {s.id})
       case e =>
         && (w.txns[s.id].phase.Started? ==> w.txns[s.id].todo != [])
         && v == w.(txns := w.txns[s.id := Advance(env, w, s.id, w.txns[s.id], e)])
  }

  /** The steps, in this order, lead from one world to the other. */
  ghost predicate Leads(env: Deployment, w: World, steps: seq<Step>, v: World)
    decreases |steps|
  {
    if steps == [] then w == v
    else exists u :: Next(env, w, steps[0], u) && Leads(env, u, steps[1..], v)
  }

  /** A world that some run from empty tables ends in. */
  ghost predicate Reachable(env: Deployment, w: World, steps: seq<Step>) {
    Leads(env, INIT, steps, w)
  }

  // ---- The invariant

  /** The geometry parses and has this hash. */
  ghost predicate Hashes(env: Deployment, r: Request, h: bytes) {
    env.parses(r.geometry) && GeomHash(env, r.geometry) == Hash(h)
  }

  /** The tables show why the answer was given, and will for ever. */
  ghost predicate Justified(env: Deployment, t: Tables, a: Answered) {
    var r := a.request;
    match a.answer
    case Accepted(g) =>
      && GeomHash(env, r.geometry).Hash? && g == env.stamp(GeomHash(env, r.geometry).hash)
      && HashRegistered(t, GeomHash(env, r.geometry).hash)
    case Rejected(e) =>
      || EarlyError(env, r) == Some(e)
      || (e == CheckViolation && !env.valid(r.geometry))
      || (e == ExternalIdClash && ExternalIdTaken(env, t, r.collection, r.externalId))
      || (e == ForeignKeyViolation && r.collection !in env.collections)
      || (e == RegistryKeyClash && Collides(env, t, r))
  }

  /** A row sits under the geometry's geoid, but with a different hash. */
  ghost predicate Collides(env: Deployment, t: Tables, r: Request) {
    && GeomHash(env, r.geometry).Hash?
    && var h := GeomHash(env, r.geometry).hash;
       env.stamp(h) in t.registry && t.registry[env.stamp(h)].hash != h
  }

  /** No unique index would let both in. */
  ghost predicate Apart(env: Deployment, m: Mint, n: Mint) {
    m.geoid != n.geoid && !SameExternalId(env, PlaceRowOf(m), PlaceRowOf(n))
  }

  ghost predicate PhaseOk(env: Deployment, view: Tables, x: Txn) {
    && 1 <= x.attempt <= 2
    && (!x.phase.Between? || x.attempt == 2 ==> x.todo != [])
    && (x.attempt == 2 ==>
          && GeomHash(env, x.todo[0].geometry).Hash?
          && env.stamp(GeomHash(env, x.todo[0].geometry).hash) in view.registry)
    && match x.phase
       case Between => true
       case Started(s, h) => Hashes(env, x.todo[0], h) && Consistent(env, s)
       case Passed(h) => Hashes(env, x.todo[0], h) && (x.attempt == 2 ==> Collides(env, view, x.todo[0]))
       case Inserted(h) => Hashes(env, x.todo[0], h) && env.stamp(h) !in view.registry
       case Resolving(g, h, tries) =>
         Hashes(env, x.todo[0], h) && g == env.stamp(h) && tries == 0 && HashRegistered(view, h)
       case Missing(_) => false
  }

  ghost predicate AllJustified(env: Deployment, t: Tables, answers: seq<Answered>) {
    forall i :: 0 <= i < |answers| ==> Justified(env, t, answers[i])
  }

  ghost predicate TxnOk(env: Deployment, t: Tables, x: Txn) {
    && Insertable(env, t, x.own)
    && PhaseOk(env, Apply(t, x.own), x)
    && AllJustified(env, Apply(t, x.own), x.done)
  }

  ghost predicate Disjoint(env: Deployment, x: Txn, y: Txn) {
    && (forall g :: HoldsKey(env, x, g) ==> !HoldsKey(env, y, g))
    && (forall i :: 0 <= i < |x.own| ==> !HoldsExternalId(env, y, PlaceRowOf(x.own[i])))
  }

  ghost predicate Inv(env: Deployment, w: World) {
    && Consistent(env, w.committed)
    && (forall a :: a in w.txns ==> TxnOk(env, w.committed, w.txns[a]))
    && (forall a, b :: a in w.txns && b in w.txns && a != b ==> Disjoint(env, w.txns[a], w.txns[b]))
    && AllJustified(env, w.committed, w.delivered)
  }

  // ---- Applying a transaction's rows

  /** Rows kept, whatever the order of the log. */
  ghost predicate Keeps(t: Tables, u: Tables) {
    && (forall g :: g in t.registry ==> g in u.registry && u.registry[g] == t.registry[g])
    && (forall g :: g in t.place ==> g in u.place && u.place[g] == t.place[g])
  }

  lemma {:induction false} ApplyKeys(t: Tables, ms: seq<Mint>, g: Uuid)
    ensures g in Apply(t, ms).registry <==> g in t.registry || exists i :: 0 <= i < |ms| && ms[i].geoid == g
  {
    if ms != [] {
      var n := |ms| - 1;
      ApplyKeys(t, ms[..n], g);
      if i :| 0 <= i < |ms[..n]| && ms[..n][i].geoid == g {
        assert ms[i].geoid == g;
      }
      if i :| 0 <= i < |ms| && ms[i].geoid == g {
        if i < n {
          assert ms[..n][i].geoid == g;
        }
      }
    }
  }

  lemma KeysAgree(env: Deployment, t: Tables, g: Uuid)
    requires Consistent(env, t)
    ensures g in t.registry <==> g in t.place
  {
  }

  ghost predicate ApartFromAll(env: Deployment, ms: seq<Mint>, m: Mint) {
    forall i :: 0 <= i < |ms| ==> Apart(env, ms[i], m)
  }

  lemma FreshAfterOne(env: Deployment, t: Tables, n: Mint, m: Mint)
    requires Fresh(env, t, m) && Apart(env, n, m)
    ensures Fresh(env, WithMint(t, n), m)
  {
  }

  lemma FreshBeforeOne(env: Deployment, t: Tables, n: Mint, m: Mint)
    requires n.geoid !in t.place && Fresh(env, WithMint(t, n), m)
    ensures Fresh(env, t, m) && Apart(env, n, m)
  {
    var u := WithMint(t, n);
    assert u.place[n.geoid] == PlaceRowOf(n);
    forall g | g in t.place ensures g in u.place && u.place[g] == t.place[g] {
    }
  }

  /** A mint is fresh after others exactly when it is fresh before them and apart
      from each. */
  lemma {:induction false} FreshAfter(env: Deployment, t: Tables, ms: seq<Mint>, m: Mint)
    requires Consistent(env, t) && Insertable(env, t, ms)
    ensures Fresh(env, Apply(t, ms), m) <==> Fresh(env, t, m) && ApartFromAll(env, ms, m)
  {
    if ms != [] {
      var n := |ms| - 1;
      FreshAfter(env, t, ms[..n], m);
      LastApart(env, ms, m);
      ApplyKeepsConsistent(env, t, ms[..n]);
      KeysAgree(env, Apply(t, ms[..n]), ms[n].geoid);
      if Fresh(env, Apply(t, ms), m) {
        FreshBeforeOne(env, Apply(t, ms[..n]), ms[n], m);
      } else if Fresh(env, Apply(t, ms[..n]), m) && Apart(env, ms[n], m) {
        FreshAfterOne(env, Apply(t, ms[..n]), ms[n], m);
      }
    }
  }

  lemma LastApart(env: Deployment, ms: seq<Mint>, m: Mint)
    requires ms != []
    ensures ApartFromAll(env, ms, m) <==> ApartFromAll(env, ms[..|ms| - 1], m) && Apart(env, ms[|ms| - 1], m)
  {
    var n := |ms| - 1;
    if ApartFromAll(env, ms[..n], m) && Apart(env, ms[n], m) {
      forall i | 0 <= i < |ms| ensures Apart(env, ms[i], m) {
        if i < n {
          assert ms[..n][i] == ms[i];
        }
      }
    }
  }

  lemma JustifiedLater(env: Deployment, t: Tables, u: Tables, answers: seq<Answered>)
    requires Keeps(t, u) && AllJustified(env, t, answers)
    ensures AllJustified(env, u, answers)
  {
    forall i | 0 <= i < |answers| ensures Justified(env, u, answers[i]) {
      assert Justified(env, t, answers[i]);
      if answers[i].answer.Accepted? {
        HashKept(t, u, GeomHash(env, answers[i].request.geometry).hash);
      }
    }
  }

  lemma HashKept(t: Tables, u: Tables, h: bytes)
    requires Keeps(t, u) && HashRegistered(t, h)
    ensures HashRegistered(u, h)
  {
    assert u.registry[StoredGeoid(t, h)].hash == h;
  }

  lemma {:induction false} KeepsApply(t: Tables, u: Tables, ms: seq<Mint>)
    requires Keeps(t, u)
    ensures Keeps(Apply(t, ms), Apply(u, ms))
  {
    if ms != [] {
      KeepsApply(t, u, ms[..|ms| - 1]);
    }
  }

  // ---- Steps within a transaction

  predicate Local(e: Event) {
    !e.Begin? && !e.Commit? && !e.Abort?
  }

  /** Every step but an insertion leaves the pending rows, or drops one. */
  predicate Quiet(e: Event) {
    !e.Begin? && !e.Commit? && !e.Abort? && !e.KeyInsert? && !e.PlaceInsert?
  }

  lemma OneMoreJustified(env: Deployment, t: Tables, answers: seq<Answered>, a: Answered)
    requires AllJustified(env, t, answers) && Justified(env, t, a)
    ensures AllJustified(env, t, answers + [a])
  {
  }

  lemma FinishKeeps(env: Deployment, t: Tables, x: Txn, a: Answer)
    requires TxnOk(env, t, x) && x.todo != [] && Justified(env, Apply(t, x.own), Answered(x.todo[0], a))
    ensures TxnOk(env, t, Finish(x, a))
  {
    OneMoreJustified(env, Apply(t, x.own), x.done, Answered(x.todo[0], a));
  }

  lemma HitKeeps(env: Deployment, w: World, x: Txn)
    requires Consistent(env, w.committed) && TxnOk(env, w.committed, x)
    requires x.phase.Started? && HashRegistered(View(w, x), x.phase.hash)
    ensures TxnOk(env, w.committed, Hit(env, x))
  {
    var (s, h) := (x.phase.snapshot, x.phase.hash);
    RegisteredUnderStamp(env, s, h);
    if Joined(env, s, h) {
      FinishKeeps(env, w.committed, x, Accepted(env.stamp(h)));
    }
  }

  lemma LoseRaceKeeps(env: Deployment, w: World, x: Txn)
    requires TxnOk(env, w.committed, x)
    requires x.phase.Passed? && env.stamp(x.phase.hash) in View(w, x).registry
    ensures TxnOk(env, w.committed, LoseRace(x))
  {
    if x.attempt == 2 {
      FinishKeeps(env, w.committed, x, Rejected(RegistryKeyClash));
    }
  }

  /** The first re-read finds the incumbent. */
  lemma LookAgainKeeps(env: Deployment, w: World, x: Txn)
    requires Consistent(env, w.committed) && TxnOk(env, w.committed, x) && x.phase.Resolving?
    ensures TxnOk(env, w.committed, LookAgain(env, View(w, x), x))
    ensures LookAgain(env, View(w, x), x) == Finish(x, Accepted(env.stamp(x.phase.hash)))
  {
    ApplyKeepsConsistent(env, w.committed, x.own);
    RegisteredUnderStamp(env, View(w, x), x.phase.hash);
    FinishKeeps(env, w.committed, x, Accepted(x.phase.geoid));
  }

  lemma PassKeeps(env: Deployment, w: World, x: Txn)
    requires Consistent(env, w.committed) && TxnOk(env, w.committed, x)
    requires x.phase.Started? && !HashRegistered(View(w, x), x.phase.hash)
    ensures TxnOk(env, w.committed, x.(phase := Passed(x.phase.hash)))
  {
    if x.attempt == 2 {
      assert View(w, x).registry[env.stamp(x.phase.hash)].hash != x.phase.hash;
    }
  }

  lemma PlaceErrorJustified(env: Deployment, t: Tables, r: Request, g: Uuid)
    requires PlaceError(env, t, r, g).Some? && g !in t.place
    ensures Justified(env, t, Answered(r, Rejected(PlaceError(env, t, r, g).value)))
  {
  }

  lemma PlaceRaiseKeeps(env: Deployment, w: World, x: Txn, e: DbError)
    requires Consistent(env, w.committed) && TxnOk(env, w.committed, x) && x.phase.Inserted?
    requires PlaceError(env, View(w, x), x.todo[0], env.stamp(x.phase.hash)) == Some(e)
    ensures TxnOk(env, w.committed, Finish(x, Rejected(e)))
  {
    ApplyKeepsConsistent(env, w.committed, x.own);
    KeysAgree(env, View(w, x), env.stamp(x.phase.hash));
    PlaceErrorJustified(env, View(w, x), x.todo[0], env.stamp(x.phase.hash));
    FinishKeeps(env, w.committed, x, Rejected(e));
  }

  lemma StartKeeps(env: Deployment, w: World, x: Txn, h: bytes)
    requires Consistent(env, w.committed) && TxnOk(env, w.committed, x)
    requires x.phase.Between? && x.todo != [] && Hashes(env, x.todo[0], h)
    ensures TxnOk(env, w.committed, x.(phase := Started(View(w, x), h)))
  {
    ApplyKeepsConsistent(env, w.committed, x.own);
  }

  lemma QuietKeeps(env: Deployment, w: World, id: TxnId, x: Txn, e: Event)
    requires Consistent(env, w.committed) && TxnOk(env, w.committed, x)
    requires Quiet(e) && Enabled(env, w, id, x, e)
    ensures TxnOk(env, w.committed, Advance(env, w, id, x, e))
  {
    match e
    case Refuse => FinishKeeps(env, w.committed, x, Rejected(EarlyError(env, x.todo[0]).value));
    case Start => StartKeeps(env, w, x, GeomHash(env, x.todo[0].geometry).hash);
    case ArbiterHit => HitKeeps(env, w, x);
    case ArbiterPass => PassKeeps(env, w, x);
    case KeyRaise => LoseRaceKeeps(env, w, x);
    case PlaceRaise =>
      PlaceRaiseKeeps(env, w, x, PlaceError(env, View(w, x), x.todo[0], env.stamp(x.phase.hash)).value);
    case Reread => LookAgainKeeps(env, w, x);
  }

  lemma QuietDrops(env: Deployment, w: World, id: TxnId, x: Txn, e: Event)
    requires Quiet(e) && Enabled(env, w, id, x, e) && (x.phase.Started? ==> x.todo != [])
    ensures var y := Advance(env, w, id, x, e); y.own == x.own && !y.phase.Inserted? && x.done <= y.done
  {
    hide PlaceError, EarlyError, HashRegistered, Joined, GeomHash, Apply;
    match e
    case Refuse =>
    case Start =>
    case ArbiterHit =>
    case ArbiterPass =>
    case KeyRaise =>
    case PlaceRaise =>
    case Reread =>
  }

  lemma ApplyOneMore(t: Tables, ms: seq<Mint>, m: Mint)
    ensures Apply(t, ms + [m]) == WithMint(Apply(t, ms), m)
  {
    assert (ms + [m])[..|ms|] == ms;
  }

  lemma InsertableOneMore(env: Deployment, t: Tables, ms: seq<Mint>, m: Mint)
    requires Insertable(env, t, ms) && Sound(env, m) && Fresh(env, Apply(t, ms), m)
    ensures Insertable(env, t, ms + [m])
  {
    assert (ms + [m])[..|ms|] == ms;
  }

  /** The new row is sound, and fresh for what the transaction sees. */
  lemma PlaceInsertIsFresh(env: Deployment, view: Tables, r: Request, h: bytes)
    requires Hashes(env, r, h) && env.stamp(h) !in view.registry
    requires PlaceError(env, view, r, env.stamp(h)).None?
    ensures Sound(env, MintOf(env, r, h)) && Fresh(env, view, MintOf(env, r, h))
  {
  }

  lemma PlaceInsertKeeps(env: Deployment, w: World, x: Txn, m: Mint)
    requires Consistent(env, w.committed) && TxnOk(env, w.committed, x) && x.phase.Inserted?
    requires PlaceError(env, View(w, x), x.todo[0], env.stamp(x.phase.hash)).None?
    requires m == MintOf(env, x.todo[0], x.phase.hash)
    ensures TxnOk(env, w.committed, Finish(x.(own := x.own + [m]), Accepted(m.geoid)))
  {
    hide Consistent, Apply, Sound, Fresh, Insertable, AllJustified, PlaceError;
    PlaceInsertIsFresh(env, View(w, x), x.todo[0], x.phase.hash);
    InsertableOneMore(env, w.committed, x.own, m);
    ApplyKeepsConsistent(env, w.committed, x.own);
    MintKeepsConsistent(env, View(w, x), m);
    ApplyOneMore(w.committed, x.own, m);
    AnsweredInsert(env, View(w, x), m, x.done);
  }

  lemma AnsweredInsert(env: Deployment, t: Tables, m: Mint, answers: seq<Answered>)
    requires Keeps(t, WithMint(t, m)) && Sound(env, m) && AllJustified(env, t, answers)
    ensures AllJustified(env, WithMint(t, m), answers + [Answered(m.request, Accepted(m.geoid))])
  {
    var u := WithMint(t, m);
    JustifiedLater(env, t, u, answers);
    assert u.registry[m.geoid].hash == m.hash;
  }

  // ---- Steps of the world

  /** Fewer pending rows stay apart from everyone else's. */
  ghost predicate HoldsNoMore(env: Deployment, x: Txn, y: Txn) {
    y.own == x.own && (y.phase.Inserted? ==> x.phase == y.phase)
  }

  lemma LocalStep(env: Deployment, w: World, id: TxnId, y: Txn)
    requires Inv(env, w) && TxnOk(env, w.committed, y)
    requires forall b :: b in w.txns && b != id ==> Disjoint(env, y, w.txns[b]) && Disjoint(env, w.txns[b], y)
    ensures Inv(env, w.(txns := w.txns[id := y]))
  {
  }

  lemma DropsStayDisjoint(env: Deployment, x: Txn, y: Txn, z: Txn)
    requires HoldsNoMore(env, x, y) && Disjoint(env, x, z) && Disjoint(env, z, x)
    ensures Disjoint(env, y, z) && Disjoint(env, z, y)
  {
    forall g | HoldsKey(env, y, g) ensures HoldsKey(env, x, g) {
    }
    forall p | HoldsExternalId(env, y, p) ensures HoldsExternalId(env, x, p) {
    }
  }

  lemma QuietStep(env: Deployment, w: World, id: TxnId, e: Event)
    requires Inv(env, w) && id in w.txns && Quiet(e) && Enabled(env, w, id, w.txns[id], e)
    requires w.txns[id].phase.Started? ==> w.txns[id].todo != []
    ensures Inv(env, w.(txns := w.txns[id := Advance(env, w, id, w.txns[id], e)]))
  {
    var x := w.txns[id];
    var y := Advance(env, w, id, x, e);
    QuietKeeps(env, w, id, x, e);
    QuietDrops(env, w, id, x, e);
    forall b | b in w.txns && b != id ensures Disjoint(env, y, w.txns[b]) && Disjoint(env, w.txns[b], y) {
      DropsStayDisjoint(env, x, y, w.txns[b]);
    }
    LocalStep(env, w, id, y);
  }

  lemma PendingKeyDisjoint(env: Deployment, x: Txn, h: bytes, z: Txn)
    requires Disjoint(env, x, z) && Disjoint(env, z, x) && !HoldsKey(env, z, env.stamp(h))
    ensures Disjoint(env, x.(phase := Inserted(h)), z) && Disjoint(env, z, x.(phase := Inserted(h)))
  {
    var y := x.(phase := Inserted(h));
    forall g | HoldsKey(env, y, g) ensures HoldsKey(env, x, g) || g == env.stamp(h) {
    }
    forall p | HoldsExternalId(env, y, p) ensures HoldsExternalId(env, x, p) {
    }
  }

  lemma KeyInsertStep(env: Deployment, w: World, id: TxnId)
    requires Inv(env, w) && id in w.txns && Enabled(env, w, id, w.txns[id], KeyInsert)
    ensures Inv(env, w.(txns := w.txns[id := w.txns[id].(phase := Inserted(w.txns[id].phase.hash))]))
  {
    var x := w.txns[id];
    var h := x.phase.hash;
    var y := x.(phase := Inserted(h));
    assert TxnOk(env, w.committed, x);
    forall b | b in w.txns && b != id ensures Disjoint(env, y, w.txns[b]) && Disjoint(env, w.txns[b], y) {
      PendingKeyDisjoint(env, x, h, w.txns[b]);
    }
    LocalStep(env, w, id, y);
  }

  lemma NewRowDisjoint(env: Deployment, x: Txn, y: Txn, m: Mint, z: Txn)
    requires Disjoint(env, x, z) && Disjoint(env, z, x)
    requires x.phase == Inserted(m.hash) && m.geoid == env.stamp(m.hash) && !HoldsExternalId(env, z, PlaceRowOf(m))
    requires y.own == x.own + [m] && y.phase.Between?
    ensures Disjoint(env, y, z) && Disjoint(env, z, y)
  {
    forall g | HoldsKey(env, y, g) ensures HoldsKey(env, x, g) {
    }
    forall j | 0 <= j < |z.own| ensures !HoldsExternalId(env, y, PlaceRowOf(z.own[j])) {
      assert !HoldsExternalId(env, x, PlaceRowOf(z.own[j]));
      assert !SameExternalId(env, PlaceRowOf(m), PlaceRowOf(z.own[j]));
    }
  }

  lemma PlaceInsertStep(env: Deployment, w: World, id: TxnId)
    requires Inv(env, w) && id in w.txns && Enabled(env, w, id, w.txns[id], PlaceInsert)
    ensures Inv(env, w.(txns := w.txns[id := Advance(env, w, id, w.txns[id], PlaceInsert)]))
  {
    var x := w.txns[id];
    var m := MintOf(env, x.todo[0], x.phase.hash);
    var y := Advance(env, w, id, x, PlaceInsert);
    PlaceInsertKeeps(env, w, x, m);
    forall b | b in w.txns && b != id ensures Disjoint(env, y, w.txns[b]) && Disjoint(env, w.txns[b], y) {
      NewRowDisjoint(env, x, y, m, w.txns[b]);
    }
    LocalStep(env, w, id, y);
  }

  // ---- Commit

  lemma DisjointIsApart(env: Deployment, x: Txn, y: Txn, j: nat)
    requires Disjoint(env, x, y) && j < |y.own|
    ensures ApartFromAll(env, x.own, y.own[j])
  {
    forall i | 0 <= i < |x.own| ensures Apart(env, x.own[i], y.own[j]) {
      assert HoldsKey(env, x, x.own[i].geoid);
      assert !HoldsExternalId(env, y, PlaceRowOf(x.own[i]));
    }
  }

  /** Rows committed by another transaction do not stand in the way. */
  lemma {:induction false} StaysInsertable(env: Deployment, t: Tables, theirs: seq<Mint>, ms: seq<Mint>)
    requires Consistent(env, t) && Insertable(env, t, theirs) && Insertable(env, t, ms)
    requires forall j :: 0 <= j < |ms| ==> ApartFromAll(env, theirs, ms[j])
    ensures Insertable(env, Apply(t, theirs), ms)
  {
    if ms != [] {
      var n := |ms| - 1;
      StaysInsertable(env, t, theirs, ms[..n]);
      StaysFresh(env, t, theirs, ms[..n], ms[n]);
    }
  }

  lemma StaysFresh(env: Deployment, t: Tables, theirs: seq<Mint>, ms: seq<Mint>, m: Mint)
    requires Consistent(env, t) && Insertable(env, t, theirs) && Insertable(env, t, ms)
    requires Insertable(env, Apply(t, theirs), ms) && ApartFromAll(env, theirs, m) && Fresh(env, Apply(t, ms), m)
    ensures Fresh(env, Apply(Apply(t, theirs), ms), m)
  {
    FreshAfter(env, t, ms, m);
    FreshAfter(env, t, theirs, m);
    ApplyKeepsConsistent(env, t, theirs);
    FreshAfter(env, Apply(t, theirs), ms, m);
  }

  lemma ExtendsKeeps(t: Tables, u: Tables)
    requires Extends(t, u)
    ensures Keeps(t, u)
  {
  }

  /** A pending key is still new after another transaction committed. */
  lemma PendingKeyStaysNew(env: Deployment, t: Tables, x: Txn, y: Txn, g: Uuid)
    requires Disjoint(env, x, y) && HoldsKey(env, y, g) && g !in Apply(t, y.own).registry
    ensures g !in Apply(Apply(t, x.own), y.own).registry
  {
    ApplyKeys(t, y.own, g);
    ApplyKeys(t, x.own, g);
    ApplyKeys(Apply(t, x.own), y.own, g);
    forall i | 0 <= i < |x.own| ensures x.own[i].geoid != g {
      assert HoldsKey(env, x, x.own[i].geoid);
    }
  }

  lemma PhaseStaysOk(env: Deployment, view: Tables, later: Tables, y: Txn)
    requires PhaseOk(env, view, y) && Keeps(view, later)
    requires y.phase.Inserted? ==> env.stamp(y.phase.hash) !in later.registry
    ensures PhaseOk(env, later, y)
  {
    if y.phase.Resolving? {
      HashKept(view, later, y.phase.hash);
    }
  }

  lemma OthersAfterCommit(env: Deployment, t: Tables, x: Txn, y: Txn)
    requires Consistent(env, t) && TxnOk(env, t, x) && TxnOk(env, t, y) && Disjoint(env, x, y)
    ensures TxnOk(env, Apply(t, x.own), y)
  {
    var u := Apply(t, x.own);
    forall j | 0 <= j < |y.own| ensures ApartFromAll(env, x.own, y.own[j]) {
      DisjointIsApart(env, x, y, j);
    }
    StaysInsertable(env, t, x.own, y.own);
    ApplyKeepsConsistent(env, t, x.own);
    ExtendsKeeps(t, u);
    KeepsApply(t, u, y.own);
    if y.phase.Inserted? {
      PendingKeyStaysNew(env, t, x, y, env.stamp(y.phase.hash));
    }
    PhaseStaysOk(env, Apply(t, y.own), Apply(u, y.own), y);
    JustifiedLater(env, Apply(t, y.own), Apply(u, y.own), y.done);
  }

  lemma CommitStep(env: Deployment, w: World, id: TxnId)
    requires Inv(env, w) && id in w.txns
    ensures Inv(env, World(View(w, w.txns[id]), w.txns - {id}, w.delivered + w.txns[id].done))
    ensures Extends(w.committed, View(w, w.txns[id]))
  {
    var x := w.txns[id];
    var u := View(w, x);
    ApplyKeepsConsistent(env, w.committed, x.own);
    ExtendsKeeps(w.committed, u);
    JustifiedLater(env, w.committed, u, w.delivered);
    var v := World(u, w.txns - {id}, w.delivered + x.done);
    forall b | b in v.txns ensures TxnOk(env, u, v.txns[b]) {
      OthersAfterCommit(env, w.committed, x, w.txns[b]);
    }
  }

  lemma NothingPending(env: Deployment, x: Txn, z: Txn)
    requires x.own == [] && !x.phase.Inserted?
    ensures Disjoint(env, x, z) && Disjoint(env, z, x)
  {
  }

  lemma BeginStep(env: Deployment, w: World, id: TxnId, rs: seq<Request>)
    requires Inv(env, w) && id !in w.txns
    ensures Inv(env, w.(txns := w.txns[id := Txn([], rs, [], Between, 1)]))
  {
    var x := Txn([], rs, [], Between, 1);
    assert TxnOk(env, w.committed, x);
    forall b | b in w.txns ensures Disjoint(env, x, w.txns[b]) && Disjoint(env, w.txns[b], x) {
      NothingPending(env, x, w.txns[b]);
    }
    LocalStep(env, w, id, x);
  }

  /** Every step of every transaction keeps the invariant and only adds to what is
      committed. */
  lemma StepKeepsInv(env: Deployment, w: World, s: Step, v: World)
    requires Inv(env, w) && Next(env, w, s, v)
    ensures Inv(env, v) && Extends(w.committed, v.committed)
  {
    match s.event
    case Begin(rs) => BeginStep(env, w, s.id, rs);
    case Commit => CommitStep(env, w, s.id);
    case Abort =>
    case KeyInsert => KeyInsertStep(env, w, s.id);
    case PlaceInsert => PlaceInsertStep(env, w, s.id);
    case _ => QuietStep(env, w, s.id, s.event);
  }

  // ---- Whole runs

  lemma InitInv(env: Deployment)
    ensures Inv(env, INIT)
  {
  }

  /** In every run the invariant holds throughout, and what is committed is never
      lost or changed. */
  lemma {:induction false} RunKeepsInv(env: Deployment, w: World, steps: seq<Step>, v: World)
    requires Inv(env, w) && Leads(env, w, steps, v)
    ensures Inv(env, v) && Extends(w.committed, v.committed)
    decreases |steps|
  {
    if steps != [] {
      var u :| Next(env, w, steps[0], u) && Leads(env, u, steps[1..], v);
      StepKeepsInv(env, w, steps[0], u);
      RunKeepsInv(env, u, steps[1..], v);
      ExtendsTransitive(w.committed, u.committed, v.committed);
    }
  }

  /** Committed tables are consistent in every interleaving: one place row and one
      log row for each registry row, one registry row for each hash. */
  lemma CommittedIsConsistent(env: Deployment, w: World, steps: seq<Step>)
    requires Reachable(env, w, steps)
    ensures Consistent(env, w.committed)
  {
    InitInv(env);
    RunKeepsInv(env, INIT, steps, w);
  }

  lemma DeliveredJustified(env: Deployment, w: World, steps: seq<Step>, a: Answered)
    requires Reachable(env, w, steps) && a in w.delivered
    ensures Justified(env, w.committed, a)
  {
    InitInv(env);
    RunKeepsInv(env, INIT, steps, w);
    var p :| 0 <= p < |w.delivered| && w.delivered[p] == a;
    assert Justified(env, w.committed, w.delivered[p]);
  }

  /** A geoid handed to a client resolves for ever after, to one and the same
      place, with the hash of the geometry that client sent. */
  lemma DeliveredResolves(env: Deployment, w: World, steps: seq<Step>, a: Answered, more: seq<Step>, v: World)
    requires Reachable(env, w, steps) && Leads(env, w, more, v)
    requires a in w.delivered && a.answer.Accepted?
    ensures var g := a.answer.geoid;
            && g in w.committed.place && g in v.committed.place && v.committed.place[g] == w.committed.place[g]
            && GeomHash(env, v.committed.place[g].geometry) == GeomHash(env, a.request.geometry)
  {
    DeliveredJustified(env, w, steps, a);
    InitInv(env);
    RunKeepsInv(env, INIT, steps, w);
    RunKeepsInv(env, w, more, v);
    RegisteredUnderStamp(env, w.committed, GeomHash(env, a.request.geometry).hash);
  }

  /** All clients that succeed on one shape, however drawn, get the same geoid. */
  lemma SameShapeSameGeoid(env: Deployment, w: World, steps: seq<Step>, a: Answered, b: Answered)
    requires Reachable(env, w, steps)
    requires a in w.delivered && a.answer.Accepted? && b in w.delivered && b.answer.Accepted?
    ensures SameDrawing(env, a.request.geometry, b.request.geometry) ==> a.answer.geoid == b.answer.geoid
  {
    DeliveredJustified(env, w, steps, a);
    DeliveredJustified(env, w, steps, b);
    SameGeometrySameHash(env, a.request.geometry, b.request.geometry);
  }

  /** A transaction whose join missed the incumbent finds it at the first re-read;
      "incumbent missing" is unreachable. */
  lemma IncumbentIsFound(env: Deployment, w: World, steps: seq<Step>, id: TxnId)
    requires Reachable(env, w, steps) && id in w.txns
    ensures var x := w.txns[id];
            !x.phase.Missing? && (x.phase.Resolving? ==> x.phase.tries == 0 && x.todo != [])
    ensures var x := w.txns[id];
            x.phase.Resolving? ==> LookAgain(env, View(w, x), x) == Finish(x, Accepted(env.stamp(x.phase.hash)))
  {
    InitInv(env);
    RunKeepsInv(env, INIT, steps, w);
    assert TxnOk(env, w.committed, w.txns[id]);
    if w.txns[id].phase.Resolving? {
      LookAgainKeeps(env, w, w.txns[id]);
    }
  }

  /** Some registered row has another hash with the same 122 bits. */
  ghost predicate SharesStamp(t: Tables, h: bytes) {
    |h| == 32 && exists g :: g in t.registry && |t.registry[g].hash| == 32
                             && t.registry[g].hash != h && Same122Bits(t.registry[g].hash, h)
  }

  /** A client loses its single retry only when another hash already holds the 122
      bits of its own; the other unique keys never clash at all. */
  lemma RetryIsLostOnlyByCollision(env: Deployment, w: World, steps: seq<Step>, a: Answered, h: bytes)
    requires Reachable(env, w, steps) && StampV8(env) && a in w.delivered
    requires GeomHash(env, a.request.geometry) == Hash(h)
    ensures a.answer == Rejected(RegistryKeyClash) ==> SharesStamp(w.committed, h)
    ensures a.answer != Rejected(PlaceKeyClash) && a.answer != Rejected(GeomHashClash)
  {
    hide Justified, Reachable, Consistent, SharesStamp, StampV8;
    DeliveredJustified(env, w, steps, a);
    WhyKeyClash(env, w.committed, a);
    if a.answer == Rejected(RegistryKeyClash) {
      CommittedIsConsistent(env, w, steps);
      CollisionSharesStamp(env, w.committed, h);
    }
  }

  lemma WhyKeyClash(env: Deployment, t: Tables, a: Answered)
    requires Justified(env, t, a)
    ensures a.answer == Rejected(RegistryKeyClash) ==> Collides(env, t, a.request)
    ensures a.answer != Rejected(PlaceKeyClash) && a.answer != Rejected(GeomHashClash)
  {
  }

  lemma CollisionSharesStamp(env: Deployment, t: Tables, h: bytes)
    requires Consistent(env, t) && StampV8(env) && |h| == 32
    requires env.stamp(h) in t.registry && t.registry[env.stamp(h)].hash != h
    ensures SharesStamp(t, h)
  {
    var g := env.stamp(h);
    assert RowMatches(env, g, t.registry[g], t.place[g]);
    SharedStamp(env, t.registry[g].hash, h);
  }

  /** A delivered refusal has its ground in the committed rows or in the request
      itself: an external id in use, an invalid drawing, an unknown collection. */
  lemma RefusalIsGrounded(env: Deployment, w: World, steps: seq<Step>, a: Answered)
    requires Reachable(env, w, steps) && a in w.delivered && a.answer.Rejected?
    ensures a.answer.error.ExternalIdClash? ==> IdInUse(env, w.committed, a.request)
    ensures a.answer.error.CheckViolation? && Identified(env, a.request) ==> !env.valid(a.request.geometry)
    ensures a.answer.error.ForeignKeyViolation? ==> a.request.collection !in env.collections
    ensures a.answer.error.ParseFailure? ==> !env.parses(a.request.geometry)
    ensures a.answer.error.DegenerateRing? ==> env.parses(a.request.geometry) && env.recipe(a.request.geometry).Err?
  {
    DeliveredJustified(env, w, steps, a);
  }

  // ---- Every request is answered, in order

  function RequestsOf(answers: seq<Answered>): (rs: seq<Request>)
    ensures |rs| == |answers|
  {
    seq(|answers|, i requires 0 <= i < |answers| => answers[i].request)
  }

  /** The requests answered so far, then those still to submit. */
  function Asked(x: Txn): seq<Request> {
    RequestsOf(x.done) + x.todo
  }

  lemma FinishKeepsAsked(x: Txn, a: Answer)
    requires x.todo != []
    ensures Asked(Finish(x, a)) == Asked(x)
  {
    var y := Finish(x, a);
    assert RequestsOf(y.done) == RequestsOf(x.done) + [x.todo[0]];
    assert x.todo == [x.todo[0]] + x.todo[1..];
  }

  lemma SameAnswersSameAsked(x: Txn, y: Txn)
    requires x.done == y.done && x.todo == y.todo
    ensures Asked(x) == Asked(y)
  {
  }

  lemma AdvanceKeepsAsked(env: Deployment, w: World, id: TxnId, x: Txn, e: Event)
    requires Local(e) && Enabled(env, w, id, x, e) && (x.phase.Started? ==> x.todo != [])
    ensures Asked(Advance(env, w, id, x, e)) == Asked(x)
  {
    hide Asked, PlaceError, EarlyError, HashRegistered, Joined, GeomHash, Apply, Finish;
    var y := Advance(env, w, id, x, e);
    var inserted := if e.PlaceInsert? then x.(own := x.own + [MintOf(env, x.todo[0], x.phase.hash)]) else x;
    if x.todo != [] {
      forall a ensures Asked(Finish(x, a)) == Asked(x) && Asked(Finish(inserted, a)) == Asked(x) {
        FinishKeepsAsked(x, a);
        FinishKeepsAsked(inserted, a);
        SameAnswersSameAsked(inserted, x);
      }
    }
    if y.done == x.done && y.todo == x.todo {
      SameAnswersSameAsked(x, y);
    }
    match e
    case Refuse =>
    case Start =>
    case ArbiterHit =>
    case ArbiterPass =>
    case KeyRaise =>
    case KeyInsert =>
    case PlaceRaise =>
    case PlaceInsert =>
    case Reread =>
  }

  /** No step loses, repeats or reorders a request: a transaction's answered and
      waiting requests are always those it began with, and a commit delivers one
      answer for each, in order. */
  lemma EveryRequestIsAnswered(env: Deployment, w: World, s: Step, v: World)
    requires Next(env, w, s, v)
    ensures forall b :: b in w.txns && b in v.txns ==> Asked(v.txns[b]) == Asked(w.txns[b])
    ensures s.event.Begin? ==> s.id in v.txns && Asked(v.txns[s.id]) == s.event.requests
    ensures s.event.Commit? ==> s.id in w.txns
    ensures s.event.Commit? ==>
              exists answers :: v.delivered == w.delivered + answers && RequestsOf(answers) == Asked(w.txns[s.id])
    ensures !s.event.Commit? ==> v.delivered == w.delivered && v.committed == w.committed
  {
    if s.event.Begin? {
      assert Asked(v.txns[s.id]) == s.event.requests;
    } else if s.event.Commit? {
      var x := w.txns[s.id];
      assert RequestsOf(x.done) == Asked(x);
    } else if Local(s.event) {
      AdvanceKeepsAsked(env, w, s.id, w.txns[s.id], s.event);
    }
  }

  // ---- Every interleaving is some serial run

  lemma {:induction false} AfterPrefix(env: Deployment, t: Tables, rs: seq<Request>, more: seq<Request>, i: nat)
    requires i <= |rs|
    ensures After(env, t, rs + more, i) == After(env, t, rs, i)
  {
    if i > 0 {
      AfterPrefix(env, t, rs, more, i - 1);
    }
  }

  lemma OneMoreStatement(env: Deployment, t: Tables, rs: seq<Request>, r: Request, u: Tables)
    requires After(env, t, rs, |rs|) == u
    ensures After(env, t, rs + [r], |rs + [r]|) == Statement(env, u, r).1
  {
    AfterPrefix(env, t, rs, [r], |rs|);
  }

  lemma InsertIsStatement(env: Deployment, t: Tables, m: Mint)
    requires Consistent(env, t) && Sound(env, m) && Fresh(env, t, m)
    ensures Statement(env, t, m.request) == (Created(m.geoid), WithMint(t, m))
  {
    CreatedWhen(env, t, m.request);
  }

  /** The request was accepted, and its client knows. */
  ghost predicate Delivered(answers: seq<Answered>, r: Request) {
    exists a :: a in answers && a.request == r && a.answer.Accepted?
  }

  ghost predicate AllDelivered(answers: seq<Answered>, rs: seq<Request>) {
    forall i :: 0 <= i < |rs| ==> Delivered(answers, rs[i])
  }

  lemma LastInsertIsStatement(env: Deployment, u: Tables, ms: seq<Mint>)
    requires Consistent(env, u) && Insertable(env, u, ms) && ms != []
    ensures Statement(env, Apply(u, ms[..|ms| - 1]), ms[|ms| - 1].request).1 == Apply(u, ms)
  {
    ApplyKeepsConsistent(env, u, ms[..|ms| - 1]);
    InsertIsStatement(env, Apply(u, ms[..|ms| - 1]), ms[|ms| - 1]);
  }

  /** Committing a transaction's rows is running its created mints one by one. */
  lemma {:induction false} CommitIsSerial(env: Deployment, rs: seq<Request>, u: Tables, ms: seq<Mint>,
        answers: seq<Answered>)
    returns (all: seq<Request>)
    requires After(env, EMPTY, rs, |rs|) == u && Consistent(env, u) && Insertable(env, u, ms)
    requires AllDelivered(answers, rs) && forall i :: 0 <= i < |ms| ==> Delivered(answers, ms[i].request)
    ensures After(env, EMPTY, all, |all|) == Apply(u, ms) && AllDelivered(answers, all)
    decreases |ms|
  {
    hide Consistent, Sound, Fresh, Statement, WithMint;
    if ms == [] {
      all := rs;
    } else {
      var n := |ms| - 1;
      var before := CommitIsSerial(env, rs, u, ms[..n], answers);
      OneMoreStatement(env, EMPTY, before, ms[n].request, Apply(u, ms[..n]));
      LastInsertIsStatement(env, u, ms);
      all := before + [ms[n].request];
    }
  }

  /** The transaction will tell its client about every row it wrote. */
  ghost predicate Told(x: Txn) {
    forall i :: 0 <= i < |x.own| ==> Answered(x.own[i].request, Accepted(x.own[i].geoid)) in x.done
  }

  lemma InsertTells(x: Txn, m: Mint)
    requires Told(x) && x.todo != [] && m.request == x.todo[0]
    ensures Told(Finish(x.(own := x.own + [m]), Accepted(m.geoid)))
  {
  }

  lemma QuietTells(env: Deployment, w: World, id: TxnId, x: Txn, e: Event)
    requires Quiet(e) && Enabled(env, w, id, x, e) && (x.phase.Started? ==> x.todo != []) && Told(x)
    ensures Told(Advance(env, w, id, x, e))
  {
    QuietDrops(env, w, id, x, e);
  }

  lemma StepTells(env: Deployment, w: World, s: Step, v: World)
    requires Next(env, w, s, v) && forall b :: b in w.txns ==> Told(w.txns[b])
    ensures forall b :: b in v.txns ==> Told(v.txns[b])
  {
    if s.event.PlaceInsert? {
      var x := w.txns[s.id];
      InsertTells(x, MintOf(env, x.todo[0], x.phase.hash));
    } else if Quiet(s.event) {
      QuietTells(env, w, s.id, w.txns[s.id], s.event);
    }
  }

  lemma DeliveredToo(answers: seq<Answered>, more: seq<Answered>, rs: seq<Request>)
    requires AllDelivered(answers, rs)
    ensures AllDelivered(answers + more, rs)
  {
    forall i | 0 <= i < |rs| ensures Delivered(answers + more, rs[i]) {
      assert Delivered(answers, rs[i]);
      var a :| a in answers && a.request == rs[i] && a.answer.Accepted?;
      assert a in answers + more;
    }
  }

  lemma ToldIsDelivered(answers: seq<Answered>, x: Txn)
    requires Told(x)
    ensures forall i :: 0 <= i < |x.own| ==> Delivered(answers + x.done, x.own[i].request)
  {
    forall i | 0 <= i < |x.own| ensures Delivered(answers + x.done, x.own[i].request) {
      assert Answered(x.own[i].request, Accepted(x.own[i].geoid)) in answers + x.done;
    }
  }

  /** A step leaves the committed tables serial. */
  lemma StepStaysSerial(env: Deployment, w: World, s: Step, v: World, rs: seq<Request>) returns (all: seq<Request>)
    requires Inv(env, w) && Next(env, w, s, v) && forall b :: b in w.txns ==> Told(w.txns[b])
    requires After(env, EMPTY, rs, |rs|) == w.committed && AllDelivered(w.delivered, rs)
    ensures After(env, EMPTY, all, |all|) == v.committed && AllDelivered(v.delivered, all)
  {
    if s.event.Commit? {
      var x := w.txns[s.id];
      assert TxnOk(env, w.committed, x);
      DeliveredToo(w.delivered, x.done, rs);
      ToldIsDelivered(w.delivered, x);
      all := CommitIsSerial(env, rs, w.committed, x.own, v.delivered);
    } else {
      all := rs;
    }
  }

  lemma {:induction false} RunStaysSerial(env: Deployment, w: World, steps: seq<Step>, v: World, rs: seq<Request>)
    returns (all: seq<Request>)
    requires Inv(env, w) && Leads(env, w, steps, v) && forall b :: b in w.txns ==> Told(w.txns[b])
    requires After(env, EMPTY, rs, |rs|) == w.committed && AllDelivered(w.delivered, rs)
    ensures After(env, EMPTY, all, |all|) == v.committed && AllDelivered(v.delivered, all)
    decreases |steps|
  {
    if steps == [] {
      all := rs;
    } else {
      var u :| Next(env, w, steps[0], u) && Leads(env, u, steps[1..], v);
      StepKeepsInv(env, w, steps[0], u);
      StepTells(env, w, steps[0], u);
      all := StepStaysSerial(env, w, steps[0], u, rs);
      all := RunStaysSerial(env, u, steps[1..], v, all);
    }
  }

  /** What is committed at any point of any interleaving is what some serial run
      of statements from empty tables leaves: a run of requests whose clients were
      all told of their geoid. */
  lemma CommittedIsSerial(env: Deployment, w: World, steps: seq<Step>)
    requires Reachable(env, w, steps)
    ensures exists rs :: After(env, EMPTY, rs, |rs|) == w.committed && AllDelivered(w.delivered, rs)
  {
    InitInv(env);
    var rs := RunStaysSerial(env, INIT, steps, w, []);
  }

  // ---- Alone, a transaction's statement is the arbiter statement

  /** The world with one transaction replaced. */
  function At(w: World, id: TxnId, x: Txn): World {
    w.(txns := w.txns[id := x])
  }

  /** The transaction once its current feature is answered as the statement on what
      it sees answers. */
  ghost function Settle(env: Deployment, view: Tables, x: Txn): Txn
    requires x.todo != []
  {
    match Judge(env, view, x.todo[0])
    case Created(g) => Finish(x.(own := x.own + [Mint(g, GeomHash(env, x.todo[0].geometry).hash, x.todo[0])]), Accepted(g))
    case Existing(g, _) => Finish(x, Accepted(g))
    case Raised(e) => Finish(x, Rejected(e))
  }

  /** Nobody else is in a transaction. */
  predicate Alone(w: World, id: TxnId) {
    id in w.txns && forall b :: b in w.txns ==> b == id
  }

  /** The step is enabled, and takes x to y. */
  ghost predicate Takes(env: Deployment, w: World, id: TxnId, x: Txn, e: Event, y: Txn) {
    && Local(e) && Enabled(env, At(w, id, x), id, x, e) && (x.phase.Started? ==> x.todo != [])
    && y == Advance(env, At(w, id, x), id, x, e)
  }

  lemma Lead(env: Deployment, w: World, s: Step, u: World, steps: seq<Step>, v: World)
    requires Next(env, w, s, u) && Leads(env, u, steps, v)
    ensures Leads(env, w, [s] + steps, v)
  {
    hide Next;
    assert ([s] + steps)[1..] == steps;
  }

  lemma TakesIsNext(env: Deployment, w: World, id: TxnId, x: Txn, e: Event, y: Txn)
    requires Takes(env, w, id, x, e, y)
    ensures Next(env, At(w, id, x), Step(id, e), At(w, id, y))
  {
    hide Enabled, Advance, Apply;
    assert At(At(w, id, x), id, y) == At(w, id, y);
  }

  lemma Move(env: Deployment, w: World, id: TxnId, x: Txn, e: Event, y: Txn, steps: seq<Step>, v: World)
    returns (all: seq<Step>)
    requires Takes(env, w, id, x, e, y) && Leads(env, At(w, id, y), steps, v)
    ensures Leads(env, At(w, id, x), all, v) && |all| == |steps| + 1
  {
    hide *;
    TakesIsNext(env, w, id, x, e, y);
    Lead(env, At(w, id, x), Step(id, e), At(w, id, y), steps, v);
    all := [Step(id, e)] + steps;
  }

  lemma TakesStart(env: Deployment, w: World, id: TxnId, x: Txn, h: bytes)
    requires x.phase.Between? && x.todo != [] && Hashes(env, x.todo[0], h)
    ensures Takes(env, w, id, x, Start, x.(phase := Started(View(w, x), h)))
  {
  }

  lemma TakesPass(env: Deployment, w: World, id: TxnId, x: Txn, s: Tables, h: bytes)
    requires Alone(w, id) && x.todo != [] && !HashRegistered(View(w, x), h)
    ensures Takes(env, w, id, x.(phase := Started(s, h)), ArbiterPass, x.(phase := Passed(h)))
  {
  }

  lemma TakesClash(env: Deployment, w: World, id: TxnId, x: Txn, h: bytes)
    requires x.phase.Between? && x.todo != [] && env.stamp(h) in View(w, x).registry
    ensures Takes(env, w, id, x.(phase := Passed(h)), KeyRaise, LoseRace(x))
  {
  }

  lemma TakesKey(env: Deployment, w: World, id: TxnId, x: Txn, h: bytes)
    requires Alone(w, id) && env.stamp(h) !in View(w, x).registry
    ensures Takes(env, w, id, x.(phase := Passed(h)), KeyInsert, x.(phase := Inserted(h)))
  {
  }

  lemma TakesHit(env: Deployment, w: World, id: TxnId, x: Txn)
    requires x.phase.Started? && x.todo != [] && HashRegistered(View(w, x), x.phase.hash)
    ensures Takes(env, w, id, x, ArbiterHit, Hit(env, x))
  {
  }

  /** From a running statement whose arbiter sees no row, through a key clash. */
  lemma AloneClash(env: Deployment, w: World, id: TxnId, x: Txn, h: bytes, steps: seq<Step>, v: World)
    returns (all: seq<Step>)
    requires Alone(w, id) && x.phase.Between? && x.todo != [] && Hashes(env, x.todo[0], h)
    requires !HashRegistered(View(w, x), h) && env.stamp(h) in View(w, x).registry
    requires Leads(env, At(w, id, LoseRace(x)), steps, v)
    ensures Leads(env, At(w, id, x), all, v)
  {
    var started := x.(phase := Started(View(w, x), h));
    var passed := x.(phase := Passed(h));
    TakesStart(env, w, id, x, h);
    TakesPass(env, w, id, x, View(w, x), h);
    TakesClash(env, w, id, x, h);
    hide *;
    all := Move(env, w, id, passed, KeyRaise, LoseRace(x), steps, v);
    all := Move(env, w, id, started, ArbiterPass, passed, all, v);
    all := Move(env, w, id, x, Start, started, all, v);
  }

  lemma Stay(env: Deployment, v: World)
    ensures Leads(env, v, [], v)
  {
  }

  lemma HitAccepts(env: Deployment, x: Txn)
    requires x.phase.Started? && x.todo != []
    requires Consistent(env, x.phase.snapshot) && HashRegistered(x.phase.snapshot, x.phase.hash)
    ensures Hit(env, x) == Finish(x, Accepted(StoredGeoid(x.phase.snapshot, x.phase.hash)))
  {
    RegisteredUnderStamp(env, x.phase.snapshot, x.phase.hash);
  }

  /** A statement whose hash is registered is answered in two steps, whoever else
      is in a transaction. */
  lemma HitRuns(env: Deployment, w: World, id: TxnId, x: Txn, h: bytes, v: World) returns (all: seq<Step>)
    requires x.phase.Between? && x.todo != [] && Hashes(env, x.todo[0], h)
    requires Consistent(env, View(w, x)) && HashRegistered(View(w, x), h)
    requires v == At(w, id, Finish(x, Accepted(StoredGeoid(View(w, x), h))))
    ensures Leads(env, At(w, id, x), all, v) && |all| == 2
  {
    var started := x.(phase := Started(View(w, x), h));
    TakesStart(env, w, id, x, h);
    TakesHit(env, w, id, started);
    HitAccepts(env, started);
    Stay(env, v);
    hide Leads, Takes, Consistent, HashRegistered, Hit, Apply;
    all := Move(env, w, id, started, ArbiterHit, Hit(env, started), [], v);
    all := Move(env, w, id, x, Start, started, all, v);
  }

  /** Through the registry leg to the place leg. */
  lemma AloneInsert(env: Deployment, w: World, id: TxnId, x: Txn, h: bytes, steps: seq<Step>, v: World)
    returns (all: seq<Step>)
    requires Alone(w, id) && x.phase.Between? && x.todo != [] && Hashes(env, x.todo[0], h)
    requires !HashRegistered(View(w, x), h) && env.stamp(h) !in View(w, x).registry
    requires Leads(env, At(w, id, x.(phase := Inserted(h))), steps, v)
    ensures Leads(env, At(w, id, x), all, v)
  {
    var started := x.(phase := Started(View(w, x), h));
    var passed := x.(phase := Passed(h));
    TakesStart(env, w, id, x, h);
    TakesPass(env, w, id, x, View(w, x), h);
    TakesKey(env, w, id, x, h);
    hide *;
    all := Move(env, w, id, passed, KeyInsert, x.(phase := Inserted(h)), steps, v);
    all := Move(env, w, id, started, ArbiterPass, passed, all, v);
    all := Move(env, w, id, x, Start, started, all, v);
  }

  lemma TakesPlace(env: Deployment, w: World, id: TxnId, x: Txn, h: bytes) returns (e: Event)
    requires Alone(w, id) && x.todo != [] && Hashes(env, x.todo[0], h)
    requires !HashRegistered(View(w, x), h) && env.stamp(h) !in View(w, x).registry
    ensures Takes(env, w, id, x.(phase := Inserted(h)), e, Settle(env, View(w, x), x))
  {
    hide HashRegistered, ExternalIdTaken, Apply, GeomHash;
    e := if PlaceError(env, View(w, x), x.todo[0], env.stamp(h)).Some? then PlaceRaise else PlaceInsert;
  }

  lemma AlonePlaceLeg(env: Deployment, w: World, id: TxnId, x: Txn, h: bytes) returns (all: seq<Step>)
    requires Alone(w, id) && x.phase.Between? && x.todo != [] && Hashes(env, x.todo[0], h)
    requires !HashRegistered(View(w, x), h) && env.stamp(h) !in View(w, x).registry
    ensures Leads(env, At(w, id, x), all, At(w, id, Settle(env, View(w, x), x)))
  {
    hide *;
    var y := Settle(env, View(w, x), x);
    var e := TakesPlace(env, w, id, x, h);
    Stay(env, At(w, id, y));
    all := Move(env, w, id, x.(phase := Inserted(h)), e, y, [], At(w, id, y));
    all := AloneInsert(env, w, id, x, h, all, At(w, id, y));
  }

  lemma TakesRefuse(env: Deployment, w: World, id: TxnId, x: Txn)
    requires x.phase.Between? && x.todo != [] && EarlyError(env, x.todo[0]).Some?
    requires EarlyError(env, x.todo[0]) != Some(OtherSqlState)
    ensures Takes(env, w, id, x, Refuse, Settle(env, View(w, x), x))
  {
  }

  lemma AloneRefused(env: Deployment, w: World, id: TxnId, x: Txn) returns (all: seq<Step>)
    requires Alone(w, id) && x.phase.Between? && x.todo != [] && EarlyError(env, x.todo[0]).Some?
    requires EarlyError(env, x.todo[0]) != Some(OtherSqlState)
    ensures Leads(env, At(w, id, x), all, At(w, id, Settle(env, View(w, x), x)))
  {
    var y := Settle(env, View(w, x), x);
    TakesRefuse(env, w, id, x);
    Stay(env, At(w, id, y));
    all := Move(env, w, id, x, Refuse, y, [], At(w, id, y));
  }

  /** Both attempts clash. */
  lemma AloneLosesTwice(env: Deployment, w: World, id: TxnId, x: Txn, h: bytes) returns (all: seq<Step>)
    requires Alone(w, id) && x.phase.Between? && x.todo != [] && x.attempt == 1 && Hashes(env, x.todo[0], h)
    requires !HashRegistered(View(w, x), h) && env.stamp(h) in View(w, x).registry
    ensures Leads(env, At(w, id, x), all, At(w, id, Settle(env, View(w, x), x)))
  {
    var v := At(w, id, Settle(env, View(w, x), x));
    all := AloneClash(env, w, id, LoseRace(x), h, [], v);
    all := AloneClash(env, w, id, x, h, all, v);
  }

  lemma AloneRuns(env: Deployment, w: World, id: TxnId, x: Txn) returns (all: seq<Step>)
    requires Alone(w, id) && x.phase.Between? && x.todo != [] && x.attempt == 1 && Consistent(env, View(w, x))
    requires EarlyError(env, x.todo[0]) != Some(OtherSqlState)
    ensures Leads(env, At(w, id, x), all, At(w, id, Settle(env, View(w, x), x)))
  {
    hide Leads, Apply, Consistent;
    if EarlyError(env, x.todo[0]).Some? {
      all := AloneRefused(env, w, id, x);
    } else {
      var h := GeomHash(env, x.todo[0].geometry).hash;
      if HashRegistered(View(w, x), h) {
        all := HitRuns(env, w, id, x, h, At(w, id, Settle(env, View(w, x), x)));
      } else if env.stamp(h) in View(w, x).registry {
        all := AloneLosesTwice(env, w, id, x, h);
      } else {
        all := AlonePlaceLeg(env, w, id, x, h);
      }
    }
  }

  /** While nobody else is in a transaction, a statement that does not abort its
      request runs through without waiting, its retry included, and answers as the
      arbiter statement does on what the transaction sees. */
  lemma AloneIsStatement(env: Deployment, w: World, id: TxnId)
    requires Inv(env, w) && Alone(w, id)
    requires var x := w.txns[id];
             x.phase.Between? && x.todo != [] && x.attempt == 1 && EarlyError(env, x.todo[0]) != Some(OtherSqlState)
    ensures var x := w.txns[id];
            exists all :: Leads(env, w, all, At(w, id, Settle(env, View(w, x), x)))
  {
    var x := w.txns[id];
    assert TxnOk(env, w.committed, x) && w == At(w, id, x);
    ApplyKeepsConsistent(env, w.committed, x.own);
    var all := AloneRuns(env, w, id, x);
  }

  lemma WinnerIsSeen(env: Deployment, w: World, x: Txn, h: bytes)
    requires Consistent(env, w.committed) && TxnOk(env, w.committed, x)
    requires x.attempt == 2 && Hashes(env, x.todo[0], h) && !Collides(env, View(w, x), x.todo[0])
    ensures Consistent(env, View(w, x)) && HashRegistered(View(w, x), h) && StoredGeoid(View(w, x), h) == env.stamp(h)
  {
    ApplyKeepsConsistent(env, w.committed, x.own);
    assert View(w, x).registry[env.stamp(h)].hash == h;
    RegisteredUnderStamp(env, View(w, x), h);
  }

  /** The single retry, after a clash that was no collision, takes the arbiter's DO
      NOTHING path at once: two steps, waiting for nobody, to the incumbent's
      geoid. */
  lemma RetryFindsTheWinner(env: Deployment, w: World, id: TxnId, x: Txn, h: bytes)
    requires Inv(env, w) && id in w.txns && x == w.txns[id]
    requires x.phase.Between? && x.attempt == 2 && x.todo != []
    requires Hashes(env, x.todo[0], h) && !Collides(env, View(w, x), x.todo[0])
    ensures exists all :: |all| == 2 && Leads(env, w, all, At(w, id, Finish(x, Accepted(env.stamp(h)))))
  {
    hide TxnOk, Consistent, AllJustified, Disjoint, Collides, HashRegistered, Apply, Leads, Hashes;
    assert w == At(w, id, x);
    WinnerIsSeen(env, w, x, h);
    var all := HitRuns(env, w, id, x, h, At(w, id, Finish(x, Accepted(env.stamp(h)))));
  }
}
