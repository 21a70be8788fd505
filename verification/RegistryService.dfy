/** The registry service over one database session: the arbiter statement leg by
    leg on mutable tables, rollback and savepoints, and the single and bulk mints
    built on them, proved against the statement of module Registry.
  */
module RegistryService {
  import opened Options
  import opened Serialization
  import opened Recipe
  import opened Identifiers
  import opened Registry
  import opened RegistryLaws

  // ---- Database errors as the service sees them

  /** SQLSTATE class 23. */
  predicate IsIntegrityError(e: DbError) {
    SqlState(e).C23503? || SqlState(e).C23505? || SqlState(e).C23514?
  }

  /** SQLSTATEs the write path discriminates on. */
  datatype SqlStateCode = XX000 | GD001 | C23503 | C23505 | C23514 | OtherCode

  function SqlState(e: DbError): SqlStateCode {
    match e
    case ParseFailure => XX000
    case DegenerateRing => GD001
    case CheckViolation => C23514
    case RegistryKeyClash => C23505
    case GeomHashClash => C23505
    case PlaceKeyClash => C23505
    case ExternalIdClash => C23505
    case ForeignKeyViolation => C23503
    case OtherSqlState => OtherCode
  }

  /** Constraint names the write path discriminates on. */
  datatype ConstraintName = PkGeoidRegistry | UqGeomHash | PkPlace | UqExternalId | OtherConstraint

  function Constraint(e: DbError): ConstraintName {
    match e
    case RegistryKeyClash => PkGeoidRegistry
    case GeomHashClash => UqGeomHash
    case PlaceKeyClash => PkPlace
    case ExternalIdClash => UqExternalId
    case _ => OtherConstraint
  }

  /** `_lost_registry_race` */
  predicate LostRegistryRace(e: DbError) {
    Constraint(e).PkGeoidRegistry? || Constraint(e).UqGeomHash?
  }

  // ---- Answers

  datatype Detail = Degenerate | Unparseable | InvalidReason

  /** The answer to a single mint. */
  datatype Reply =
    | Minted(geoid: Uuid)                  // 201
    | GeometryRejected(detail: Detail)     // 422
    | ExternalIdConflict                   // 409
    | GeoidConflict                        // 409
    | IdenticalGeometry                    // 409, the backstop
    | InternalError                        // 500

  datatype Reason = SchemaInvalid | InvalidGeometry(detail: Detail) | ExternalIdTwice | GeoidTwice | Unclassified

  /** What a bulk request makes of one feature. */
  datatype Verdict = Accept(geoid: Uuid) | Reject(reason: Reason) | AbortBatch

  /** The handler an escaped exception reaches. */
  function Handled(e: DbError): Reply {
    if !IsIntegrityError(e) then InternalError
    else match Constraint(e)
      case UqExternalId => ExternalIdConflict
      case PkGeoidRegistry => GeoidConflict
      case PkPlace => GeoidConflict
      case UqGeomHash => IdenticalGeometry
      case OtherConstraint => if SqlState(e).C23514? then GeometryRejected(InvalidReason) else InternalError
  }

  /** `_classify_integrity` */
  function ClassifyIntegrity(e: DbError): Reason {
    match Constraint(e)
    case UqExternalId => ExternalIdTwice
    case PkPlace => GeoidTwice
    case PkGeoidRegistry => GeoidTwice
    case _ => if SqlState(e).C23514? then InvalidGeometry(InvalidReason) else Unclassified
  }

  /** The answers as functions of the statement's outcome. */
  function SingleReply(o: Outcome): Reply {
    match o
    case Created(g) => Minted(g)
    case Existing(g, resolvable) => if resolvable then Minted(g) else InternalError
    case Raised(e) =>
      match e
      case ParseFailure => GeometryRejected(Unparseable)
      case DegenerateRing => GeometryRejected(Degenerate)
      case CheckViolation => GeometryRejected(InvalidReason)
      case RegistryKeyClash => GeoidConflict
      case PlaceKeyClash => GeoidConflict
      case GeomHashClash => IdenticalGeometry
      case ExternalIdClash => ExternalIdConflict
      case ForeignKeyViolation => InternalError
      case OtherSqlState => InternalError
  }

  function BulkVerdict(o: Outcome): Verdict {
    match o
    case Created(g) => Accept(g)
    case Existing(g, resolvable) => if resolvable then Accept(g) else AbortBatch
    case Raised(e) =>
      match e
      case ParseFailure => Reject(InvalidGeometry(Unparseable))
      case DegenerateRing => Reject(InvalidGeometry(Degenerate))
      case CheckViolation => Reject(InvalidGeometry(InvalidReason))
      case RegistryKeyClash => Reject(GeoidTwice)
      case PlaceKeyClash => Reject(GeoidTwice)
      case GeomHashClash => Reject(Unclassified)
      case ExternalIdClash => Reject(ExternalIdTwice)
      case ForeignKeyViolation => Reject(Unclassified)
      case OtherSqlState => AbortBatch
  }

  /** The single endpoint's answer that a bulk verdict stands for. */
  function AsReply(v: Verdict): Reply {
    match v
    case Accept(g) => Minted(g)
    case Reject(SchemaInvalid) => GeometryRejected(InvalidReason)
    case Reject(InvalidGeometry(d)) => GeometryRejected(d)
    case Reject(ExternalIdTwice) => ExternalIdConflict
    case Reject(GeoidTwice) => GeoidConflict
    case Reject(Unclassified) => InternalError
    case AbortBatch => InternalError
  }

  lemma AnswersAgree(o: Outcome)
    requires (o.Existing? ==> o.resolvable) && o != Raised(GeomHashClash)
    ensures AsReply(BulkVerdict(o)) == SingleReply(o)
    ensures BulkVerdict(o) == AbortBatch ==> o == Raised(OtherSqlState)
    ensures BulkVerdict(o).Accept? <==> !o.Raised?
  {
  }

  /** Each feature of a bulk request gets the answer the single endpoint gives,
      for every outcome a statement on consistent tables can have. */
  lemma SameAnswerEitherWay(env: Deployment, t: Tables, r: Request)
    requires Consistent(env, t)
    ensures AsReply(BulkVerdict(Judge(env, t, r))) == SingleReply(Judge(env, t, r))
    ensures BulkVerdict(Judge(env, t, r)) == AbortBatch ==> Judge(env, t, r) == Raised(OtherSqlState)
    ensures BulkVerdict(Judge(env, t, r)).Accept? <==> !Judge(env, t, r).Raised?
  {
    if !Judge(env, t, r).Raised? {
      AcceptedResolves(env, t, r);
    }
    NeverGeomHashClash(env, t, r);
    AnswersAgree(Judge(env, t, r));
  }

  lemma NeverGeomHashClash(env: Deployment, t: Tables, r: Request)
    ensures Judge(env, t, r) != Raised(GeomHashClash)
  {
  }

  /** Each reply of the single endpoint, and each verdict of the bulk one, exactly
      when. */
  lemma RepliesExactly(o: Outcome, g: Uuid)
    ensures SingleReply(o) == Minted(g) <==> o == Created(g) || o == Existing(g, true)
    ensures SingleReply(o) == GeometryRejected(Unparseable) <==> o == Raised(ParseFailure)
    ensures SingleReply(o) == GeometryRejected(Degenerate) <==> o == Raised(DegenerateRing)
    ensures SingleReply(o) == GeometryRejected(InvalidReason) <==> o == Raised(CheckViolation)
    ensures SingleReply(o) == ExternalIdConflict <==> o == Raised(ExternalIdClash)
    ensures SingleReply(o) == GeoidConflict <==> o in {Raised(RegistryKeyClash), Raised(PlaceKeyClash)}
    ensures BulkVerdict(o) == Accept(g) <==> o == Created(g) || o == Existing(g, true)
    ensures BulkVerdict(o) == Reject(InvalidGeometry(Unparseable)) <==> o == Raised(ParseFailure)
    ensures BulkVerdict(o) == Reject(InvalidGeometry(Degenerate)) <==> o == Raised(DegenerateRing)
    ensures BulkVerdict(o) == Reject(InvalidGeometry(InvalidReason)) <==> o == Raised(CheckViolation)
    ensures BulkVerdict(o) == Reject(ExternalIdTwice) <==> o == Raised(ExternalIdClash)
    ensures BulkVerdict(o) == Reject(GeoidTwice) <==> o in {Raised(RegistryKeyClash), Raised(PlaceKeyClash)}
    ensures BulkVerdict(o) != Reject(SchemaInvalid)
  {
  }

  /** An escaped database error is answered, and a bulk one classified, as the
      outcome it stands for. */
  lemma HandlersAgree(e: DbError)
    ensures !e.ParseFailure? && !e.DegenerateRing? ==> Handled(e) == SingleReply(Raised(e))
    ensures IsIntegrityError(e) ==> Reject(ClassifyIntegrity(e)) == BulkVerdict(Raised(e))
  {
  }

  // ---- A bulk request

  /** A submitted feature: one the schema refuses, or one ready to mint. */
  datatype Feature = Malformed | Wellformed(request: Request)

  /** A feature's turn in its batch: what other sessions commit meanwhile, while its
      statement waits for their keys, and the feature. */
  datatype Turn = Turn(others: seq<Mint>, feature: Feature)

  ghost function AfterFeature(env: Deployment, t: Tables, f: Feature): Tables {
    match f
    case Malformed => t
    case Wellformed(r) => Statement(env, t, r).1
  }

  /** The tables once the first i features have been minted one at a time, each after
      what the others committed in its turn. */
  ghost function TablesAfter(env: Deployment, t: Tables, ts: seq<Turn>, i: nat): Tables
    requires i <= |ts|
    decreases i, 0
  {
    if i == 0 then t else AfterFeature(env, TablesAt(env, t, ts, i - 1), ts[i - 1].feature)
  }

  /** The tables that feature i is minted into. */
  ghost function TablesAt(env: Deployment, t: Tables, ts: seq<Turn>, i: nat): Tables
    requires i < |ts|
    decreases i, 1
  {
    Apply(TablesAfter(env, t, ts, i), ts[i].others)
  }

  /** The tables with the others' commits of the first i turns only. */
  ghost function OthersAfter(t: Tables, ts: seq<Turn>, i: nat): Tables
    requires i <= |ts|
  {
    if i == 0 then t else Apply(OthersAfter(t, ts, i - 1), ts[i - 1].others)
  }

  /** The unique indexes let the others' rows in: beside what is committed, and beside
      the batch's own pending rows. */
  ghost predicate OthersFit(env: Deployment, t: Tables, ts: seq<Turn>) {
    forall i :: 0 <= i < |ts| ==>
      Insertable(env, TablesAfter(env, t, ts, i), ts[i].others) && Insertable(env, OthersAfter(t, ts, i), ts[i].others)
  }

  ghost function FeatureVerdict(env: Deployment, t: Tables, f: Feature): Verdict {
    match f
    case Malformed => Reject(SchemaInvalid)
    case Wellformed(r) => BulkVerdict(Judge(env, t, r))
  }

  /** The verdict on feature i, given what the earlier ones and the others left. */
  ghost function VerdictOn(env: Deployment, t: Tables, ts: seq<Turn>, i: nat): Verdict
    requires i < |ts|
  {
    FeatureVerdict(env, TablesAt(env, t, ts, i), ts[i].feature)
  }

  /** Some feature among the first i aborts the batch. */
  ghost predicate Aborts(env: Deployment, t: Tables, ts: seq<Turn>, i: nat)
    requires i <= |ts|
  {
    exists k :: 0 <= k < i && VerdictOn(env, t, ts, k) == AbortBatch
  }

  datatype Report = Report(received: nat, accepted: seq<(nat, Uuid)>, rejected: seq<(nat, Reason)>)

  datatype BulkReply = Ok200(report: Report) | Failed500

  /** The report lists exactly the verdicts on the first n features, each list in
      feature order. */
  ghost predicate Reports(env: Deployment, t: Tables, ts: seq<Turn>, n: nat, accepted: seq<(nat, Uuid)>,
        rejected: seq<(nat, Reason)>)
    requires n <= |ts|
  {
    && |accepted| + |rejected| == n
    && (forall p :: 0 <= p < |accepted| ==> accepted[p].0 < n && VerdictOn(env, t, ts, accepted[p].0) == Accept(accepted[p].1))
    && (forall p :: 0 <= p < |rejected| ==> rejected[p].0 < n && VerdictOn(env, t, ts, rejected[p].0) == Reject(rejected[p].1))
    && (forall p, q :: 0 <= p < q < |accepted| ==> accepted[p].0 < accepted[q].0)
    && (forall p, q :: 0 <= p < q < |rejected| ==> rejected[p].0 < rejected[q].0)
    && (forall i :: 0 <= i < n ==> Listed(accepted, i) || Listed(rejected, i))
  }

  predicate Listed<T>(entries: seq<(nat, T)>, i: nat) {
    exists p :: 0 <= p < |entries| && entries[p].0 == i
  }

  /** No feature is in both lists. */
  lemma ListsAreDisjoint(env: Deployment, t: Tables, ts: seq<Turn>, n: nat, accepted: seq<(nat, Uuid)>,
        rejected: seq<(nat, Reason)>, i: nat)
    requires n <= |ts| && Reports(env, t, ts, n, accepted, rejected)
    ensures Listed(accepted, i) ==> !Listed(rejected, i)
  {
    if Listed(accepted, i) {
      var p :| 0 <= p < |accepted| && accepted[p].0 == i;
      assert VerdictOn(env, t, ts, accepted[p].0) == Accept(accepted[p].1);
      forall q | 0 <= q < |rejected| ensures rejected[q].0 != i {
        assert VerdictOn(env, t, ts, rejected[q].0) == Reject(rejected[q].1);
      }
    }
  }

  function Accepted(n: nat, v: Verdict): seq<(nat, Uuid)> {
    if v.Accept? then [(n, v.geoid)] else []
  }

  function Rejected(n: nat, v: Verdict): seq<(nat, Reason)> {
    if v.Reject? then [(n, v.reason)] else []
  }

  /** One more verdict listed. */
  lemma Listing(env: Deployment, t: Tables, ts: seq<Turn>, n: nat, accepted: seq<(nat, Uuid)>,
        rejected: seq<(nat, Reason)>, v: Verdict)
    requires n < |ts| && Reports(env, t, ts, n, accepted, rejected)
    requires v == VerdictOn(env, t, ts, n) && v != AbortBatch
    ensures Reports(env, t, ts, n + 1, accepted + Accepted(n, v), rejected + Rejected(n, v))
  {
    var a, r := accepted + Accepted(n, v), rejected + Rejected(n, v);
    forall i | 0 <= i < n + 1 ensures Listed(a, i) || Listed(r, i) {
      if i == n {
        assert if v.Accept? then a[|accepted|].0 == n else r[|rejected|].0 == n;
      } else if Listed(accepted, i) {
        StillListed(accepted, Accepted(n, v), i);
      } else {
        StillListed(rejected, Rejected(n, v), i);
      }
    }
  }

  lemma StillListed<T>(entries: seq<(nat, T)>, more: seq<(nat, T)>, i: nat)
    requires Listed(entries, i)
    ensures Listed(entries + more, i)
  {
    var p :| 0 <= p < |entries| && entries[p].0 == i;
    assert (entries + more)[p].0 == i;
  }

  /** The lists once n features have been appended to one or the other. */
  ghost function AcceptedSoFar(env: Deployment, t: Tables, ts: seq<Turn>, n: nat): seq<(nat, Uuid)>
    requires n <= |ts|
  {
    if n == 0 then [] else AcceptedSoFar(env, t, ts, n - 1) + Accepted(n - 1, VerdictOn(env, t, ts, n - 1))
  }

  ghost function RejectedSoFar(env: Deployment, t: Tables, ts: seq<Turn>, n: nat): seq<(nat, Reason)>
    requires n <= |ts|
  {
    if n == 0 then [] else RejectedSoFar(env, t, ts, n - 1) + Rejected(n - 1, VerdictOn(env, t, ts, n - 1))
  }

  lemma NothingListed(env: Deployment, t: Tables, ts: seq<Turn>)
    ensures Reports(env, t, ts, 0, [], [])
  {
  }

  lemma {:induction false} ListsReport(env: Deployment, t: Tables, ts: seq<Turn>, n: nat)
    requires n <= |ts| && !Aborts(env, t, ts, n)
    ensures Reports(env, t, ts, n, AcceptedSoFar(env, t, ts, n), RejectedSoFar(env, t, ts, n))
  {
    hide Reports, VerdictOn;
    if n == 0 {
      NothingListed(env, t, ts);
    } else {
      ListsReport(env, t, ts, n - 1);
      Listing(env, t, ts, n - 1, AcceptedSoFar(env, t, ts, n - 1), RejectedSoFar(env, t, ts, n - 1), VerdictOn(env, t, ts, n - 1));
    }
  }

  // ---- One turn of the loop

  lemma BatchBegins(env: Deployment, t: Tables, ts: seq<Turn>)
    ensures TablesAfter(env, t, ts, 0) == t && OthersAfter(t, ts, 0) == t && !Aborts(env, t, ts, 0)
    ensures AcceptedSoFar(env, t, ts, 0) == [] && RejectedSoFar(env, t, ts, 0) == []
  {
  }

  lemma TurnOfBatch(env: Deployment, t: Tables, ts: seq<Turn>, i: nat)
    requires i < |ts|
    ensures var at := Apply(TablesAfter(env, t, ts, i), ts[i].others);
            && VerdictOn(env, t, ts, i) == FeatureVerdict(env, at, ts[i].feature)
            && TablesAfter(env, t, ts, i + 1) == AfterFeature(env, at, ts[i].feature)
    ensures OthersAfter(t, ts, i + 1) == Apply(OthersAfter(t, ts, i), ts[i].others)
    ensures var v := VerdictOn(env, t, ts, i);
            && (Aborts(env, t, ts, i + 1) <==> Aborts(env, t, ts, i) || v == AbortBatch)
            && AcceptedSoFar(env, t, ts, i + 1) == AcceptedSoFar(env, t, ts, i) + Accepted(i, v)
            && RejectedSoFar(env, t, ts, i + 1) == RejectedSoFar(env, t, ts, i) + Rejected(i, v)
    ensures OthersFit(env, t, ts) ==>
              && Insertable(env, TablesAfter(env, t, ts, i), ts[i].others)
              && Insertable(env, OthersAfter(t, ts, i), ts[i].others)
    ensures VerdictOn(env, t, ts, i) == AbortBatch ==> Aborts(env, t, ts, |ts|)
  {
    hide Apply, FeatureVerdict, AfterFeature, Insertable;
  }

  // ---- Consistency along a batch

  lemma FeatureKeepsConsistent(env: Deployment, t: Tables, f: Feature)
    requires Consistent(env, t)
    ensures Consistent(env, AfterFeature(env, t, f)) && Extends(t, AfterFeature(env, t, f))
  {
    if f.Wellformed? {
      StatementKeepsConsistent(env, t, f.request);
    }
  }

  /** A turn keeps the tables consistent and only adds to them. */
  lemma TurnKeepsConsistent(env: Deployment, t: Tables, turn: Turn)
    requires Consistent(env, t) && Insertable(env, t, turn.others)
    ensures var at := Apply(t, turn.others); var after := AfterFeature(env, at, turn.feature);
            Consistent(env, at) && Consistent(env, after) && Extends(t, at) && Extends(at, after) && Extends(t, after)
  {
    ApplyKeepsConsistent(env, t, turn.others);
    FeatureKeepsConsistent(env, Apply(t, turn.others), turn.feature);
    ExtendsTransitive(t, Apply(t, turn.others), AfterFeature(env, Apply(t, turn.others), turn.feature));
  }

  lemma {:induction false} BatchIsConsistent(env: Deployment, t: Tables, ts: seq<Turn>, n: nat)
    requires Consistent(env, t) && OthersFit(env, t, ts) && n <= |ts|
    ensures Consistent(env, TablesAfter(env, t, ts, n))
    ensures n < |ts| ==> Consistent(env, TablesAt(env, t, ts, n))
  {
    hide Consistent, AfterFeature, Extends, Apply, Insertable;
    if n > 0 {
      BatchIsConsistent(env, t, ts, n - 1);
      TurnKeepsConsistent(env, TablesAfter(env, t, ts, n - 1), ts[n - 1]);
    }
    if n < |ts| {
      TurnKeepsConsistent(env, TablesAfter(env, t, ts, n), ts[n]);
    }
  }

  lemma ExtendsItself(t: Tables)
    ensures Extends(t, t)
  {
  }

  lemma {:induction false} BatchExtends(env: Deployment, t: Tables, ts: seq<Turn>, i: nat, j: nat)
    requires Consistent(env, t) && OthersFit(env, t, ts) && i <= j <= |ts|
    ensures Extends(TablesAfter(env, t, ts, i), TablesAfter(env, t, ts, j))
    decreases j - i
  {
    hide Consistent, AfterFeature, Apply, Insertable;
    if i == j {
      ExtendsItself(TablesAfter(env, t, ts, i));
    } else {
      hide Extends;
      var u := TablesAfter(env, t, ts, j - 1);
      BatchExtends(env, t, ts, i, j - 1);
      BatchIsConsistent(env, t, ts, j - 1);
      TurnKeepsConsistent(env, u, ts[j - 1]);
      ExtendsTransitive(TablesAfter(env, t, ts, i), u, TablesAfter(env, t, ts, j));
    }
  }

  lemma {:induction false} OthersKeepConsistent(env: Deployment, t: Tables, ts: seq<Turn>, n: nat)
    requires Consistent(env, t) && OthersFit(env, t, ts) && n <= |ts|
    ensures Consistent(env, OthersAfter(t, ts, n)) && Extends(t, OthersAfter(t, ts, n))
  {
    hide Consistent, Apply, Insertable;
    if n > 0 {
      var u := OthersAfter(t, ts, n - 1);
      OthersKeepConsistent(env, t, ts, n - 1);
      ApplyKeepsConsistent(env, u, ts[n - 1].others);
      hide Extends;
      ExtendsTransitive(t, u, OthersAfter(t, ts, n));
    }
  }

  // ---- What the report and the batch say of one feature

  /** Ready to mint, but its bytes fail in a way the service does not foresee. */
  predicate Unforeseen(env: Deployment, f: Feature) {
    && f.Wellformed? && env.parses(f.request.geometry)
    && match env.recipe(f.request.geometry)
       case Ok(_) => false
       case Err(e) => e.BadPosition? || e.Overflow?
  }

  /** A feature aborts its batch exactly when its error is unforeseen, whatever came
      before it; a malformed feature never does. */
  lemma AbortsExactly(env: Deployment, t: Tables, ts: seq<Turn>, i: nat)
    requires Consistent(env, t) && OthersFit(env, t, ts) && i < |ts|
    ensures VerdictOn(env, t, ts, i) == AbortBatch <==> Unforeseen(env, ts[i].feature)
  {
    hide Consistent, OthersFit, Apply, Judge, BulkVerdict;
    if ts[i].feature.Wellformed? {
      var u := TablesAt(env, t, ts, i);
      BatchIsConsistent(env, t, ts, i);
      SameAnswerEitherWay(env, u, ts[i].feature.request);
      RefusedExactly(env, u, ts[i].feature.request);
      NeverAbortsOtherwise(Judge(env, u, ts[i].feature.request));
    }
  }

  lemma NeverAbortsOtherwise(o: Outcome)
    ensures o == Raised(OtherSqlState) ==> BulkVerdict(o) == AbortBatch
  {
  }

  lemma BatchAbortsExactly(env: Deployment, t: Tables, ts: seq<Turn>)
    requires Consistent(env, t) && OthersFit(env, t, ts)
    ensures Aborts(env, t, ts, |ts|) <==> exists i :: 0 <= i < |ts| && Unforeseen(env, ts[i].feature)
  {
    hide Consistent, OthersFit, VerdictOn, Unforeseen;
    forall i | 0 <= i < |ts| ensures VerdictOn(env, t, ts, i) == AbortBatch <==> Unforeseen(env, ts[i].feature) {
      AbortsExactly(env, t, ts, i);
    }
  }

  /** The n-th feature is the first with an unforeseen error. */
  predicate StopsAfter(env: Deployment, ts: seq<Turn>, n: nat) {
    && 0 < n <= |ts| && Unforeseen(env, ts[n - 1].feature)
    && forall i :: 0 <= i < n - 1 ==> !Unforeseen(env, ts[i].feature)
  }

  lemma StopsAtFirst(env: Deployment, t: Tables, ts: seq<Turn>, i: nat)
    requires Consistent(env, t) && OthersFit(env, t, ts) && i < |ts|
    requires !Aborts(env, t, ts, i) && VerdictOn(env, t, ts, i) == AbortBatch
    ensures StopsAfter(env, ts, i + 1)
  {
    hide Consistent, OthersFit, VerdictOn, Unforeseen;
    forall k | 0 <= k <= i ensures VerdictOn(env, t, ts, k) == AbortBatch <==> Unforeseen(env, ts[k].feature) {
      AbortsExactly(env, t, ts, k);
    }
  }

  /** A report rejects a feature as schema-invalid exactly when it is malformed, and
      accepts it with a geoid exactly when its mint, at its turn, has that geoid. */
  lemma ReportExactly(env: Deployment, t: Tables, ts: seq<Turn>, accepted: seq<(nat, Uuid)>, rejected: seq<(nat, Reason)>,
        i: nat, g: Uuid)
    requires Reports(env, t, ts, |ts|, accepted, rejected) && i < |ts|
    ensures (i, SchemaInvalid) in rejected <==> ts[i].feature.Malformed?
    ensures (i, g) in accepted <==>
              && ts[i].feature.Wellformed?
              && Judge(env, TablesAt(env, t, ts, i), ts[i].feature.request) in {Created(g), Existing(g, true)}
  {
    InReport(env, t, ts, accepted, rejected, i);
    hide Reports, Judge, TablesAt;
    if ts[i].feature.Wellformed? {
      RepliesExactly(Judge(env, TablesAt(env, t, ts, i), ts[i].feature.request), g);
    }
  }

  lemma InReport(env: Deployment, t: Tables, ts: seq<Turn>, accepted: seq<(nat, Uuid)>, rejected: seq<(nat, Reason)>, i: nat)
    requires Reports(env, t, ts, |ts|, accepted, rejected) && i < |ts|
    ensures forall g :: (i, g) in accepted <==> VerdictOn(env, t, ts, i) == Accept(g)
    ensures forall reason :: (i, reason) in rejected <==> VerdictOn(env, t, ts, i) == Reject(reason)
  {
    hide VerdictOn;
    forall g | (i, g) in accepted ensures VerdictOn(env, t, ts, i) == Accept(g) {
      var p :| 0 <= p < |accepted| && accepted[p] == (i, g);
      assert VerdictOn(env, t, ts, accepted[p].0) == Accept(accepted[p].1);
    }
    forall reason | (i, reason) in rejected ensures VerdictOn(env, t, ts, i) == Reject(reason) {
      var p :| 0 <= p < |rejected| && rejected[p] == (i, reason);
      assert VerdictOn(env, t, ts, rejected[p].0) == Reject(rejected[p].1);
    }
    if Listed(accepted, i) {
      var p :| 0 <= p < |accepted| && accepted[p].0 == i;
      assert accepted[p] == (i, accepted[p].1);
    } else {
      var p :| 0 <= p < |rejected| && rejected[p].0 == i;
      assert rejected[p] == (i, rejected[p].1);
    }
  }

  /** Besides the others, only a created feature changes the tables. */
  lemma OnlyCreationsWrite(env: Deployment, t: Tables, ts: seq<Turn>, i: nat)
    requires i < |ts| && TablesAfter(env, t, ts, i + 1) != Apply(TablesAfter(env, t, ts, i), ts[i].others)
    ensures ts[i].feature.Wellformed? && Judge(env, TablesAt(env, t, ts, i), ts[i].feature.request).Created?
  {
    hide Judge, Apply;
  }

  // ---- Submitting a batch again

  /** The same features in the same order, whatever others commit meanwhile. */
  ghost predicate SameFeatures(ts: seq<Turn>, again: seq<Turn>) {
    |ts| == |again| && forall i :: 0 <= i < |ts| ==> ts[i].feature == again[i].feature
  }

  /** The statement's verdict at some state and at any later one. */
  lemma VerdictLater(env: Deployment, before: Tables, later: Tables, f: Feature)
    requires Consistent(env, before) && Consistent(env, later) && Extends(AfterFeature(env, before, f), later)
    ensures AfterFeature(env, later, f) == later
    ensures FeatureVerdict(env, before, f).Accept? ==> FeatureVerdict(env, later, f) == FeatureVerdict(env, before, f)
  {
    if f.Wellformed? {
      AgainCreatesNothing(env, before, later, f.request);
      SameAnswerEitherWay(env, before, f.request);
    }
  }

  /** Feature i once more, at its turn in a batch submitted later. */
  lemma FeatureAgain(env: Deployment, t: Tables, ts: seq<Turn>, u: Tables, again: seq<Turn>, i: nat)
    requires Consistent(env, t) && OthersFit(env, t, ts) && Consistent(env, u) && OthersFit(env, u, again)
    requires Extends(TablesAfter(env, t, ts, |ts|), u) && SameFeatures(ts, again) && i < |ts|
    ensures TablesAfter(env, u, again, i + 1) == Apply(TablesAfter(env, u, again, i), again[i].others)
    ensures VerdictOn(env, t, ts, i).Accept? ==> VerdictOn(env, u, again, i) == VerdictOn(env, t, ts, i)
  {
    var before, at := TablesAt(env, t, ts, i), TablesAt(env, u, again, i);
    BatchIsConsistent(env, t, ts, i);
    BatchIsConsistent(env, u, again, i);
    TurnKeepsConsistent(env, TablesAfter(env, u, again, i), again[i]);
    BatchExtends(env, t, ts, i + 1, |ts|);
    BatchExtends(env, u, again, 0, i);
    hide Consistent, AfterFeature, Extends, Apply, FeatureVerdict, OthersFit;
    var (mine, all) := (TablesAfter(env, t, ts, i + 1), TablesAfter(env, t, ts, |ts|));
    ExtendsTransitive(mine, all, u);
    ExtendsTransitive(mine, u, TablesAfter(env, u, again, i));
    ExtendsTransitive(mine, TablesAfter(env, u, again, i), at);
    VerdictLater(env, before, at, ts[i].feature);
  }

  lemma {:induction false} AgainWritesNothing(env: Deployment, t: Tables, ts: seq<Turn>, u: Tables, again: seq<Turn>, n: nat)
    requires Consistent(env, t) && OthersFit(env, t, ts) && Consistent(env, u) && OthersFit(env, u, again)
    requires Extends(TablesAfter(env, t, ts, |ts|), u) && SameFeatures(ts, again) && n <= |ts|
    ensures TablesAfter(env, u, again, n) == OthersAfter(u, again, n)
  {
    hide Consistent, Extends, Apply, OthersFit, AfterFeature;
    if n > 0 {
      AgainWritesNothing(env, t, ts, u, again, n - 1);
      FeatureAgain(env, t, ts, u, again, n - 1);
    }
  }

  lemma AcceptancesAgain(env: Deployment, t: Tables, ts: seq<Turn>, u: Tables, again: seq<Turn>)
    requires Consistent(env, t) && OthersFit(env, t, ts) && Consistent(env, u) && OthersFit(env, u, again)
    requires Extends(TablesAfter(env, t, ts, |ts|), u) && SameFeatures(ts, again)
    ensures forall i :: 0 <= i < |ts| && VerdictOn(env, t, ts, i).Accept? ==> VerdictOn(env, u, again, i) == VerdictOn(env, t, ts, i)
  {
    hide Consistent, Extends, OthersFit, VerdictOn, TablesAfter;
    forall i | 0 <= i < |ts| ensures VerdictOn(env, t, ts, i).Accept? ==> VerdictOn(env, u, again, i) == VerdictOn(env, t, ts, i) {
      FeatureAgain(env, t, ts, u, again, i);
    }
  }

  lemma AbortsAgain(env: Deployment, t: Tables, ts: seq<Turn>, u: Tables, again: seq<Turn>)
    requires Consistent(env, t) && OthersFit(env, t, ts) && Consistent(env, u) && OthersFit(env, u, again)
    requires SameFeatures(ts, again)
    ensures Aborts(env, u, again, |again|) <==> Aborts(env, t, ts, |ts|)
  {
    hide Consistent, OthersFit, Unforeseen, Aborts;
    BatchAbortsExactly(env, t, ts);
    BatchAbortsExactly(env, u, again);
    forall i | 0 <= i < |ts| ensures Unforeseen(env, ts[i].feature) <==> Unforeseen(env, again[i].feature) {
    }
  }

  /** Submitting a batch again at any later time: it writes no row of its own, every
      feature accepted the first time is accepted with the same geoid, and it is
      aborted exactly when the first was. */
  lemma ResubmissionWritesNothing(env: Deployment, t: Tables, ts: seq<Turn>, u: Tables, again: seq<Turn>)
    requires Consistent(env, t) && OthersFit(env, t, ts) && Consistent(env, u) && OthersFit(env, u, again)
    requires Extends(TablesAfter(env, t, ts, |ts|), u) && SameFeatures(ts, again)
    ensures TablesAfter(env, u, again, |again|) == OthersAfter(u, again, |again|)
    ensures forall i :: 0 <= i < |ts| && VerdictOn(env, t, ts, i).Accept? ==> VerdictOn(env, u, again, i) == VerdictOn(env, t, ts, i)
    ensures Aborts(env, u, again, |again|) <==> Aborts(env, t, ts, |ts|)
  {
    hide Consistent, Extends, OthersFit, VerdictOn, Aborts, TablesAfter, OthersAfter;
    AgainWritesNothing(env, t, ts, u, again, |ts|);
    AbortsAgain(env, t, ts, u, again);
    AcceptancesAgain(env, t, ts, u, again);
  }

  /** A feature rejected the first time is accepted the second time exactly when its
      shape is registered by then. */
  lemma RejectedThenAccepted(env: Deployment, t: Tables, ts: seq<Turn>, u: Tables, again: seq<Turn>, i: nat)
    requires Consistent(env, t) && OthersFit(env, t, ts) && Consistent(env, u) && OthersFit(env, u, again)
    requires Extends(TablesAfter(env, t, ts, |ts|), u) && SameFeatures(ts, again)
    requires i < |ts| && VerdictOn(env, t, ts, i).Reject?
    ensures VerdictOn(env, u, again, i).Accept? <==>
              && ts[i].feature.Wellformed? && Identified(env, ts[i].feature.request)
              && HashRegistered(TablesAt(env, u, again, i), Derived(env, ts[i].feature.request))
  {
    FeatureAgain(env, t, ts, u, again, i);
    BatchIsConsistent(env, u, again, i);
    hide Consistent, Extends, OthersFit, Apply;
    if ts[i].feature.Wellformed? {
      AcceptedWhenRegistered(env, TablesAt(env, u, again, i), ts[i].feature.request);
    }
  }

  lemma AcceptedWhenRegistered(env: Deployment, t: Tables, r: Request)
    requires Consistent(env, t)
    ensures BulkVerdict(Judge(env, t, r)).Accept? && !Judge(env, t, r).Created? ==>
              Identified(env, r) && HashRegistered(t, Derived(env, r))
    ensures Identified(env, r) && HashRegistered(t, Derived(env, r)) ==> BulkVerdict(Judge(env, t, r)).Accept?
  {
    SameAnswerEitherWay(env, t, r);
    ExistingExactly(env, t, r);
  }

  // ---- One session

  datatype InsertReply = Inserted(geoid: Uuid, created: bool, joined: bool) | Raises(error: DbError)

  /** `created` and `joined` as the statement's outcome has them. */
  function ReplyOf(o: Outcome): InsertReply {
    match o
    case Created(g) => Inserted(g, true, false)
    case Existing(g, resolvable) => Inserted(g, false, resolvable)
    case Raised(e) => Raises(e)
  }

  lemma JudgedByHash(env: Deployment, t: Tables, r: Request, h: bytes)
    requires env.parses(r.geometry) && GeomHash(env, r.geometry) == Hash(h)
    ensures Judge(env, t, r) == JudgeHash(env, t, r, h)
    ensures JudgeHash(env, t, r, h).Created? ==> Statement(env, t, r).1 == WithMint(t, Mint(env.stamp(h), h, r))
    ensures !JudgeHash(env, t, r, h).Created? ==> Statement(env, t, r).1 == t
  {
  }

  // ---- A statement that waits

  /** The outcome of a statement that found the tables t at its arbiter and, when it
      came to insert, those with other sessions' commits added. */
  ghost function Raced(env: Deployment, t: Tables, arrived: Tables, r: Request): Outcome {
    match GeomHash(env, r.geometry)
    case NoHash(_) => Judge(env, arrived, r)
    case Hash(h) =>
      if env.parses(r.geometry) && !HashRegistered(t, h) && env.stamp(h) in arrived.registry
      then Raised(RegistryKeyClash)
      else Judge(env, arrived, r)
  }

  /** A statement that loses no race answers as it would have after the others. */
  lemma RacedOrNot(env: Deployment, t: Tables, arrived: Tables, r: Request, h: bytes)
    requires Consistent(env, t) && Consistent(env, arrived) && Extends(t, arrived)
    requires env.parses(r.geometry) && GeomHash(env, r.geometry) == Hash(h)
    ensures HashRegistered(t, h) ==> Raced(env, t, arrived, r) == Existing(env.stamp(h), true)
    ensures !HashRegistered(t, h) && env.stamp(h) in arrived.registry ==>
      Raced(env, t, arrived, r) == Raised(RegistryKeyClash)
    ensures !HashRegistered(t, h) && env.stamp(h) !in arrived.registry ==>
      !HashRegistered(arrived, h) && Raced(env, t, arrived, r) == Judge(env, arrived, r)
  {
    RegisteredUnderStamp(env, t, h);
    RegisteredUnderStamp(env, arrived, h);
    if HashRegistered(t, h) {
      HashStaysRegistered(t, arrived, h);
      RegisteredHashIsReturned(env, arrived, r);
    }
  }

  /** A statement that hits writes nothing, the others' commits notwithstanding. */
  lemma HitWritesNothing(env: Deployment, t: Tables, arrived: Tables, r: Request, h: bytes)
    requires Consistent(env, arrived) && Extends(t, arrived) && HashRegistered(t, h)
    requires env.parses(r.geometry) && GeomHash(env, r.geometry) == Hash(h)
    ensures Statement(env, arrived, r).1 == arrived
  {
    HashStaysRegistered(t, arrived, h);
    RegisteredHashIsReturned(env, arrived, r);
  }

  /** The outcome leg by leg, and what each leaves of the tables. */
  lemma ArrivedOutcome(env: Deployment, t: Tables, arrived: Tables, r: Request, h: bytes)
    requires Consistent(env, t) && Consistent(env, arrived) && Extends(t, arrived)
    requires env.parses(r.geometry) && GeomHash(env, r.geometry) == Hash(h)
    ensures HashRegistered(t, h) ==>
      Raced(env, t, arrived, r) == Existing(env.stamp(h), true) && Statement(env, arrived, r).1 == arrived
    ensures !HashRegistered(t, h) && env.stamp(h) in arrived.registry ==>
      Raced(env, t, arrived, r) == Raised(RegistryKeyClash)
    ensures !HashRegistered(t, h) && env.stamp(h) !in arrived.registry ==>
      Raced(env, t, arrived, r) == PlaceOutcome(env, arrived, r, env.stamp(h))
    ensures !HashRegistered(t, h) && env.stamp(h) !in arrived.registry && PlaceOutcome(env, arrived, r, env.stamp(h)).Created? ==>
      Statement(env, arrived, r).1 == WithMint(arrived, Mint(env.stamp(h), h, r))
  {
    RacedOrNot(env, t, arrived, r, h);
    JudgedByHash(env, arrived, r, h);
    if HashRegistered(t, h) {
      HitWritesNothing(env, t, arrived, r, h);
    }
  }

  /** What the place leg makes of the request behind a new registry row. */
  function PlaceOutcome(env: Deployment, t: Tables, r: Request, g: Uuid): Outcome {
    if !env.valid(r.geometry) then Raised(CheckViolation)
    else if g in t.place then Raised(PlaceKeyClash)
    else if ExternalIdTaken(env, t, r.collection, r.externalId) then Raised(ExternalIdClash)
    else if r.collection !in env.collections then Raised(ForeignKeyViolation)
    else Created(g)
  }

  /** The race a statement may lose is the one on the registry key; after it, either
      the incumbent is there or the key belongs to another hash. */
  lemma OnlyTheKeyIsRaced(env: Deployment, t: Tables, arrived: Tables, r: Request)
    ensures Raced(env, t, arrived, r) == Judge(env, arrived, r) || Raced(env, t, arrived, r) == Raised(RegistryKeyClash)
    ensures Raced(env, t, arrived, r) == Raised(RegistryKeyClash) ==>
      Judge(env, arrived, r).Existing? || Judge(env, arrived, r) == Raised(RegistryKeyClash)
  {
  }

  lemma NoRaceAlone(env: Deployment, t: Tables, r: Request)
    requires Consistent(env, t)
    ensures Raced(env, t, t, r) == Judge(env, t, r) && Extends(t, t)
  {
  }

  /** What each leg writes. */
  function WithRegistryRow(t: Tables, r: Request, g: Uuid, h: bytes): Tables {
    t.(registry := t.registry[g := RegistryRow(g, r.collection, h)])
  }

  function WithPlaceRow(t: Tables, r: Request, g: Uuid): Tables {
    t.(place := t.place[g := PlaceRow(r.collection, r.geometry, r.externalId, r.createdBy)],
       log := t.log + [LogRow(g, r.collection, r.externalId)])
  }

  lemma WrittenInTwoLegs(env: Deployment, t: Tables, r: Request, g: Uuid, h: bytes)
    ensures WithMint(t, Mint(g, h, r)) == WithPlaceRow(WithRegistryRow(t, r, g, h), r, g)
    ensures PlaceOutcome(env, WithRegistryRow(t, r, g, h), r, g) == PlaceOutcome(env, t, r, g)
  {
  }

  lemma RepliesOf(env: Deployment, t: Tables, r: Request, g: Uuid)
    ensures ReplyOf(Existing(g, true)) == Inserted(g, false, true)
    ensures ReplyOf(Raised(RegistryKeyClash)) == Raises(RegistryKeyClash)
    ensures ReplyOf(PlaceOutcome(env, t, r, g)).Raises? <==> !PlaceOutcome(env, t, r, g).Created?
  {
  }

  /** The reply and the tables, leg by leg. */
  lemma LegByLeg(env: Deployment, t: Tables, others: seq<Mint>, arrived: Tables, r: Request, h: bytes, g: Uuid)
    requires Consistent(env, t) && Insertable(env, t, others) && arrived == Apply(t, others) && g == env.stamp(h)
    requires env.parses(r.geometry) && GeomHash(env, r.geometry) == Hash(h)
    ensures HashRegistered(t, h) ==>
      ReplyOf(Raced(env, t, arrived, r)) == Inserted(g, false, true) && Statement(env, arrived, r).1 == arrived
    ensures !HashRegistered(t, h) && g in arrived.registry ==> ReplyOf(Raced(env, t, arrived, r)) == Raises(RegistryKeyClash)
    ensures var started := WithRegistryRow(arrived, r, g, h); var out := ReplyOf(PlaceOutcome(env, started, r, g));
            !HashRegistered(t, h) && g !in arrived.registry ==>
              && ReplyOf(Raced(env, t, arrived, r)) == out
              && (!out.Raises? ==> Statement(env, arrived, r).1 == WithPlaceRow(started, r, g))
  {
    ApplyKeepsConsistent(env, t, others);
    ArrivedOutcome(env, t, arrived, r, h);
    WrittenInTwoLegs(env, arrived, r, g, h);
    RepliesOf(env, arrived, r, g);
    hide *;
  }

  ghost predicate AllConsistent(env: Deployment, saved: seq<Tables>) {
    forall i :: 0 <= i < |saved| ==> Consistent(env, saved[i])
  }

  /** Every savepoint with the others' rows added. */
  function Arrived(savepoints: seq<Tables>, others: seq<Mint>): (r: seq<Tables>)
    ensures |r| == |savepoints|
  {
    seq(|savepoints|, i requires 0 <= i < |savepoints| => Apply(savepoints[i], others))
  }

  lemma ArrivedConsistent(env: Deployment, saved: seq<Tables>, others: seq<Mint>)
    requires AllConsistent(env, saved) && forall i :: 0 <= i < |saved| ==> Insertable(env, saved[i], others)
    ensures AllConsistent(env, Arrived(saved, others))
  {
    forall i | 0 <= i < |saved| ensures Consistent(env, Arrived(saved, others)[i]) {
      ApplyKeepsConsistent(env, saved[i], others);
    }
  }

  lemma ApplyNone(env: Deployment, t: Tables)
    ensures Apply(t, []) == t && Insertable(env, t, [])
  {
  }

  lemma RaisedWritesNothing(env: Deployment, t: Tables, r: Request)
    ensures Judge(env, t, r).Raised? || Judge(env, t, r).Existing? ==> Statement(env, t, r).1 == t
  {
  }

  class Session {
    const env: Deployment
    var committed: Tables          // as of the last commit
    var current: Tables            // what the open transaction sees
    var savepoints: seq<Tables>
    var failed: bool               // a statement raised; only a rollback is possible

    ghost predicate Valid()
      reads this
    {
      && Consistent(env, committed)
      && (!failed ==> Consistent(env, current))
      && AllConsistent(env, savepoints)
    }

    /** No transaction is open. */
    ghost predicate Idle()
      reads this
    {
      !failed && savepoints == [] && current == committed
    }

    constructor (env: Deployment)
      ensures Valid() && Idle() && committed == EMPTY && this.env == env
    {
      this.env := env;
      committed, current, savepoints, failed := EMPTY, EMPTY, [], false;
      new;
      EmptyIsConsistent(env);
    }

    // -- Transaction control

    method Commit()
      requires Valid() && !failed && savepoints == []
      modifies this
      ensures Valid() && Idle() && committed == old(current)
    {
      committed := current;
    }

    method Rollback()
      requires Valid()
      modifies this
      ensures Valid() && Idle() && committed == old(committed)
    {
      current, savepoints, failed := committed, [], false;
    }

    method BeginNested()
      requires Valid() && !failed
      modifies `savepoints
      ensures Valid() && savepoints == old(savepoints) + [current]
    {
      savepoints := savepoints + [current];
    }

    method ReleaseNested()
      requires Valid() && !failed && savepoints != []
      modifies `savepoints
      ensures Valid() && savepoints == old(savepoints)[..|old(savepoints)| - 1]
    {
      savepoints := savepoints[..|savepoints| - 1];
    }

    method RollbackNested()
      requires Valid() && savepoints != []
      modifies `current, `savepoints, `failed
      ensures Valid() && !failed
      ensures savepoints == old(savepoints)[..|old(savepoints)| - 1]
      ensures current == old(savepoints)[|old(savepoints)| - 1]
    {
      current := savepoints[|savepoints| - 1];
      savepoints := savepoints[..|savepoints| - 1];
      failed := false;
    }

    // -- The arbiter statement

    /** A statement that raises leaves the transaction failed, with whatever it had
        written so far still in `current`. */
    method Raise(e: DbError) returns (out: InsertReply)
      requires Valid()
      modifies `failed
      ensures Valid() && failed && out == Raises(e)
    {
      failed := true;
      out := Raises(e);
    }

    /** `_resolve_incumbent` */
    method ResolveIncumbent(hash: bytes) returns (joined: bool)
      requires Valid() && !failed
      ensures joined <==> HashRegistered(current, hash)
    {
      for i := 0 to INCUMBENT_READS
        invariant !HashRegistered(current, hash)  || i == 0
      {
        if HashRegistered(current, hash) {
          var g :| g in current.registry && current.registry[g].hash == hash;
          RegisteredUnderStamp(env, current, hash);
          HashesUnique(env, current, g, StoredGeoid(current, hash));
          if current.registry[g].collection in env.collections {
            return true;
          }
        }
      }
      joined := false;
    }

    /** The unique indexes let the others' rows in, beside everything this session
        has seen or written. */
    ghost predicate MayArrive(others: seq<Mint>)
      reads this
    {
      && Insertable(env, committed, others) && Insertable(env, current, others)
      && forall i :: 0 <= i < |savepoints| ==> Insertable(env, savepoints[i], others)
    }

    /** Other sessions commit their rows: they show at once in whatever this session
        reads next, and outlive its rollbacks. */
    method Arrive(others: seq<Mint>)
      requires Valid() && !failed && MayArrive(others)
      modifies `committed, `current, `savepoints
      ensures Valid()
      ensures committed == Apply(old(committed), others) && current == Apply(old(current), others)
      ensures savepoints == Arrived(old(savepoints), others)
    {
      hide Consistent, Insertable, AllConsistent, Arrived, Apply, Extends;
      ApplyKeepsConsistent(env, committed, others);
      ApplyKeepsConsistent(env, current, others);
      ArrivedConsistent(env, savepoints, others);
      committed, current, savepoints := Apply(committed, others), Apply(current, others), Arrived(savepoints, others);
    }

    /** The registry leg: arbiter on the hash, then, after any wait, the key. */
    method RegistryLeg(r: Request, h: bytes, others: seq<Mint>, ghost t: Tables, ghost arrived: Tables)
      returns (out: InsertReply, won: bool)
      requires Valid() && !failed && MayArrive(others) && GeomHash(env, r.geometry) == Hash(h)
      requires t == current && arrived == Apply(current, others)
      modifies `committed, `current, `savepoints, `failed
      ensures committed == Apply(old(committed), others) && savepoints == Arrived(old(savepoints), others)
      ensures HashRegistered(t, h) ==>
        !won && !failed && current == arrived && out == Inserted(env.stamp(h), false, true)
      ensures !HashRegistered(t, h) && env.stamp(h) in arrived.registry ==>
        !won && failed && out == Raises(RegistryKeyClash)
      ensures !HashRegistered(t, h) && env.stamp(h) !in arrived.registry ==>
        won && !failed && current == WithRegistryRow(arrived, r, env.stamp(h), h)
    {
      hide Insertable, AllConsistent, Arrived, Apply;
      if HashRegistered(current, h) {
        var g :| g in current.registry && current.registry[g].hash == h;
        RegisteredUnderStamp(env, current, h);
        HashesUnique(env, current, g, StoredGeoid(current, h));
        hide Consistent;
        var joined := current.registry[g].collection in env.collections;
        if !joined {
          joined := ResolveIncumbent(h);
        }
        Arrive(others);
        return Inserted(g, false, joined), false;
      }
      Arrive(others);
      var g := env.stamp(h);
      if g in current.registry {
        out := Raise(RegistryKeyClash);
        return out, false;
      }
      current := WithRegistryRow(current, r, g, h);
      return Inserted(g, true, false), true;
    }

    /** The place leg, behind a new registry row; the trigger logs the row. */
    method PlaceLeg(r: Request, g: Uuid) returns (out: InsertReply)
      requires !failed
      modifies `current, `failed
      ensures out.Raises? <==> failed
      ensures out == ReplyOf(PlaceOutcome(env, old(current), r, g))
      ensures !failed ==> current == WithPlaceRow(old(current), r, g)
    {
      failed := true;
      if !env.valid(r.geometry) {
        return Raises(CheckViolation);
      }
      if g in current.place {
        return Raises(PlaceKeyClash);
      }
      if ExternalIdTaken(env, current, r.collection, r.externalId) {
        return Raises(ExternalIdClash);
      }
      current := WithPlaceRow(current, r, g);
      if r.collection !in env.collections {
        return Raises(ForeignKeyViolation);
      }
      failed := false;
      out := Inserted(g, true, false);
    }

    /** The legs of the statement, once the geometry has its hash. */
    method InsertHashed(r: Request, h: bytes, others: seq<Mint>) returns (out: InsertReply)
      requires Valid() && !failed && MayArrive(others)
      requires env.parses(r.geometry) && GeomHash(env, r.geometry) == Hash(h)
      modifies `committed, `current, `savepoints, `failed
      ensures committed == Apply(old(committed), others) && savepoints == Arrived(old(savepoints), others)
      ensures out == ReplyOf(Raced(env, old(current), Apply(old(current), others), r)) && (out.Raises? <==> failed)
      ensures !failed ==> current == Statement(env, Apply(old(current), others), r).1
    {
      hide Consistent, AllConsistent, Insertable, Apply, Arrived, HashRegistered, GeomHash, Raced, Statement, PlaceOutcome;
      hide ReplyOf, WithRegistryRow, WithPlaceRow;
      ghost var t, arrived := current, Apply(current, others);
      var g := env.stamp(h);
      LegByLeg(env, t, others, arrived, r, h, g);
      hide *;
      var won;
      out, won := RegistryLeg(r, h, others, t, arrived);
      if won {
        out := PlaceLeg(r, g);
      }
    }

    /** `insert_place`; others commit their rows while it waits. */
    method InsertPlace(r: Request, others: seq<Mint>) returns (out: InsertReply)
      requires Valid() && !failed && MayArrive(others)
      modifies `committed, `current, `savepoints, `failed
      ensures Valid() && (out.Raises? <==> failed)
      ensures committed == Apply(old(committed), others) && savepoints == Arrived(old(savepoints), others)
      ensures out == ReplyOf(Raced(env, old(current), Apply(old(current), others), r))
      ensures !failed ==> current == Statement(env, Apply(old(current), others), r).1
    {
      if !env.parses(r.geometry) {
        Arrive(others);
        out := Raise(ParseFailure);
        return;
      }
      match GeomHash(env, r.geometry) {
        case NoHash(e) =>
          Arrive(others);
          out := Raise(e);
        case Hash(h) =>
          ApplyKeepsConsistent(env, committed, others);
          ApplyKeepsConsistent(env, current, others);
          ArrivedConsistent(env, savepoints, others);
          StatementKeepsConsistent(env, Apply(current, others), r);
          out := InsertHashed(r, h, others);
      }
    }

    // -- One feature in its own transaction

    /** `geometry_invalid_reason`: a query, so the transaction must be usable. */
    method GeometryInvalidReason() returns (d: Detail)
      requires !failed
      ensures d == InvalidReason
    {
      d := InvalidReason;
    }

    /** `create_place`; an escaping exception is answered by its handler. Whatever
        others commit while its statement waits, the single retry answers as if the
        request had come after them. */
    method CreatePlace(r: Request, others: seq<Mint>) returns (reply: Reply)
      requires Valid() && Idle() && MayArrive(others)
      modifies this
      ensures Valid() && committed == Apply(old(committed), others)
      ensures reply == SingleReply(Judge(env, Apply(old(committed), others), r))
      ensures reply.Minted? ==> !failed && savepoints == [] && current == Statement(env, Apply(old(committed), others), r).1
    {
      ghost var arrived := Apply(committed, others);
      hide Judge, Statement, Raced, Consistent, Apply;
      OnlyTheKeyIsRaced(env, current, arrived, r);
      ApplyNone(env, arrived);
      var out := InsertPlace(r, others);
      if out.Raises? {
        var e := out.error;
        if IsIntegrityError(e) {
          if SqlState(e).C23514? {
            Rollback();
            var d := GeometryInvalidReason();
            return GeometryRejected(d);
          }
          if !LostRegistryRace(e) {
            return Handled(e);
          }
          Rollback();
          NoRaceAlone(env, current, r);
          out := InsertPlace(r, []);
          if out.Raises? {
            return Handled(out.error);
          }
        } else if SqlState(e).GD001? {
          Rollback();
          return GeometryRejected(Degenerate);
        } else if !SqlState(e).XX000? {
          return Handled(e);
        } else {
          Rollback();
          return GeometryRejected(Unparseable);
        }
      }
      if !out.created && !out.joined {
        return InternalError;
      }
      return Minted(out.geoid);
    }

    /** A whole request to the single endpoint: commit on success, roll back on
        error. Its effect is that of the statement on what was committed before it. */
    method PostPlace(r: Request, others: seq<Mint>) returns (reply: Reply)
      requires Valid() && Idle() && MayArrive(others)
      modifies this
      ensures Valid() && Idle()
      ensures committed == Statement(env, Apply(old(committed), others), r).1
      ensures reply == SingleReply(Judge(env, Apply(old(committed), others), r))
    {
      ApplyKeepsConsistent(env, committed, others);
      SameAnswerEitherWay(env, Apply(committed, others), r);
      reply := CreatePlace(r, others);
      if reply.Minted? {
        Commit();
      } else {
        Rollback();
      }
    }

    // -- Many features in one transaction

    /** One attempt inside its own savepoint: an abort undoes this feature only, never
        what others committed meanwhile. */
    method Attempt(r: Request, others: seq<Mint>) returns (out: InsertReply)
      requires Valid() && !failed && savepoints == [] && MayArrive(others)
      modifies `committed, `current, `savepoints, `failed
      ensures Valid() && !failed && savepoints == [] && committed == Apply(old(committed), others)
      ensures var arrived := Apply(old(current), others);
              && out == ReplyOf(Raced(env, old(current), arrived, r))
              && current == if out.Raises? then arrived else Statement(env, arrived, r).1
    {
      hide Insertable, Raced, Statement, Consistent, Apply;
      BeginNested();
      out := InsertPlace(r, others);
      if out.Raises? {
        RollbackNested();
      } else {
        ReleaseNested();
      }
    }

    /** `_mint_one`; a lost race is retried once, and the verdict is as if the feature
        had come after the others. */
    method MintOne(r: Request, others: seq<Mint>) returns (v: Verdict)
      requires Valid() && !failed && savepoints == [] && MayArrive(others)
      modifies `committed, `current, `savepoints, `failed
      ensures Valid() && !failed && savepoints == [] && committed == Apply(old(committed), others)
      ensures v == BulkVerdict(Judge(env, Apply(old(current), others), r))
      ensures current == Statement(env, Apply(old(current), others), r).1
    {
      ghost var arrived := Apply(current, others);
      OnlyTheKeyIsRaced(env, current, arrived, r);
      RaisedWritesNothing(env, arrived, r);
      ApplyNone(env, arrived);
      hide Raced, Judge, Statement, Consistent, Apply, Insertable;
      var out := Attempt(r, others);
      if out.Raises? {
        var e := out.error;
        if IsIntegrityError(e) {
          if !LostRegistryRace(e) {
            return Reject(ClassifyIntegrity(e));
          }
          ApplyNone(env, committed);
          NoRaceAlone(env, current, r);
          out := Attempt(r, []);
          if out.Raises? {
            return if IsIntegrityError(out.error) then Reject(ClassifyIntegrity(out.error)) else AbortBatch;
          }
        } else if SqlState(e).GD001? {
          return Reject(InvalidGeometry(Degenerate));
        } else if !SqlState(e).XX000? {
          return AbortBatch;
        } else {
          return Reject(InvalidGeometry(Unparseable));
        }
      }
      if !out.created && !out.joined {
        return AbortBatch;
      }
      return Accept(out.geoid);
    }

    /** One iteration: validate, then mint. */
    method MintFeature(turn: Turn) returns (v: Verdict)
      requires Valid() && !failed && savepoints == [] && MayArrive(turn.others)
      modifies `committed, `current, `savepoints, `failed
      ensures Valid() && !failed && savepoints == [] && committed == Apply(old(committed), turn.others)
      ensures v == FeatureVerdict(env, Apply(old(current), turn.others), turn.feature)
      ensures current == AfterFeature(env, Apply(old(current), turn.others), turn.feature)
    {
      match turn.feature {
        case Malformed =>
          Arrive(turn.others);
          v := Reject(SchemaInvalid);
        case Wellformed(r) => v := MintOne(r, turn.others);
      }
    }

    /** `create_places_bulk` */
    method CreatePlacesBulk(ts: seq<Turn>) returns (reply: BulkReply)
      requires Valid() && Idle() && OthersFit(env, committed, ts)
      modifies `committed, `current, `savepoints, `failed
      ensures Valid() && !failed && savepoints == []
      ensures reply.Failed500? <==> exists i :: 0 <= i < |ts| && Unforeseen(env, ts[i].feature)
      ensures reply.Failed500? ==> exists n :: StopsAfter(env, ts, n) && committed == OthersAfter(old(committed), ts, n)
      ensures reply.Ok200? ==>
        && committed == OthersAfter(old(committed), ts, |ts|)
        && current == TablesAfter(env, old(committed), ts, |ts|)
        && reply.report.received == |ts|
        && Reports(env, old(committed), ts, |ts|, reply.report.accepted, reply.report.rejected)
    {
      hide Consistent, Judge, Statement, Unforeseen, Apply, Insertable, FeatureVerdict, AfterFeature;
      hide VerdictOn, TablesAfter, TablesAt, OthersAfter, AcceptedSoFar, RejectedSoFar, Aborts, Reports, StopsAfter;
      ghost var t := committed;
      BatchBegins(env, t, ts);
      BatchAbortsExactly(env, t, ts);
      var accepted: seq<(nat, Uuid)>, rejected: seq<(nat, Reason)> := [], [];
      for index := 0 to |ts|
        invariant Valid() && !failed && savepoints == [] && committed == OthersAfter(t, ts, index)
        invariant current == TablesAfter(env, t, ts, index)
        invariant accepted == AcceptedSoFar(env, t, ts, index) && rejected == RejectedSoFar(env, t, ts, index)
        invariant !Aborts(env, t, ts, index)
      {
        TurnOfBatch(env, t, ts, index);
        var v := MintFeature(ts[index]);
        if v == AbortBatch {
          StopsAtFirst(env, t, ts, index);
          return Failed500;
        }
        accepted := accepted + Accepted(index, v);
        rejected := rejected + Rejected(index, v);
      }
      ListsReport(env, t, ts, |ts|);
      reply := Ok200(Report(|ts|, accepted, rejected));
    }

    /** A whole bulk request: when no feature aborts it, the same final tables as
        minting the features one at a time; otherwise nothing of its own is kept. */
    method PostBulk(ts: seq<Turn>) returns (reply: BulkReply)
      requires Valid() && Idle() && OthersFit(env, committed, ts)
      modifies this
      ensures Valid() && Idle()
      ensures reply.Failed500? <==> exists i :: 0 <= i < |ts| && Unforeseen(env, ts[i].feature)
      ensures reply.Failed500? ==> exists n :: StopsAfter(env, ts, n) && committed == OthersAfter(old(committed), ts, n)
      ensures reply.Ok200? ==>
        && committed == TablesAfter(env, old(committed), ts, |ts|)
        && reply.report.received == |ts|
        && Reports(env, old(committed), ts, |ts|, reply.report.accepted, reply.report.rejected)
    {
      reply := CreatePlacesBulk(ts);
      if reply.Ok200? {
        Commit();
      } else {
        Rollback();
      }
    }

    method PostFeature(turn: Turn) returns (reply: Reply)
      requires Valid() && Idle() && MayArrive(turn.others)
      modifies this
      ensures Valid() && Idle()
      ensures committed == AfterFeature(env, Apply(old(committed), turn.others), turn.feature)
      ensures reply == AsReply(FeatureVerdict(env, Apply(old(committed), turn.others), turn.feature))
    {
      match turn.feature {
        case Malformed =>
          Arrive(turn.others);
          reply := GeometryRejected(InvalidReason);
        case Wellformed(r) =>
          ApplyKeepsConsistent(env, committed, turn.others);
          SameAnswerEitherWay(env, Apply(committed, turn.others), r);
          reply := PostPlace(r, turn.others);
      }
    }

    /** The same features through the single endpoint, one request each. */
    method PostOneByOne(ts: seq<Turn>) returns (replies: seq<Reply>)
      requires Valid() && Idle() && OthersFit(env, committed, ts)
      modifies this
      ensures Valid() && Idle()
      ensures committed == TablesAfter(env, old(committed), ts, |ts|)
      ensures |replies| == |ts|
      ensures forall i :: 0 <= i < |ts| ==> replies[i] == AsReply(VerdictOn(env, old(committed), ts, i))
    {
      hide Consistent, Judge, Statement, Apply, Insertable, FeatureVerdict, AfterFeature;
      hide VerdictOn, TablesAfter, TablesAt, OthersAfter;
      ghost var t := committed;
      BatchBegins(env, t, ts);
      replies := [];
      for index := 0 to |ts|
        invariant Valid() && Idle() && |replies| == index
        invariant committed == TablesAfter(env, t, ts, index)
        invariant forall i :: 0 <= i < index ==> replies[i] == AsReply(VerdictOn(env, t, ts, i))
      {
        TurnOfBatch(env, t, ts, index);
        var reply := PostFeature(ts[index]);
        replies := replies + [reply];
      }
    }
  }
}
