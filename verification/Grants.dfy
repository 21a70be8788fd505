/** The per-collection grant table: granting and re-granting roles, revoking,
    recording subjects, and the guard that keeps every owned collection owned.
  */
module Grants {
  import opened Identifiers
  import opened Options

  datatype Role = Owner | Editor | Viewer

  datatype PrincipalType = User | Group

  /** A row of `collection_grant`. */
  datatype Grant = Grant(
    collection: CollectionId,
    kind: PrincipalType,
    email: string,
    role: Role,
    subject: Option<string>,
    grantedBy: Option<string>)

  /** The caller. */
  datatype Principal = Principal(anonymous: bool, admin: bool, email: string, emailVerified: bool, subject: string)

  /** Email normalisation is any function; the collections are fixed. */
  datatype Setting = Setting(norm: string -> string, collections: set<CollectionId>)

  // ---- The repository's statements

  /** WHERE collection_id = c AND principal_type = 'user' AND principal_email = e */
  predicate Matches(g: Grant, c: CollectionId, e: string) {
    g.collection == c && g.kind.User? && g.email == e
  }

  function Find(rows: seq<Grant>, c: CollectionId, e: string): Option<Grant> {
    if rows == [] then None
    else if Matches(rows[0], c, e) then Some(rows[0])
    else Find(rows[1..], c, e)
  }

  /** Owner rows of any principal type. */
  function CountOwners(rows: seq<Grant>, c: CollectionId): nat {
    if rows == [] then 0
    else (if rows[0].collection == c && rows[0].role.Owner? then 1 else 0) + CountOwners(rows[1..], c)
  }

  function WithRole(rows: seq<Grant>, c: CollectionId, e: string, role: Role, granter: Option<string>): (r: seq<Grant>)
    ensures |r| == |rows|
  {
    seq(|rows|, i requires 0 <= i < |rows| =>
      if Matches(rows[i], c, e) then rows[i].(role := role, grantedBy := granter) else rows[i])
  }

  /** INSERT ... ON CONFLICT DO UPDATE SET role, granted_by */
  function Upsert(rows: seq<Grant>, c: CollectionId, e: string, role: Role, granter: Option<string>): seq<Grant> {
    if Find(rows, c, e).Some? then WithRole(rows, c, e, role, granter)
    else rows + [Grant(c, User, e, role, None, granter)]
  }

  function Without(rows: seq<Grant>, c: CollectionId, e: string): seq<Grant> {
    if rows == [] then []
    else (if Matches(rows[0], c, e) then [] else [rows[0]]) + Without(rows[1..], c, e)
  }

  /** UPDATE ... WHERE principal_subject IS NULL */
  function Backfill(rows: seq<Grant>, c: CollectionId, e: string, subject: string): (r: seq<Grant>)
    ensures |r| == |rows|
  {
    seq(|rows|, i requires 0 <= i < |rows| =>
      if Matches(rows[i], c, e) && rows[i].subject.None? then rows[i].(subject := Some(subject)) else rows[i])
  }

  // ---- Authorization

  /** `load_caller_grant`: the grant honoured, and the rows it may have touched. */
  function LoadCallerGrant(s: Setting, rows: seq<Grant>, p: Principal, c: CollectionId): (Option<Grant>, seq<Grant>) {
    if p.admin || p.anonymous || !p.emailVerified || p.email == "" then (None, rows)
    else match Find(rows, c, s.norm(p.email))
      case None => (None, rows)
      case Some(g) =>
        if g.subject.Some? && g.subject.value != p.subject then (None, rows)
        else if g.subject.None? && p.subject != "" then (Some(g), Backfill(rows, c, s.norm(p.email), p.subject))
        else (Some(g), rows)
  }

  predicate CanManage(p: Principal, g: Option<Grant>) {
    p.admin || (g.Some? && g.value.role.Owner?)
  }

  // ---- The handlers as functions of the rows

  datatype Reply =
    | Granted(role: Role)     // 201
    | Revoked                 // 204
    | AuthenticationRequired  // 401
    | CollectionNotFound      // 404
    | Forbidden               // 403
    | OwnerGrantForbidden     // 403
    | GrantNotFound           // 404
    | LastOwner               // 409
    | Used

  /** `_require_manageable`: a refusal, or the rows to go on with. */
  function Manageable(s: Setting, rows: seq<Grant>, p: Principal, c: CollectionId): (Option<Reply>, seq<Grant>) {
    if p.anonymous then (Some(AuthenticationRequired), rows)
    else if c !in s.collections then (Some(CollectionNotFound), rows)
    else
      var (g, touched) := LoadCallerGrant(s, rows, p, c);
      (if CanManage(p, g) then None else Some(Forbidden), touched)
  }

  /** Taking this row's ownership away would leave the collection without owner. */
  predicate IsLastOwner(rows: seq<Grant>, c: CollectionId, e: string) {
    Find(rows, c, e).Some? && Find(rows, c, e).value.role.Owner? && CountOwners(rows, c) == 1
  }

  predicate HasOwner(rows: seq<Grant>, c: CollectionId) {
    exists g :: g in rows && g.collection == c && g.role.Owner?
  }

  datatype Request =
    | Give(caller: Principal, collection: CollectionId, email: string, role: Role)
    | Take(caller: Principal, collection: CollectionId, email: string)
    | Use(caller: Principal, collection: CollectionId)   // any other request that loads the caller's grant

  function Granter(p: Principal): Option<string> {
    Some(if p.email != "" then p.email else p.subject)
  }

  /** One request and its commit; a refused request is rolled back. */
  function Step(s: Setting, rows: seq<Grant>, r: Request): (Reply, seq<Grant>) {
    match r
    case Use(p, c) => (Used, LoadCallerGrant(s, rows, p, c).1)
    case Give(p, c, email, role) =>
      var (refusal, touched) := Manageable(s, rows, p, c);
      if refusal.Some? then (refusal.value, rows)
      else if role.Owner? && !p.admin then (OwnerGrantForbidden, rows)
      else if !role.Owner? && IsLastOwner(touched, c, s.norm(email)) then (LastOwner, rows)
      else (Granted(role), Upsert(touched, c, s.norm(email), role, Granter(p)))
    case Take(p, c, email) =>
      var (refusal, touched) := Manageable(s, rows, p, c);
      if refusal.Some? then (refusal.value, rows)
      else if Find(touched, c, s.norm(email)).None? then (GrantNotFound, rows)
      else if IsLastOwner(touched, c, s.norm(email)) then (LastOwner, rows)
      else (Revoked, Without(touched, c, s.norm(email)))
  }

  // ---- One row per key

  predicate SameKey(g: Grant, h: Grant) {
    g.collection == h.collection && g.kind == h.kind && g.email == h.email
  }

  /** uq_collection_grant_principal */
  ghost predicate OnePerKey(rows: seq<Grant>) {
    forall i, j :: 0 <= i < j < |rows| ==> !SameKey(rows[i], rows[j])
  }

  lemma {:induction false} FindFacts(rows: seq<Grant>, c: CollectionId, e: string)
    ensures Find(rows, c, e).Some? ==> Find(rows, c, e).value in rows && Matches(Find(rows, c, e).value, c, e)
    ensures Find(rows, c, e).None? ==> forall i :: 0 <= i < |rows| ==> !Matches(rows[i], c, e)
  {
    if rows != [] {
      FindFacts(rows[1..], c, e);
      if Find(rows, c, e).None? {
        forall i | 0 <= i < |rows| ensures !Matches(rows[i], c, e) {
          if i > 0 {
            assert rows[i] == rows[1..][i - 1];
          }
        }
      }
    }
  }

  lemma {:induction false} WithoutMembers(rows: seq<Grant>, c: CollectionId, e: string, g: Grant)
    ensures g in Without(rows, c, e) <==> g in rows && !Matches(g, c, e)
  {
    if rows != [] {
      WithoutMembers(rows[1..], c, e, g);
      assert g in rows <==> g == rows[0] || g in rows[1..];
    }
  }

  lemma {:induction false} CountIsPositive(rows: seq<Grant>, c: CollectionId)
    ensures CountOwners(rows, c) > 0 <==> HasOwner(rows, c)
  {
    if rows != [] {
      CountIsPositive(rows[1..], c);
      assert forall g :: g in rows <==> g == rows[0] || g in rows[1..];
    }
  }

  predicate OwnerAt(rows: seq<Grant>, c: CollectionId, i: nat) {
    i < |rows| && rows[i].collection == c && rows[i].role.Owner?
  }

  lemma {:induction false} CountTwo(rows: seq<Grant>, c: CollectionId, i: nat, j: nat)
    requires OwnerAt(rows, c, i) && OwnerAt(rows, c, j) && i < j
    ensures CountOwners(rows, c) > 1
  {
    if i > 0 {
      CountTwo(rows[1..], c, i - 1, j - 1);
    } else {
      assert rows[1..][j - 1] == rows[j];
      CountIsPositive(rows[1..], c);
    }
  }

  lemma {:induction false} CountOne(rows: seq<Grant>, c: CollectionId, i: nat)
    requires OwnerAt(rows, c, i) && forall j :: OwnerAt(rows, c, j) ==> j == i
    ensures CountOwners(rows, c) == 1
  {
    if i > 0 {
      assert !OwnerAt(rows, c, 0);
      forall j: nat | OwnerAt(rows[1..], c, j) ensures j == i - 1 {
        assert OwnerAt(rows, c, j + 1);
      }
      CountOne(rows[1..], c, i - 1);
    } else {
      CountIsPositive(rows[1..], c);
      if HasOwner(rows[1..], c) {
        var g :| g in rows[1..] && g.collection == c && g.role.Owner?;
        var j :| 0 <= j < |rows[1..]| && rows[1..][j] == g;
        assert OwnerAt(rows, c, j + 1);
      }
    }
  }

  /** The guard fires exactly when the row is the collection's last owner: there is
      one now, and without this row there would be none. */
  lemma GuardIsExact(rows: seq<Grant>, c: CollectionId, e: string)
    requires OnePerKey(rows)
    ensures IsLastOwner(rows, c, e) <==> HasOwner(rows, c) && !HasOwner(Without(rows, c, e), c)
  {
    FindFacts(rows, c, e);
    CountIsPositive(rows, c);
    if IsLastOwner(rows, c, e) {
      LastOwnerLeavesNone(rows, c, e);
    } else if HasOwner(rows, c) && !HasOwner(Without(rows, c, e), c) {
      NoneLeftIsLastOwner(rows, c, e);
    }
  }

  lemma LastOwnerLeavesNone(rows: seq<Grant>, c: CollectionId, e: string)
    requires IsLastOwner(rows, c, e)
    ensures !HasOwner(Without(rows, c, e), c)
  {
    FindFacts(rows, c, e);
    var k :| 0 <= k < |rows| && rows[k] == Find(rows, c, e).value;
    forall g | g in Without(rows, c, e) ensures !(g.collection == c && g.role.Owner?) {
      WithoutMembers(rows, c, e, g);
      var j :| 0 <= j < |rows| && rows[j] == g;
      if g.collection == c && g.role.Owner? {
        assert OwnerAt(rows, c, j) && OwnerAt(rows, c, k);
        CountTwo(rows, c, if j < k then j else k, if j < k then k else j);
      }
    }
  }

  lemma NoneLeftIsLastOwner(rows: seq<Grant>, c: CollectionId, e: string)
    requires OnePerKey(rows) && HasOwner(rows, c) && !HasOwner(Without(rows, c, e), c)
    ensures IsLastOwner(rows, c, e)
  {
    var g :| g in rows && g.collection == c && g.role.Owner?;
    WithoutMembers(rows, c, e, g);
    var k :| 0 <= k < |rows| && rows[k] == g;
    FindFacts(rows, c, e);
    MatchIsUnique(rows, c, e, g, Find(rows, c, e).value);
    forall j: nat | OwnerAt(rows, c, j) ensures j == k {
      WithoutMembers(rows, c, e, rows[j]);
      assert Matches(rows[j], c, e) && SameKey(rows[j], rows[k]);
    }
    CountOne(rows, c, k);
  }

  lemma MatchIsUnique(rows: seq<Grant>, c: CollectionId, e: string, g: Grant, h: Grant)
    requires OnePerKey(rows) && g in rows && h in rows && Matches(g, c, e) && Matches(h, c, e)
    ensures g == h
  {
    var i :| 0 <= i < |rows| && rows[i] == g;
    var j :| 0 <= j < |rows| && rows[j] == h;
    assert SameKey(rows[i], rows[j]);
  }

  /** Demoting the row leaves an owner exactly when removing it does. */
  lemma DemotionIsRemoval(rows: seq<Grant>, c: CollectionId, e: string, role: Role, granter: Option<string>,
        d: CollectionId)
    requires !role.Owner?
    ensures HasOwner(WithRole(rows, c, e, role, granter), d) <==> HasOwner(Without(rows, c, e), d)
  {
    var u := WithRole(rows, c, e, role, granter);
    if HasOwner(u, d) {
      var g :| g in u && g.collection == d && g.role.Owner?;
      var i :| 0 <= i < |u| && u[i] == g;
      WithoutMembers(rows, c, e, rows[i]);
    }
    if HasOwner(Without(rows, c, e), d) {
      var g :| g in Without(rows, c, e) && g.collection == d && g.role.Owner?;
      WithoutMembers(rows, c, e, g);
      var i :| 0 <= i < |rows| && rows[i] == g;
      assert u[i] in u;
    }
  }

  // ---- What the statements keep

  lemma WithoutIsSubsequence(rows: seq<Grant>, c: CollectionId, e: string)
    requires OnePerKey(rows)
    ensures OnePerKey(Without(rows, c, e))
    decreases |rows|
  {
    if rows != [] {
      assert forall i, j :: 0 <= i < j < |rows[1..]| ==> !SameKey(rows[1..][i], rows[1..][j]);
      WithoutIsSubsequence(rows[1..], c, e);
      var rest := Without(rows[1..], c, e);
      forall j | 0 <= j < |rest| ensures !SameKey(rows[0], rest[j]) {
        WithoutMembers(rows[1..], c, e, rest[j]);
        var k :| 0 <= k < |rows[1..]| && rows[1..][k] == rest[j];
        assert rows[k + 1] == rest[j];
      }
    }
  }

  lemma UpsertKeepsKeys(rows: seq<Grant>, c: CollectionId, e: string, role: Role, granter: Option<string>)
    requires OnePerKey(rows)
    ensures OnePerKey(Upsert(rows, c, e, role, granter))
    ensures Find(rows, c, e).Some? ==> |Upsert(rows, c, e, role, granter)| == |rows|
  {
    FindFacts(rows, c, e);
  }

  lemma BackfillKeepsOwners(rows: seq<Grant>, c: CollectionId, e: string, subject: string, d: CollectionId)
    ensures HasOwner(Backfill(rows, c, e, subject), d) <==> HasOwner(rows, d)
  {
    var u := Backfill(rows, c, e, subject);
    if HasOwner(u, d) {
      var g :| g in u && g.collection == d && g.role.Owner?;
      var i :| 0 <= i < |u| && u[i] == g;
      assert rows[i] in rows;
    }
    if HasOwner(rows, d) {
      var g :| g in rows && g.collection == d && g.role.Owner?;
      var i :| 0 <= i < |rows| && rows[i] == g;
      assert u[i] in u;
    }
  }

  lemma LoadKeeps(s: Setting, rows: seq<Grant>, p: Principal, c: CollectionId)
    requires OnePerKey(rows)
    ensures OnePerKey(LoadCallerGrant(s, rows, p, c).1)
    ensures forall d :: HasOwner(LoadCallerGrant(s, rows, p, c).1, d) <==> HasOwner(rows, d)
  {
    forall d ensures HasOwner(LoadCallerGrant(s, rows, p, c).1, d) <==> HasOwner(rows, d) {
      BackfillKeepsOwners(rows, c, s.norm(p.email), p.subject, d);
    }
  }

  lemma UpsertKeepsOwner(rows: seq<Grant>, c: CollectionId, e: string, role: Role, granter: Option<string>,
        d: CollectionId)
    requires OnePerKey(rows) && HasOwner(rows, d) && (role.Owner? || !IsLastOwner(rows, c, e))
    ensures HasOwner(Upsert(rows, c, e, role, granter), d)
  {
    var u := Upsert(rows, c, e, role, granter);
    var g :| g in rows && g.collection == d && g.role.Owner?;
    var i :| 0 <= i < |rows| && rows[i] == g;
    if Find(rows, c, e).None? {
      assert g in u;
    } else if role.Owner? {
      assert u[i] in u;
    } else {
      DemotionIsRemoval(rows, c, e, role, granter, d);
      if d == c {
        GuardIsExact(rows, c, e);
      } else {
        WithoutMembers(rows, c, e, g);
      }
    }
  }

  lemma WithoutKeepsOwner(rows: seq<Grant>, c: CollectionId, e: string, d: CollectionId)
    requires OnePerKey(rows) && HasOwner(rows, d) && !IsLastOwner(rows, c, e)
    ensures HasOwner(Without(rows, c, e), d)
  {
    GuardIsExact(rows, c, e);
    var g :| g in rows && g.collection == d && g.role.Owner?;
    WithoutMembers(rows, c, e, g);
  }

  /** Every request keeps one row per collection, principal type and email, and an
      owner wherever there was one. */
  lemma StepKeepsOwners(s: Setting, rows: seq<Grant>, r: Request, d: CollectionId)
    requires OnePerKey(rows)
    ensures OnePerKey(Step(s, rows, r).1)
    ensures HasOwner(rows, d) ==> HasOwner(Step(s, rows, r).1, d)
  {
    LoadKeeps(s, rows, r.caller, r.collection);
    var touched := LoadCallerGrant(s, rows, r.caller, r.collection).1;
    match r
    case Use(_, _) =>
    case Give(p, c, email, role) =>
      UpsertKeepsKeys(touched, c, s.norm(email), role, Granter(p));
      if HasOwner(rows, d) && Step(s, rows, r).0.Granted? {
        UpsertKeepsOwner(touched, c, s.norm(email), role, Granter(p), d);
      }
    case Take(p, c, email) =>
      WithoutIsSubsequence(touched, c, s.norm(email));
      if HasOwner(rows, d) && Step(s, rows, r).0.Revoked? {
        WithoutKeepsOwner(touched, c, s.norm(email), d);
      }
  }

  /** A caller who may manage is refused for the last owner's sake exactly when
      the request would take the collection from owned to ownerless. */
  lemma RefusedExactlyWhenOrphaning(s: Setting, rows: seq<Grant>, r: Request)
    requires OnePerKey(rows) && !r.Use?
    requires Manageable(s, rows, r.caller, r.collection).0.None?
    requires r.Give? ==> !r.role.Owner?
    ensures Step(s, rows, r).0 == LastOwner <==>
              HasOwner(rows, r.collection) && !HasOwner(Without(rows, r.collection, s.norm(r.email)), r.collection)
  {
    LoadKeeps(s, rows, r.caller, r.collection);
    var touched := LoadCallerGrant(s, rows, r.caller, r.collection).1;
    GuardIsExact(touched, r.collection, s.norm(r.email));
    TouchedWithout(s, rows, r.caller, r.collection, s.norm(r.email));
  }

  lemma TouchedWithout(s: Setting, rows: seq<Grant>, p: Principal, c: CollectionId, e: string)
    ensures HasOwner(Without(LoadCallerGrant(s, rows, p, c).1, c, e), c) <==> HasOwner(Without(rows, c, e), c)
  {
    var touched := LoadCallerGrant(s, rows, p, c).1;
    if HasOwner(Without(touched, c, e), c) {
      var g :| g in Without(touched, c, e) && g.collection == c && g.role.Owner?;
      WithoutMembers(touched, c, e, g);
      var i :| 0 <= i < |touched| && touched[i] == g;
      WithoutMembers(rows, c, e, rows[i]);
    }
    if HasOwner(Without(rows, c, e), c) {
      var g :| g in Without(rows, c, e) && g.collection == c && g.role.Owner?;
      WithoutMembers(rows, c, e, g);
      var i :| 0 <= i < |rows| && rows[i] == g;
      WithoutMembers(touched, c, e, touched[i]);
    }
  }

  // ---- Subjects

  /** Every recorded subject is still there, unless its row is gone. */
  ghost predicate SubjectsKept(rows: seq<Grant>, later: seq<Grant>) {
    forall g, h :: g in rows && h in later && SameKey(g, h) && g.subject.Some? ==> h.subject == g.subject
  }

  /** A row's subject only ever changes from null to a value. */
  lemma StepKeepsSubjects(s: Setting, rows: seq<Grant>, r: Request)
    requires OnePerKey(rows)
    ensures SubjectsKept(rows, Step(s, rows, r).1)
  {
    var u := Step(s, rows, r).1;
    var touched := LoadCallerGrant(s, rows, r.caller, r.collection).1;
    forall g, h | g in rows && h in u && SameKey(g, h) && g.subject.Some? ensures h.subject == g.subject {
      var m := TouchedFrom(s, rows, r, touched, h);
      SameRow(rows, touched, g, m);
    }
  }

  /** Each later row comes from a touched one with its key and subject, or starts
      without a subject under a new key. */
  lemma TouchedFrom(s: Setting, rows: seq<Grant>, r: Request, touched: seq<Grant>, h: Grant) returns (m: Grant)
    requires OnePerKey(rows) && touched == LoadCallerGrant(s, rows, r.caller, r.collection).1
    requires h in Step(s, rows, r).1 && exists g :: g in rows && SameKey(g, h)
    ensures (m in touched || m in rows) && SameKey(m, h) && m.subject == h.subject
  {
    m := h;
    if r.Give? && Step(s, rows, r).0.Granted? {
      var e := s.norm(r.email);
      FindFacts(touched, r.collection, e);
      if Find(touched, r.collection, e).Some? {
        var u := Step(s, rows, r).1;
        var i :| 0 <= i < |u| && u[i] == h;
        m := touched[i];
      } else if h !in touched {
        var g :| g in rows && SameKey(g, h);
        var k :| 0 <= k < |rows| && rows[k] == g;
        assert Matches(touched[k], r.collection, e);
        assert false;
      }
    } else if r.Take? && Step(s, rows, r).0.Revoked? {
      WithoutMembers(touched, r.collection, s.norm(r.email), h);
    }
  }

  lemma SameRow(rows: seq<Grant>, touched: seq<Grant>, g: Grant, m: Grant)
    requires OnePerKey(rows) && |touched| == |rows| && g in rows && g.subject.Some?
    requires forall i :: 0 <= i < |rows| ==> SameKey(rows[i], touched[i]) && (rows[i].subject.Some? ==> touched[i].subject == rows[i].subject)
    requires (m in touched || m in rows) && SameKey(g, m)
    ensures m.subject == g.subject
  {
    var i :| 0 <= i < |rows| && rows[i] == g;
    if m in rows {
      var j :| 0 <= j < |rows| && rows[j] == m;
    } else {
      var j :| 0 <= j < |touched| && touched[j] == m;
      assert SameKey(rows[j], touched[j]);
    }
  }

  // ---- Normalised emails

  /** User rows are stored under normalised emails only, so that with OnePerKey
      every spelling of an address shares one row. */
  ghost predicate Normalised(s: Setting, rows: seq<Grant>) {
    forall g :: g in rows && g.kind.User? ==> IsNormal(s, g.email)
  }

  ghost predicate IsNormal(s: Setting, email: string) {
    exists e :: s.norm(e) == email
  }

  lemma StepKeepsNormalised(s: Setting, rows: seq<Grant>, r: Request)
    requires Normalised(s, rows)
    ensures Normalised(s, Step(s, rows, r).1)
  {
    var u := Step(s, rows, r).1;
    var touched := LoadCallerGrant(s, rows, r.caller, r.collection).1;
    forall g | g in touched && g.kind.User? ensures IsNormal(s, g.email) {
      var i :| 0 <= i < |touched| && touched[i] == g;
      assert rows[i] in rows;
    }
    forall g | g in u && g.kind.User? ensures IsNormal(s, g.email) {
      if r.Take? && Step(s, rows, r).0.Revoked? {
        WithoutMembers(touched, r.collection, s.norm(r.email), g);
      } else {
        var i :| 0 <= i < |u| && u[i] == g;
        assert i < |touched| ==> touched[i] in touched;
      }
    }
  }

  // ---- Runs

  function After(s: Setting, rows: seq<Grant>, rs: seq<Request>, n: nat): seq<Grant>
    requires n <= |rs|
  {
    if n == 0 then rows else Step(s, After(s, rows, rs, n - 1), rs[n - 1]).1
  }

  /** Over any run of requests: one row per key throughout, and a collection that
      ever had an owner has one from then on. */
  lemma {:induction false} OnceOwnedAlwaysOwned(s: Setting, rows: seq<Grant>, rs: seq<Request>, i: nat, j: nat,
        c: CollectionId)
    requires OnePerKey(rows) && i <= j <= |rs|
    ensures OnePerKey(After(s, rows, rs, j))
    ensures HasOwner(After(s, rows, rs, i), c) ==> HasOwner(After(s, rows, rs, j), c)
    decreases j
  {
    if j > 0 {
      OnceOwnedAlwaysOwned(s, rows, rs, if i < j then i else j - 1, j - 1, c);
      StepKeepsOwners(s, After(s, rows, rs, j - 1), rs[j - 1], c);
    }
  }

  // ---- The handlers over the table

  class GrantTable {
    const setting: Setting
    var rows: seq<Grant>

    constructor (setting: Setting)
      ensures rows == [] && this.setting == setting
    {
      this.setting, rows := setting, [];
    }

    method GetGrant(c: CollectionId, email: string) returns (g: Option<Grant>)
      ensures g == Find(rows, c, setting.norm(email))
    {
      g := Find(rows, c, setting.norm(email));
    }

    method UpsertGrant(c: CollectionId, email: string, role: Role, granter: Option<string>) returns (g: Grant)
      modifies `rows
      ensures rows == Upsert(old(rows), c, setting.norm(email), role, granter)
      ensures Matches(g, c, setting.norm(email)) && g.role == role && g.grantedBy == granter
    {
      var e := setting.norm(email);
      var found := Find(rows, c, e);
      FindFacts(rows, c, e);
      if found.Some? {
        rows := WithRole(rows, c, e, role, granter);
        g := found.value.(role := role, grantedBy := granter);
      } else {
        g := Grant(c, User, e, role, None, granter);
        rows := rows + [g];
      }
    }

    method LoadGrant(p: Principal, c: CollectionId) returns (g: Option<Grant>)
      modifies `rows
      ensures (g, rows) == LoadCallerGrant(setting, old(rows), p, c)
    {
      if p.admin || p.anonymous {
        return None;
      }
      if !p.emailVerified || p.email == "" {
        return None;
      }
      g := GetGrant(c, p.email);
      if g.None? {
        return None;
      }
      if g.value.subject.Some? && g.value.subject.value != p.subject {
        return None;
      }
      if g.value.subject.None? && p.subject != "" {
        rows := Backfill(rows, c, setting.norm(p.email), p.subject);
      }
    }

    method RequireManageable(p: Principal, c: CollectionId) returns (refusal: Option<Reply>)
      modifies `rows
      ensures (refusal, rows) == Manageable(setting, old(rows), p, c)
    {
      if p.anonymous {
        return Some(AuthenticationRequired);
      }
      if c !in setting.collections {
        return Some(CollectionNotFound);
      }
      var g := LoadGrant(p, c);
      refusal := if CanManage(p, g) then None else Some(Forbidden);
    }

    /** `create_grant`; a raised error rolls the request back. */
    method CreateGrant(p: Principal, c: CollectionId, email: string, role: Role) returns (reply: Reply)
      modifies `rows
      ensures (reply, rows) == Step(setting, old(rows), Give(p, c, email, role))
    {
      var saved := rows;
      var refusal := RequireManageable(p, c);
      if refusal.Some? {
        rows := saved;
        return refusal.value;
      }
      if role.Owner? && !p.admin {
        rows := saved;
        return OwnerGrantForbidden;
      }
      if !role.Owner? {
        var existing := GetGrant(c, email);
        if existing.Some? && existing.value.role.Owner? && CountOwners(rows, c) == 1 {
          rows := saved;
          return LastOwner;
        }
      }
      var g := UpsertGrant(c, email, role, Granter(p));
      reply := Granted(g.role);
    }

    /** `delete_grant` */
    method DeleteGrant(p: Principal, c: CollectionId, email: string) returns (reply: Reply)
      modifies `rows
      ensures (reply, rows) == Step(setting, old(rows), Take(p, c, email))
    {
      var saved := rows;
      var refusal := RequireManageable(p, c);
      if refusal.Some? {
        rows := saved;
        return refusal.value;
      }
      var existing := GetGrant(c, email);
      if existing.None? {
        rows := saved;
        return GrantNotFound;
      }
      if existing.value.role.Owner? && CountOwners(rows, c) == 1 {
        rows := saved;
        return LastOwner;
      }
      rows := Without(rows, c, setting.norm(email));
      reply := Revoked;
    }
  }
}
